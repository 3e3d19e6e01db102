/** How large an output is and when it comes: exactly which packets of the queue it uses, where
    a packet is cut, why it ends there, and how long a short queue waits. */
module ResizerSize {
  import opened Options
  import opened Words
  import opened Codec
  import opened ResizerSpec
  import opened ResizerProofs
  import opened ResizerOrder

  // ----- heads of a payload

  /** A codec frame of the payload ends after `bytes` bytes. */
  ghost predicate FrameEnds(pt: int, data: seq<byte>, bytes: nat) {
    if pt == RTP_G729 then bytes % 10 == 0
    else if pt == RTP_GSM then bytes % 33 == 0
    else if pt == RTP_G723 then exists k: nat :: bytes == G723Pos(data, 0, k)
    else true
  }

  /** A head of whole frames that leaves samples behind. */
  ghost predicate IsHead(pt: int, data: seq<byte>, bytes: nat) {
    0 < bytes < |data| && FrameEnds(pt, data, bytes) && CalcSamples(pt, data[..bytes]) < CalcSamples(pt, data)
  }

  ghost predicate Reaches(pt: int, data: seq<byte>, bytes: nat, min: int) {
    IsHead(pt, data, bytes) && CalcSamples(pt, data[..bytes]) >= min
  }

  /** No head has `min` samples. */
  ghost predicate NoHead(pt: int, data: seq<byte>, min: int) {
    forall b: nat :: !Reaches(pt, data, b, min)
  }

  /** The shortest head that has `min` samples. */
  ghost predicate ShortestHead(pt: int, data: seq<byte>, bytes: nat, min: int) {
    Reaches(pt, data, bytes, min) && forall b: nat :: b < bytes ==> !Reaches(pt, data, b, min)
  }

  lemma {:induction false} PosGrows(data: seq<byte>, pos: nat, j: nat, k: nat)
    requires j <= k
    ensures pos <= G723Pos(data, pos, j) <= G723Pos(data, pos, k)
    decreases j
  {
    PosForward(data, pos, k);
    if j > 0 && pos < |data| && G723Len(data[pos]) != NSAMPLES_UNKNOWN {
      PosGrows(data, pos + G723Len(data[pos]), j - 1, k - 1);
    }
  }

  lemma {:induction false} PosForward(data: seq<byte>, pos: nat, k: nat)
    ensures pos <= G723Pos(data, pos, k)
    decreases k
  {
    if k > 0 && pos < |data| && G723Len(data[pos]) != NSAMPLES_UNKNOWN {
      PosForward(data, pos + G723Len(data[pos]), k - 1);
    }
  }

  /** The chunk that is found is the shortest head with so many samples, and the whole packet
      exactly if there is no such head. */
  lemma ChunkIsShortest(pt: int, data: seq<byte>, min: nat)
    requires 0 < min < CalcSamples(pt, data)
    ensures match FirstChunk(pt, data, CalcSamples(pt, data), min)
            case Whole => NoHead(pt, data, min)
            case Part(bytes, n) => ShortestHead(pt, data, bytes, min) && n == CalcSamples(pt, data[..bytes])
  {
    ChunkKeepsFraming(pt, data, min);
    if pt == RTP_G723 {
      G723Shortest(data, min);
    } else if pt == RTP_G729 {
      G729Shortest(data, min);
    } else if pt == RTP_GSM {
      GsmShortest(data, min);
    }
  }

  /** Heads of fewer frames than needed have too few samples, others leave none behind. */
  lemma G729Head(data: seq<byte>, b: nat, min: nat)
    requires Reaches(RTP_G729, data, b, min)
    ensures b / 10 >= FramesFor(min, 80) && b / 10 * 80 < CalcSamples(RTP_G729, data)
  {
    assert |data[..b]| == b;
    FramesForBounds(min, 80);
  }

  lemma G729Shortest(data: seq<byte>, min: nat)
    requires 0 < min < CalcSamples(RTP_G729, data)
    requires GoodChunk(FirstChunk(RTP_G729, data, CalcSamples(RTP_G729, data), min), RTP_G729, data, min)
    ensures match FirstChunk(RTP_G729, data, CalcSamples(RTP_G729, data), min)
            case Whole => NoHead(RTP_G729, data, min)
            case Part(bytes, n) => ShortestHead(RTP_G729, data, bytes, min)
  {
    forall b: nat | Reaches(RTP_G729, data, b, min)
      ensures b / 10 >= FramesFor(min, 80) && b / 10 * 80 < CalcSamples(RTP_G729, data)
    {
      G729Head(data, b, min);
    }
  }

  lemma GsmHead(data: seq<byte>, b: nat, min: nat)
    requires Reaches(RTP_GSM, data, b, min)
    ensures b / 33 >= FramesFor(min, 160) && b / 33 * 160 < CalcSamples(RTP_GSM, data)
  {
    assert |data[..b]| == b;
    FramesForBounds(min, 160);
  }

  lemma GsmShortest(data: seq<byte>, min: nat)
    requires 0 < min < CalcSamples(RTP_GSM, data)
    requires GoodChunk(FirstChunk(RTP_GSM, data, CalcSamples(RTP_GSM, data), min), RTP_GSM, data, min)
    ensures match FirstChunk(RTP_GSM, data, CalcSamples(RTP_GSM, data), min)
            case Whole => NoHead(RTP_GSM, data, min)
            case Part(bytes, n) => ShortestHead(RTP_GSM, data, bytes, min)
  {
    forall b: nat | Reaches(RTP_GSM, data, b, min)
      ensures b / 33 >= FramesFor(min, 160) && b / 33 * 160 < CalcSamples(RTP_GSM, data)
    {
      GsmHead(data, b, min);
    }
  }

  /** A head of a G.723 payload has some number of frames, at least as many as needed. */
  lemma G723Head(data: seq<byte>, b: nat, min: nat) returns (k: nat)
    requires Reaches(RTP_G723, data, b, min)
    ensures b == G723Pos(data, 0, k) && k >= FramesFor(min, 240) && 240 * k < G723Samples(data)
  {
    k :| b == G723Pos(data, 0, k);
    FramesForBounds(min, 240);
    if 240 * k < G723Samples(data) {
      G723Prefix(data, 0, k);
    } else {
      AllFrames(data, 0, k);
    }
  }

  /** A walk over as many frames as there are ends behind the data. */
  lemma {:induction false} AllFrames(data: seq<byte>, pos: nat, k: nat)
    requires 0 <= G723From(data, pos) <= 240 * k
    ensures G723Pos(data, pos, k) >= |data|
    decreases k
  {
    if pos < |data| && k > 0 {
      AllFrames(data, pos + G723Len(data[pos]), k - 1);
    }
  }

  lemma G723Shortest(data: seq<byte>, min: nat)
    requires 0 < min < CalcSamples(RTP_G723, data)
    requires GoodChunk(FirstChunk(RTP_G723, data, CalcSamples(RTP_G723, data), min), RTP_G723, data, min)
    ensures match FirstChunk(RTP_G723, data, CalcSamples(RTP_G723, data), min)
            case Whole => NoHead(RTP_G723, data, min)
            case Part(bytes, n) => ShortestHead(RTP_G723, data, bytes, min)
  {
    var f := FramesFor(min, 240);
    forall b: nat | Reaches(RTP_G723, data, b, min)
      ensures f * 240 < G723Samples(data) && b >= G723Pos(data, 0, f)
    {
      var k := G723Head(data, b, min);
      PosGrows(data, 0, f, k);
    }
    if f * 240 < G723Samples(data) {
      G723Walk(data, 0, f);
    }
  }

  // ----- the output

  /** The size of an output made of the first `n` packets. */
  function SizeTo(q: seq<Packet>, n: nat): int
    requires 0 < n <= |q|
  {
    if n == 1 then q[0].size else SizeTo(q, n - 1) + |q[n - 1].payload|
  }

  /** Packet `j` may be joined to those before it: they are short of the target and may be
      appended to, and it follows them without a gap. */
  ghost predicate Joins(q: seq<Packet>, j: nat, target: int)
    requires 0 < j < |q|
  {
    Before(q, j) < target && q[j - 1].appendable && Follows(q, j)
  }

  /** Packet `j` is more than what the packets before it leave to be filled. */
  predicate Overshoots(q: seq<Packet>, j: nat, target: int)
    requires j < |q|
  {
    Before(q, j) + q[j].nsamples > target
  }

  /** These bytes of packet `j` are the shortest head that fills up the output. */
  ghost predicate FillsUp(q: seq<Packet>, j: nat, target: int, bytes: nat)
    requires j < |q|
  {
    ShortestHead(q[j].pt, q[j].payload, bytes, target - Before(q, j))
  }

  /** Packet `j` has to be used whole or not at all. */
  ghost predicate Undivided(q: seq<Packet>, j: nat, target: int)
    requires j < |q|
  {
    !Overshoots(q, j, target) || NoHead(q[j].pt, q[j].payload, target - Before(q, j))
  }

  /** What is needed of packet `j` is too long for the buffer. */
  ghost predicate Overflows(q: seq<Packet>, j: nat, target: int)
    requires 0 < j < |q|
  {
    if Undivided(q, j, target) then SizeTo(q, j) + |q[j].payload| > BUF_SIZE
    else forall b: nat :: FillsUp(q, j, target, b) ==> SizeTo(q, j) + b > BUF_SIZE
  }

  /** Packet `j` is used in full by an output that has all those before it. */
  ghost predicate UsedWhole(q: seq<Packet>, j: nat, target: int)
    requires j < |q|
  {
    Undivided(q, j, target) && (j > 0 ==> Joins(q, j, target) && !Overflows(q, j, target))
  }

  /** Packet `j` is cut after these bytes by an output that has all those before it. */
  ghost predicate CutAt(q: seq<Packet>, j: nat, target: int, bytes: nat)
    requires j < |q|
  {
    && Overshoots(q, j, target) && FillsUp(q, j, target, bytes)
    && (j > 0 ==> Joins(q, j, target) && !Overflows(q, j, target))
  }

  /** Packet `j` was cut where it should be, and this is the output and what is left. */
  ghost predicate IsCut(q: seq<Packet>, j: nat, target: int, out: Packet, rest: Packet)
    requires j < |q|
  {
    var p := q[j];
    var b := |p.payload| - |rest.payload|;
    && b >= 0 && CutAt(q, j, target, b) && rest.payload == p.payload[b..]
    && out.nsamples == Before(q, j) + CalcSamples(p.pt, p.payload[..b])
    && out.size == (if j == 0 then p.offset else SizeTo(q, j)) + b
  }

  /** The output consists of the packets that are used whole, one after the other from the
      head on, and the cut head of the next if that is to be cut; it ends there because the
      queue does, because the next packet does not join, or because it does not fit. */
  ghost predicate Exact(q: seq<Packet>, t: Taken, target: int) {
    && t.used <= |q| && (forall j :: 0 <= j < t.used ==> UsedWhole(q, j, target))
    && (t.used > 0 ==> t.out.pt == q[0].pt)
    && match t.rest
       case None =>
         && 0 < t.used && t.out.nsamples == Before(q, t.used) && t.out.size == SizeTo(q, t.used)
         && (t.used == |q| || !Joins(q, t.used, target) || Overflows(q, t.used, target))
       case Some(rest) =>
         t.used < |q| && IsCut(q, t.used, target, t.out, rest)
  }

  /** An output packet that has grown by the first `n` packets so far. */
  ghost predicate Grown(ret: Packet, q: seq<Packet>, n: nat, target: int)
    requires 0 < n <= |q|
  {
    && ret.nsamples == Before(q, n) >= 0 && ret.size == SizeTo(q, n)
    && ret.pt == q[0].pt && ret.ts == q[0].ts
    && (forall j :: 0 <= j < n ==> UsedWhole(q, j, target))
  }

  lemma ShortestUnique(pt: int, data: seq<byte>, a: nat, b: nat, min: int)
    requires ShortestHead(pt, data, a, min) && ShortestHead(pt, data, b, min)
    ensures a == b
  {
  }

  /** What the chunk finder says about packet `i`: whether it is used whole, and if not, where
      it is cut. */
  lemma NeededChunk(q: seq<Packet>, i: nat, target: int)
    requires 0 < i < |q| && Queued(q[i]) && Before(q, i) < target && Overshoots(q, i, target)
    ensures
      var c := ChunkOf(q[i], target - Before(q, i));
      && (c.Whole? ==> Undivided(q, i, target))
      && (c.Part? ==>
            && !Undivided(q, i, target) && FillsUp(q, i, target, c.bytes) && c.bytes <= |q[i].payload|
            && (Overflows(q, i, target) <==> SizeTo(q, i) + c.bytes > BUF_SIZE)
            && c.nsamples == CalcSamples(q[i].pt, q[i].payload[..c.bytes]))
  {
    var p, left := q[i], target - Before(q, i);
    ChunkIsShortest(p.pt, p.payload, left);
    if ChunkOf(p, left).Part? {
      var b := ChunkOf(p, left).bytes;
      assert FillsUp(q, i, target, b) && Reaches(p.pt, p.payload, b, left);
      forall b': nat | FillsUp(q, i, target, b') ensures b' == b {
        ShortestUnique(p.pt, p.payload, b', b, left);
      }
    }
  }

  /** One turn that extends the output. */
  lemma ExtendIsExact(ret: Packet, q: seq<Packet>, i: nat, target: int)
    requires AllQueued(q) && 0 < i < |q| && Grown(ret, q, i, target) && ret.nsamples < target && q[i - 1].appendable
    ensures match Extend(ret, q[i], target)
            case Stop => !Joins(q, i, target) || Overflows(q, i, target)
            case UseAll(out, more) =>
              Grown(out, q, i + 1, target) && (more <==> q[i].appendable && !Overshoots(q, i, target))
            case UseHead(out, rest) => IsCut(q, i, target, out, rest)
  {
    hide NoHead, FillsUp, FirstChunk, CalcSamples;
    var p, left := q[i], target - ret.nsamples;
    if left < p.nsamples {
      ChunkKeepsFraming(p.pt, p.payload, left);
      NeededChunk(q, i, target);
    }
  }

  lemma {:induction false} AggregateIsExact(ret: Packet, q: seq<Packet>, i: nat, target: int)
    requires AllQueued(q) && 0 < i <= |q| && Grown(ret, q, i, target) && q[i - 1].appendable
    ensures Exact(q, Aggregate(ret, q, i, target), target)
    decreases |q| - i
  {
    if ret.nsamples < target && i < |q| {
      ExtendIsExact(ret, q, i, target);
      var t := Extend(ret, q[i], target);
      if t.UseAll? && t.more {
        AggregateIsExact(t.out, q, i + 1, target);
      }
    }
  }

  /** The whole aggregation, and when there is none: the head has to be cut and there is no
      packet to cut it into. */
  lemma TakeIsExact(q: seq<Packet>, target: int, spare: Option<nat>)
    requires AllQueued(q) && q != [] && target > 0
    ensures Take(q, target, spare).None? <==> spare.None? && !Undivided(q, 0, target)
    ensures Take(q, target, spare).Some? ==> Exact(q, Take(q, target, spare).value, target)
  {
    var p := q[0];
    if p.nsamples > target {
      ChunkKeepsFraming(p.pt, p.payload, target);
      ChunkIsShortest(p.pt, p.payload, target);
    }
    var t := Start(p, target, spare);
    if t.UseAll? && t.more {
      AggregateIsExact(t.out, q, 1, target);
    }
  }

  /** The output reaches the target, or it ends for a reason: the queue is used up, the last
      packet used cannot be appended to, the next one is of another type or leaves a gap, or
      what is needed of it is too long for the buffer. */
  lemma LargeEnough(q: seq<Packet>, t: Taken, target: int)
    requires Exact(q, t, target)
    ensures t.out.nsamples >= target || (t.rest.None? && (t.used == |q| || EndsAt(q, t.used, target)))
    ensures t.rest.Some? ==> Before(q, t.used) + q[t.used].nsamples > target
  {
  }

  ghost predicate EndsAt(q: seq<Packet>, j: nat, target: int)
    requires 0 < j < |q|
  {
    || !q[j - 1].appendable || q[j].pt != q[0].pt || q[j].ts != Add32(q[0].ts, Before(q, j))
    || Overflows(q, j, target)
  }

  /** A queue has only one exact output. */
  lemma ExactUnique(q: seq<Packet>, a: Taken, b: Taken, target: int)
    requires Exact(q, a, target) && Exact(q, b, target)
    ensures a.used == b.used && a.rest.Some? == b.rest.Some?
    ensures a.out.nsamples == b.out.nsamples && a.out.size == b.out.size
    ensures a.rest.Some? ==> a.rest.value.payload == b.rest.value.payload
  {
    hide UsedWhole, Overshoots, FillsUp, Joins, Overflows, CalcSamples;
    if a.used < |q| { NotFurther(q, a, target); }
    if b.used < |q| { NotFurther(q, b, target); }
    if a.rest.Some? && b.rest.Some? {
      CutsUnique(q, a.used, target, |q[a.used].payload| - |a.rest.value.payload|,
                 |q[a.used].payload| - |b.rest.value.payload|);
    }
  }

  lemma CutsUnique(q: seq<Packet>, j: nat, target: int, a: nat, b: nat)
    requires j < |q| && CutAt(q, j, target, a) && CutAt(q, j, target, b)
    ensures a == b
  {
    ShortestUnique(q[j].pt, q[j].payload, a, b, target - Before(q, j));
  }

  lemma NotFurther(q: seq<Packet>, t: Taken, target: int)
    requires Exact(q, t, target) && t.used < |q|
    ensures !UsedWhole(q, t.used, target)
  {
    if t.rest.Some? {
      var p := q[t.used];
      assert Reaches(p.pt, p.payload, |p.payload| - |t.rest.value.payload|, target - Before(q, t.used));
    }
  }

  // ----- one call

  /** The size that is aimed at: what was asked for, but no more than one frame of GSM. */
  function Wanted(asked: int, pt: nat): int {
    if pt == RTP_GSM && asked > 160 then 160 else asked
  }

  /** What was taken from a queue, read off the queues before and after. */
  function TakenOf(q: seq<Packet>, q': seq<Packet>, out: Packet): Taken
    requires |q'| <= |q|
  {
    var used := |q| - |q'|;
    Taken(out, used, if q' != [] && q'[0] != q[used] then Some(q'[0]) else None)
  }

  /** The packet is the exact output for this size, from the first queue and leaving the other. */
  ghost predicate AsAsked(q: seq<Packet>, q': seq<Packet>, out: Packet, asked: int) {
    q != [] && |q'| <= |q| && Exact(q, TakenOf(q, q', out), Wanted(asked, q[0].pt))
  }

  /** A call that gives output gives the exact one. */
  lemma GetIsExact(r: Resizer, refTs: u32, spare: Option<nat>)
    requires Inv(r) && r.outputNsamples > 0
    ensures
      var (out, r') := Get(r, refTs, spare);
      out.Some? ==> AsAsked(r.queue, r'.queue, out.value, r.outputNsamples)
  {
    hide Exact, Contiguous, Take, TakenOf, Remaining;
    if r.queue != [] && !MustWait(r, refTs) {
      var q, target := r.queue, Target(r.outputNsamples, r.queue[0].pt);
      TakeIsExact(q, target, spare);
      var t := Take(q, target, spare);
      if t.Some? {
        TakeContiguous(q, target, spare);
        TakenAgain(q, t.value, target, Get(r, refTs, spare).0.value.seqno);
      }
    }
  }

  lemma TakenAgain(q: seq<Packet>, t: Taken, target: int, seqno: u16)
    requires Exact(q, t, target) && Contiguous(q, t)
    ensures |Remaining(q, t)| <= |q| && Exact(q, TakenOf(q, Remaining(q, t), t.out.(seqno := seqno)), target)
  {
    hide UsedWhole, CutAt, Joins, Overflows;
    assert TakenOf(q, Remaining(q, t), t.out) == t;
  }

  /** When a call gives nothing: the queue is empty; or it holds fewer samples than asked for
      and the sender's clock `v` has not passed the time `u` of the head by that and 160
      samples more; or the head has to be cut and there is no packet to cut it into. */
  lemma GetWaits(r: Resizer, refTs: u32, spare: Option<nat>, u: int, v: int)
    requires Inv(r) && r.outputNsamples > 0 && v % M32 == refTs
    requires r.queue != [] ==> u % M32 == r.queue[0].ts && -HALF32 < v - (u + r.outputNsamples + 160) < HALF32
    ensures Get(r, refTs, spare).0.None? <==>
            || r.queue == []
            || (Samples(r.queue, 0) < r.outputNsamples && v < u + r.outputNsamples + 160)
            || (spare.None? && !Undivided(r.queue, 0, Wanted(r.outputNsamples, r.queue[0].pt)))
  {
    if r.queue != [] {
      TakeIsExact(r.queue, Target(r.outputNsamples, r.queue[0].pt), spare);
      AddMod32(u, r.outputNsamples + 160);
      TsLessUnwrapped(v, u + r.outputNsamples + 160);
    }
  }

  // ----- arrival

  /** On unwrapped times, with the last packet sent having ended at `lo`: a packet is too late
      exactly if one was sent and it starts before that end. */
  lemma LateIffBefore(r: Resizer, p: Packet, u: int, lo: int)
    requires u % M32 == p.ts && -HALF32 < u - lo < HALF32 && (r.lastSentInited ==> r.lastSentTs == lo % M32)
    ensures TooLate(r, p) <==> r.lastSentInited && u < lo
  {
    TsLessUnwrapped(u, lo);
  }

  /** A packet that is taken in sets the sender's clock, one that is too late changes nothing. */
  lemma EnqueueTracks(r: Resizer, p: Packet, internalTs: u32, u: int, v: int)
    requires ClockReads(r, p.ts, internalTs, u, v)
    ensures
      var r' := Enqueue(r, p, internalTs);
      if TooLate(r, p) then r' == r
      else
        && r'.tsdeltaInited
        && Add32(internalTs, r'.tsdelta) ==
           (if r.tsdeltaInited then Tracked(u, v, r.outputNsamples + 160) else u + 40) % M32
  {
    SyncClockTracks(r, p.ts, internalTs, u, v);
  }
}
