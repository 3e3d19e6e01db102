/** Time order of the re-packetizer: what it emits is contiguous, and on unwrapped
    media times the queue stays sorted and the output never goes back. */
module ResizerOrder {
  import opened Options
  import opened Words
  import opened Codec
  import opened ResizerSpec

  // ----- contiguity

  /** Samples in the first `n` packets of a queue. */
  function Before(q: seq<Packet>, n: nat): int
    requires n <= |q|
  {
    if n == 0 then 0 else Before(q, n - 1) + q[n - 1].nsamples
  }

  /** Packet `j` has the type of the head and starts where the packets before it end. */
  predicate Follows(q: seq<Packet>, j: nat)
    requires j < |q|
  {
    q[j].pt == q[0].pt && q[j].ts == Add32(q[0].ts, Before(q, j))
  }

  /** The output was built from one contiguous stretch of one payload type: all of
      `q[..used]` and, if `rest` is there, a proper head of the next packet. */
  ghost predicate Contiguous(q: seq<Packet>, t: Taken) {
    && t.used <= |q| && (t.rest.Some? ==> t.used < |q|)
    && (forall j :: 0 <= j < t.used ==> Follows(q, j))
    && match t.rest
       case None => t.used > 0 && t.out.nsamples == Before(q, t.used)
       case Some(rest) =>
         var p := q[t.used];
         var cut := p.nsamples - rest.nsamples;
         && Follows(q, t.used) && 0 < cut < p.nsamples
         && t.out.nsamples == Before(q, t.used) + cut
         && rest == p.(nsamples := rest.nsamples, ts := Add32(p.ts, cut), payload := rest.payload, size := rest.size)
  }

  /** A turn that uses a head leaves the packet shifted by the samples taken. */
  lemma ExtendShape(ret: Packet, p: Packet, target: int)
    requires Queued(p) && 0 <= ret.nsamples < target
    ensures
      var t := Extend(ret, p, target);
      && (!t.Stop? ==> p.pt == ret.pt && p.ts == Add32(ret.ts, ret.nsamples))
      && (t.UseAll? ==> t.out.pt == ret.pt && t.out.ts == ret.ts && t.out.nsamples == ret.nsamples + p.nsamples)
      && (t.UseHead? ==>
            var cut := p.nsamples - t.rest.nsamples;
            && 0 < cut < p.nsamples && t.out.ts == ret.ts && t.out.nsamples == ret.nsamples + cut
            && t.rest == p.(nsamples := t.rest.nsamples, ts := Add32(p.ts, cut),
                            payload := t.rest.payload, size := t.rest.size))
  {
    if target - ret.nsamples < p.nsamples {
      ChunkKeepsFraming(p.pt, p.payload, target - ret.nsamples);
    }
  }

  lemma {:induction false} AggregateContiguous(ret: Packet, q: seq<Packet>, i: nat, target: int)
    requires AllQueued(q) && 0 < i <= |q| && target > 0
    requires ret.nsamples == Before(q, i) && ret.nsamples >= 0 && ret.pt == q[0].pt && ret.ts == q[0].ts
    requires forall j :: 0 <= j < i ==> Follows(q, j)
    ensures Contiguous(q, Aggregate(ret, q, i, target)) && Aggregate(ret, q, i, target).out.ts == q[0].ts
    decreases |q| - i
  {
    if ret.nsamples < target && i < |q| {
      ExtendShape(ret, q[i], target);
      var t := Extend(ret, q[i], target);
      if !t.Stop? {
        assert Follows(q, i);
        if t.UseAll? && t.more {
          assert t.out.nsamples == Before(q, i + 1);
          AggregateContiguous(t.out, q, i + 1, target);
        }
      }
    }
  }

  lemma TakeContiguous(q: seq<Packet>, target: int, spare: Option<nat>)
    requires AllQueued(q) && q != [] && target > 0
    ensures
      var t := Take(q, target, spare);
      t.Some? ==> Contiguous(q, t.value) && t.value.out.ts == q[0].ts
  {
    var p := q[0];
    if p.nsamples > target {
      ChunkKeepsFraming(p.pt, p.payload, target);
    }
    assert Follows(q, 0);
    var t := Start(p, target, spare);
    if t.UseAll? && t.more {
      AggregateContiguous(t.out, q, 1, target);
    }
  }

  // ----- unwrapped times

  /** `us` gives the queue's packets unwrapped start times: congruent to the wire
      timestamps, non-overlapping, ascending, at or after `lo`, and ending within half
      the timestamp range of it. */
  ghost predicate Ordered(q: seq<Packet>, us: seq<int>, lo: int) {
    && |us| == |q|
    && (forall i :: 0 <= i < |q| ==> InStep(q[i], us[i], lo))
    && (forall i, j :: 0 <= i < j < |q| ==> us[i] + q[i].nsamples <= us[j])
  }

  ghost predicate InStep(p: Packet, u: int, lo: int) {
    u % M32 == p.ts && p.nsamples >= 0 && lo <= u && u + p.nsamples - lo < HALF32
  }

  /** Contiguous packets of an ordered queue are adjacent in unwrapped time too. */
  lemma {:induction false} AdjacentTimes(q: seq<Packet>, us: seq<int>, lo: int, n: nat)
    requires Ordered(q, us, lo) && n < |q|
    requires forall j :: 0 <= j <= n ==> Follows(q, j)
    ensures us[n] == us[0] + Before(q, n)
  {
    if n > 0 {
      AdjacentTimes(q, us, lo, n - 1);
      AddMod32(us[0], Before(q, n));
      assert Follows(q, n);
      EqualUnwrapped(us[n], us[0] + Before(q, n));
    }
  }

  /** The unwrapped times of the queue after an aggregation. */
  function TimesAfter(q: seq<Packet>, us: seq<int>, t: Taken): seq<int>
    requires |us| == |q| && t.used <= |q| && (t.rest.Some? ==> t.used < |q|)
  {
    if t.rest.Some? then us[t.used..][0 := us[t.used] + q[t.used].nsamples - t.rest.value.nsamples]
    else us[t.used..]
  }

  /** Where the output ends: at the cut, or at the end of the last packet used. */
  lemma OutputEnd(q: seq<Packet>, us: seq<int>, lo: int, t: Taken)
    requires q != [] && Ordered(q, us, lo) && Contiguous(q, t)
    ensures us[0] + t.out.nsamples ==
            match t.rest
            case None => us[t.used - 1] + q[t.used - 1].nsamples
            case Some(rest) => us[t.used] + q[t.used].nsamples - rest.nsamples
    ensures t.out.nsamples >= 0 && (q[0].nsamples > 0 ==> t.out.nsamples > 0)
  {
    if t.rest.Some? {
      AdjacentTimes(q, us, lo, t.used);
      BeforeNonNegative(q, us, lo, t.used);
    } else {
      BeforeNonNegative(q, us, lo, t.used);
      AdjacentTimes(q, us, lo, t.used - 1);
      BeforeNonNegative(q, us, lo, t.used - 1);
      assert InStep(q[t.used - 1], us[t.used - 1], lo);
    }
  }

  /** After an aggregation the queue is still ordered, and everything in it starts at or
      after the end of the output. */
  lemma TakeKeepsOrder(q: seq<Packet>, us: seq<int>, lo: int, t: Taken)
    requires q != [] && Ordered(q, us, lo) && Contiguous(q, t)
    requires t.rest.Some? ==> t.rest.value.nsamples > 0
    ensures Ordered(Remaining(q, t), TimesAfter(q, us, t), us[0] + t.out.nsamples)
    ensures us[0] + t.out.nsamples >= us[0] >= lo
  {
    OutputEnd(q, us, lo, t);
    assert InStep(q[0], us[0], lo);
    var end := us[0] + t.out.nsamples;
    var q', us' := Remaining(q, t), TimesAfter(q, us, t);
    if t.rest.Some? {
      AddMod32(us[t.used], q[t.used].nsamples - t.rest.value.nsamples);
      assert InStep(q[t.used], us[t.used], lo);
    }
    forall i | 0 <= i < |q'|
      ensures InStep(q'[i], us'[i], end)
      ensures us'[i] + q'[i].nsamples == us[t.used + i] + q[t.used + i].nsamples
    {
      assert InStep(q[t.used + i], us[t.used + i], lo);
      assert i > 0 ==> q'[i] == q[t.used + i] && us'[i] == us[t.used + i];
    }
  }

  lemma {:induction false} BeforeNonNegative(q: seq<Packet>, us: seq<int>, lo: int, n: nat)
    requires Ordered(q, us, lo) && n <= |q|
    ensures Before(q, n) >= 0
  {
    if n > 0 {
      BeforeNonNegative(q, us, lo, n - 1);
      assert InStep(q[n - 1], us[n - 1], lo);
    }
  }

  /** The backward scan finds the position by unwrapped time. */
  lemma {:induction false} InsertPosSorted(q: seq<Packet>, us: seq<int>, lo: int, p: Packet, u: int)
    requires Ordered(q, us, lo) && InStep(p, u, lo)
    ensures
      var k := InsertPos(q, p.ts);
      && (forall i :: 0 <= i < k ==> us[i] <= u)
      && (forall i :: k <= i < |q| ==> u < us[i])
    decreases |q|
  {
    if q != [] {
      var n := |q| - 1;
      assert InStep(q[n], us[n], lo);
      TsLessUnwrapped(u, us[n]);
      if u < us[n] {
        InsertPosSorted(q[..n], us[..n], lo, p, u);
      } else {
        forall i | 0 <= i < n ensures us[i] <= u {
          assert InStep(q[i], us[i], lo);
        }
      }
    }
  }

  /** The packet shares no moment with a queued one. */
  ghost predicate NoOverlap(q: seq<Packet>, us: seq<int>, p: Packet, u: int)
    requires |us| == |q|
  {
    forall i :: 0 <= i < |q| ==> us[i] + q[i].nsamples <= u || u + p.nsamples <= us[i]
  }

  /** What starts no later than the packet is over by then, and what starts later starts
      after its end. */
  ghost predicate Fits(q: seq<Packet>, us: seq<int>, p: Packet, u: int)
    requires |us| == |q|
  {
    forall i :: 0 <= i < |q| ==> if us[i] <= u then us[i] + q[i].nsamples <= u else u + p.nsamples <= us[i]
  }

  /** A packet that overlaps none fits, unless it is empty and starts together with one that is
      not: it would go behind that one. */
  lemma FitsIfSounding(q: seq<Packet>, us: seq<int>, lo: int, p: Packet, u: int)
    requires Ordered(q, us, lo) && InStep(p, u, lo) && NoOverlap(q, us, p, u)
    ensures Fits(q, us, p, u) <==>
            p.nsamples > 0 || forall i :: 0 <= i < |q| && us[i] == u ==> q[i].nsamples == 0
  {
    forall i | 0 <= i < |q| ensures q[i].nsamples >= 0 { assert InStep(q[i], us[i], lo); }
  }

  /** Inserting a packet keeps the queue ordered exactly if it fits. */
  lemma InsertKeepsOrder(q: seq<Packet>, us: seq<int>, lo: int, p: Packet, u: int)
    requires Ordered(q, us, lo) && InStep(p, u, lo)
    ensures
      var k := InsertPos(q, p.ts);
      Ordered(Insert(q, p), us[..k] + [u] + us[k..], lo) <==> Fits(q, us, p, u)
  {
    InsertPosSorted(q, us, lo, p, u);
    var k := InsertPos(q, p.ts);
    var q', us' := Insert(q, p), us[..k] + [u] + us[k..];
    forall i | 0 <= i < |q'| ensures InStep(q'[i], us'[i], lo) {
      assert i < k ==> q'[i] == q[i] && us'[i] == us[i];
      assert k < i ==> q'[i] == q[i - 1] && us'[i] == us[i - 1];
    }
    hide InsertPos, InStep;
    if Fits(q, us, p, u) {
      InsertedInOrder(q, us, k, p, u);
    } else if Ordered(q', us', lo) {
      OrderedMeansFits(q, us, k, p, u);
    }
  }

  lemma InsertedInOrder(q: seq<Packet>, us: seq<int>, k: nat, p: Packet, u: int)
    requires |us| == |q| && k <= |q| && Fits(q, us, p, u)
    requires forall i, j :: 0 <= i < j < |q| ==> us[i] + q[i].nsamples <= us[j]
    requires (forall i :: 0 <= i < k ==> us[i] <= u) && (forall i :: k <= i < |q| ==> u < us[i])
    ensures var q', us' := q[..k] + [p] + q[k..], us[..k] + [u] + us[k..];
      forall i, j :: 0 <= i < j < |q'| ==> us'[i] + q'[i].nsamples <= us'[j]
  {
    var q', us' := q[..k] + [p] + q[k..], us[..k] + [u] + us[k..];
    forall i, j | 0 <= i < j < |q'| ensures us'[i] + q'[i].nsamples <= us'[j] {
      if j < k {
        assert us[i] + q[i].nsamples <= us[j];
      } else if i < k == j {
        assert us[i] + q[i].nsamples <= u;
      } else if i < k < j {
        assert us[i] + q[i].nsamples <= us[j - 1];
      } else if i == k {
        assert u + p.nsamples <= us[j - 1];
      } else {
        assert us[i - 1] + q[i - 1].nsamples <= us[j - 1];
      }
    }
  }

  lemma OrderedMeansFits(q: seq<Packet>, us: seq<int>, k: nat, p: Packet, u: int)
    requires |us| == |q| && k <= |q|
    requires (forall i :: 0 <= i < k ==> us[i] <= u) && (forall i :: k <= i < |q| ==> u < us[i])
    requires var q', us' := q[..k] + [p] + q[k..], us[..k] + [u] + us[k..];
      forall i, j :: 0 <= i < j < |q'| ==> us'[i] + q'[i].nsamples <= us'[j]
    ensures Fits(q, us, p, u)
  {
    var q', us' := q[..k] + [p] + q[k..], us[..k] + [u] + us[k..];
    forall i | 0 <= i < |q|
      ensures if us[i] <= u then us[i] + q[i].nsamples <= u else u + p.nsamples <= us[i]
    {
      if i < k {
        assert us'[i] + q'[i].nsamples <= us'[k];
      } else {
        assert us'[k] + q'[k].nsamples <= us'[i + 1];
      }
    }
  }

  // ----- the sender's clock

  /** On unwrapped times, the packet is stamped `u` while the sender's clock is taken to show
      `v`, and neither that nor the latest time to wait is half the range away. */
  ghost predicate ClockReads(r: Resizer, ts: u32, internalTs: u32, u: int, v: int) {
    && u % M32 == ts
    && (r.tsdeltaInited ==>
          && Add32(internalTs, r.tsdelta) == v % M32 && -HALF32 < v - u < HALF32
          && -HALF32 < v - (u + r.outputNsamples + 160) < HALF32)
  }

  /** What the sender's clock is taken to show once the packet has come: 40 samples past a
      packet from the future, back by half of what it is late if that is too much, and
      otherwise what it showed. */
  function Tracked(u: int, v: int, wait: int): int {
    if v < u then u + 40 else if v > u + wait then v - (v - (u + wait)) / 2 else v
  }

  /** The clock offset that is stored makes the sender's clock show this. */
  lemma SyncClockTracks(r: Resizer, ts: u32, internalTs: u32, u: int, v: int)
    requires ClockReads(r, ts, internalTs, u, v)
    ensures Add32(internalTs, SyncClock(r, ts, internalTs)) ==
            (if r.tsdeltaInited then Tracked(u, v, r.outputNsamples + 160) else u + 40) % M32
  {
    AddMod32(u, 40 - internalTs);
    AddMod32(u + 40 - internalTs, internalTs);
    if r.tsdeltaInited {
      var late := u + r.outputNsamples + 160;
      TsLessUnwrapped(v, u);
      TsLessUnwrapped(late, v);
      AddMod32(u, r.outputNsamples + 160);
      if v > late { SetBack(r.tsdelta, internalTs, v, late); }
    }
  }

  lemma SetBack(delta: u32, internalTs: u32, v: int, late: int)
    requires Add32(internalTs, delta) == v % M32 && late < v < late + HALF32
    ensures var behind: int := Add32(v % M32, -(late % M32));
      behind == v - late && Add32(internalTs, Add32(delta, -(behind / 2))) == (v - (v - late) / 2) % M32
  {
    SubMod32(v, late);
    var d := (v - late) / 2;
    assert Add32(v % M32, -(late % M32)) == v - late;
    Add32Assoc(internalTs, delta, -d);
    AddMod32(v, -d);
  }

  lemma Add32Assoc(a: u32, b: u32, d: int)
    ensures Add32(a, Add32(b, d)) == Add32(Add32(a, b), d)
  {
    AddMod32(b + d, a);
    AddMod32(a + b, d);
  }

  /** The clock never lags behind a packet that has come, only a packet from the future sets
      it forward, and being late is at least halved. */
  lemma TrackedBounds(u: int, v: int, wait: int)
    requires wait >= 40
    ensures var w := Tracked(u, v, wait);
      && u <= w && (w > v ==> v < u && w == u + 40)
      && (u <= v <= u + wait ==> w == v)
      && (v > u + wait ==> u + wait <= w && 2 * (w - (u + wait)) <= v - (u + wait) + 1)
  {
  }
}
