/** Conservation, framing, accounting and bounds of the re-packetizer. */
module ResizerProofs {
  import opened Options
  import opened Words
  import opened Codec
  import opened ResizerSpec

  /** The payload bytes of a queue from position `i` on. */
  function Flat(q: seq<Packet>, i: nat): seq<byte>
    decreases |q| - i
  {
    if i >= |q| then [] else q[i].payload + Flat(q, i + 1)
  }

  function Samples(q: seq<Packet>, i: nat): int
    decreases |q| - i
  {
    if i >= |q| then 0 else q[i].nsamples + Samples(q, i + 1)
  }

  /** The same bytes without their order. */
  function Bag(q: seq<Packet>, i: nat): multiset<byte>
    decreases |q| - i
  {
    if i >= |q| then multiset{} else multiset(q[i].payload) + Bag(q, i + 1)
  }

  lemma {:induction false} BagOfFlat(q: seq<Packet>, i: nat)
    ensures Bag(q, i) == multiset(Flat(q, i))
    decreases |q| - i
  {
    if i < |q| {
      BagOfFlat(q, i + 1);
    }
  }

  /** Queues that agree from two positions on hold the same from there on. */
  lemma {:induction false} SameTail(a: seq<Packet>, i: nat, b: seq<Packet>, j: nat)
    requires i <= |a| && j <= |b| && a[i..] == b[j..]
    ensures Flat(a, i) == Flat(b, j) && Bag(a, i) == Bag(b, j) && Samples(a, i) == Samples(b, j)
    decreases |a| - i
  {
    if i < |a| {
      assert a[i] == a[i..][0] == b[j..][0] == b[j];
      assert a[i + 1..] == a[i..][1..] == b[j..][1..] == b[j + 1..];
      SameTail(a, i + 1, b, j + 1);
    }
  }

  // ----- splitting one packet

  /** Both sides of a split stay framed and inside their buffers, and together they
      carry exactly the old payload and samples. */
  lemma SplitKeepsQueued(p: Packet, min: nat)
    requires Queued(p) && 0 < min < p.nsamples && ChunkOf(p, min).Part?
    ensures
      var c := ChunkOf(p, min);
      && c.bytes <= |p.payload| && 0 < c.bytes && min <= c.nsamples < min + FrameSamples(p.pt)
      && CalcSamples(p.pt, p.payload[..c.bytes]) == c.nsamples
      && (p.pt == RTP_G729 ==> c.bytes % 10 == 0)
      && Queued(Truncate(p, c.bytes, c.nsamples))
      && p.payload[..c.bytes] + Truncate(p, c.bytes, c.nsamples).payload == p.payload
  {
    ChunkKeepsFraming(p.pt, p.payload, min);
    var c := ChunkOf(p, min);
    if p.pt == RTP_G729 {
      assert |p.payload| == |p.payload[c.bytes..]| + c.bytes;
      Mod10(|p.payload|, c.bytes);
    }
  }

  lemma Mod10(n: nat, k: nat)
    requires k <= n && k % 10 == 0
    ensures (n - k) % 10 == n % 10
  {
    assert n - k == 10 * (n / 10 - k / 10) + n % 10;
  }

  // ----- one turn

  /** What the aggregation keeps of the output packet it grows. */
  ghost predicate Output(p: Packet, pt: nat, target: int) {
    && p.payload != []
    && 0 <= p.nsamples < target + FrameSamples(pt)
    && p.offset + |p.payload| <= p.size <= BUF_SIZE
  }

  /** A turn moves bytes and samples from the packet to the output, loses none, and
      leaves a framed packet behind. */
  ghost predicate GoodTurn(t: Turn, bytes: seq<byte>, nsamples: int, p: Packet, target: int) {
    match t
    case Stop => true
    case UseAll(out, more) =>
      && out.payload == bytes + p.payload && out.nsamples == nsamples + p.nsamples
      && Output(out, p.pt, target) && (more ==> out.nsamples <= target)
    case UseHead(out, rest) =>
      && out.payload + rest.payload == bytes + p.payload
      && out.nsamples + rest.nsamples == nsamples + p.nsamples
      && Output(out, p.pt, target) && Queued(rest)
  }

  lemma StartIsGood(p: Packet, target: int, spare: Option<nat>)
    requires Queued(p) && target > 0
    ensures GoodTurn(Start(p, target, spare), [], 0, p, target)
    ensures
      var t := Start(p, target, spare);
      !t.Stop? ==> t.out.nsamples == CalcSamples(p.pt, t.out.payload)
  {
    if p.nsamples > target {
      ChunkKeepsFraming(p.pt, p.payload, target);
      if ChunkOf(p, target).Part? {
        SplitKeepsQueued(p, target);
      }
    }
  }

  lemma ExtendIsGood(ret: Packet, p: Packet, target: int)
    requires Queued(p) && 0 <= ret.nsamples < target && Output(ret, ret.pt, target)
    ensures GoodTurn(Extend(ret, p, target), ret.payload, ret.nsamples, p, target)
  {
    var left := target - ret.nsamples;
    if left < p.nsamples {
      ChunkKeepsFraming(p.pt, p.payload, left);
      if ChunkOf(p, left).Part? {
        SplitKeepsQueued(p, left);
      }
    }
  }

  // ----- the aggregation loop

  /** Bytes and samples still queued after an aggregation. */
  function LeftBytes(q: seq<Packet>, t: Taken): seq<byte> {
    if t.rest.Some? then t.rest.value.payload + Flat(q, t.used + 1) else Flat(q, t.used)
  }

  function LeftSamples(q: seq<Packet>, t: Taken): int {
    if t.rest.Some? then t.rest.value.nsamples + Samples(q, t.used + 1) else Samples(q, t.used)
  }

  lemma Assoc(a: seq<byte>, b: seq<byte>, c: seq<byte>)
    ensures a + (b + c) == (a + b) + c
  {
  }

  /** What an aggregation that started with these bytes and samples and `q[i..]` did. */
  ghost predicate GoodTaken(t: Taken, bytes: seq<byte>, nsamples: int, q: seq<Packet>, i: nat, pt: nat, target: int) {
    && t.out.payload + LeftBytes(q, t) == bytes + Flat(q, i)
    && t.out.nsamples + LeftSamples(q, t) == nsamples + Samples(q, i)
    && Output(t.out, pt, target)
    && (t.rest.Some? ==> Queued(t.rest.value))
  }

  lemma {:induction false} AggregateIsGood(ret: Packet, q: seq<Packet>, i: nat, target: int)
    requires AllQueued(q) && i <= |q| && Output(ret, ret.pt, target)
    ensures GoodTaken(Aggregate(ret, q, i, target), ret.payload, ret.nsamples, q, i, ret.pt, target)
    decreases |q| - i
  {
    if ret.nsamples < target && i < |q| {
      var t := Extend(ret, q[i], target);
      ExtendIsGood(ret, q[i], target);
      Assoc(ret.payload, q[i].payload, Flat(q, i + 1));
      if t.UseAll? && t.more {
        AggregateIsGood(t.out, q, i + 1, target);
      } else if t.UseHead? {
        Assoc(t.out.payload, t.rest.payload, Flat(q, i + 1));
      }
    }
  }

  lemma TakeIsGood(q: seq<Packet>, target: int, spare: Option<nat>)
    requires AllQueued(q) && q != [] && target > 0
    ensures
      var r := Take(q, target, spare);
      r.Some? ==> GoodTaken(r.value, [], 0, q, 0, q[0].pt, target)
  {
    var t := Start(q[0], target, spare);
    StartIsGood(q[0], target, spare);
    assert [] + q[0].payload == q[0].payload;
    assert [] + Flat(q, 0) == Flat(q, 0);
    if t.UseAll? && t.more {
      AggregateIsGood(t.out, q, 1, target);
    } else if t.UseHead? {
      Assoc(t.out.payload, t.rest.payload, Flat(q, 1));
    }
  }

  lemma RemainingHolds(q: seq<Packet>, t: Taken)
    requires AllQueued(q) && t.used <= |q| && (t.rest.Some? ==> t.used < |q| && Queued(t.rest.value))
    ensures AllQueued(Remaining(q, t))
    ensures Flat(Remaining(q, t), 0) == LeftBytes(q, t)
    ensures Samples(Remaining(q, t), 0) == LeftSamples(q, t)
  {
    if t.rest.Some? {
      SameTail(Remaining(q, t), 1, q, t.used + 1);
    } else {
      SameTail(Remaining(q, t), 0, q, t.used);
    }
  }

  // ----- one call

  /** The invariant of the re-packetizer: every queued packet is framed and in bounds,
      and the running sample count is the sum over the queue. */
  ghost predicate Inv(r: Resizer) {
    AllQueued(r.queue) && r.nsamplesTotal == Samples(r.queue, 0)
  }

  function OutputBytes(p: Option<Packet>): seq<byte> {
    if p.None? then [] else p.value.payload
  }

  /** One get call: emitted bytes followed by the remaining queue are the old queue, byte
      for byte; without output nothing changes; with output the queue gets shorter, and
      the output lies in its buffer and is less than one codec frame over the target. */
  lemma GetConserves(r: Resizer, refTs: u32, spare: Option<nat>)
    requires Inv(r) && r.outputNsamples > 0
    ensures
      var (out, r') := Get(r, refTs, spare);
      && Inv(r')
      && OutputBytes(out) + Flat(r'.queue, 0) == Flat(r.queue, 0)
      && (out.None? ==> r' == r)
      && (out.Some? ==> r.queue != [] && |Flat(r'.queue, 0)| < |Flat(r.queue, 0)|
                        && Output(out.value, r.queue[0].pt, Target(r.outputNsamples, r.queue[0].pt)))
  {
    if r.queue != [] && !MustWait(r, refTs) {
      var target := Target(r.outputNsamples, r.queue[0].pt);
      TakeIsGood(r.queue, target, spare);
      var t := Take(r.queue, target, spare);
      if t.Some? {
        RemainingHolds(r.queue, t.value);
      }
    }
  }

  /** `q'` is `q` with `p` inserted at position `k`. */
  ghost predicate Inserted(q: seq<Packet>, k: nat, p: Packet, q': seq<Packet>) {
    k <= |q| && |q'| == |q| + 1 && q'[..k] == q[..k] && q'[k] == p && q'[k + 1..] == q[k..]
  }

  /** Inserting a packet at position `k` adds its bytes and samples to what follows `i`. */
  lemma {:induction false} InsertHolds(q: seq<Packet>, k: nat, p: Packet, q': seq<Packet>, i: nat)
    requires Inserted(q, k, p, q') && i <= k
    ensures Bag(q', i) == Bag(q, i) + multiset(p.payload)
    ensures Samples(q', i) == Samples(q, i) + p.nsamples
    decreases k - i
  {
    HeadOf(q', i);
    if i == k {
      SameTail(q', k + 1, q, k);
      hide Bag, Samples;
      BagComm(multiset(p.payload), Bag(q, k));
    } else {
      InsertHolds(q, k, p, q', i + 1);
      HeadOf(q, i);
      hide Bag, Samples;
      assert q'[i] == q'[..k][i] == q[i];
      BagAssoc(multiset(q[i].payload), Bag(q, i + 1), multiset(p.payload));
    }
  }

  lemma HeadOf(q: seq<Packet>, i: nat)
    requires i < |q|
    ensures Bag(q, i) == multiset(q[i].payload) + Bag(q, i + 1)
    ensures Samples(q, i) == q[i].nsamples + Samples(q, i + 1)
  {
  }

  lemma BagComm(a: multiset<byte>, b: multiset<byte>)
    ensures a + b == b + a
  {
  }

  lemma BagAssoc(a: multiset<byte>, b: multiset<byte>, c: multiset<byte>)
    ensures a + (b + c) == (a + b) + c
  {
  }

  /** One enqueue keeps the invariant, drops only late packets, and otherwise adds the
      packet's bytes and nothing else. */
  lemma EnqueueConserves(r: Resizer, p: Packet, internalTs: u32)
    requires Inv(r) && Queued(p)
    ensures
      var r' := Enqueue(r, p, internalTs);
      && Inv(r')
      && Bag(r'.queue, 0) == Bag(r.queue, 0) + (if TooLate(r, p) then multiset{} else multiset(p.payload))
      && |r'.queue| == |r.queue| + (if TooLate(r, p) then 0 else 1)
  {
    if !TooLate(r, p) {
      InsertHolds(r.queue, InsertPos(r.queue, p.ts), p, Insert(r.queue, p), 0);
    }
  }
}
