/** When counting the samples of an aggregated payload afresh gives the number its packet
    carries: exactly if the payloads join at codec frame boundaries. */
module ResizerRecount {
  import opened Options
  import opened Words
  import opened Codec
  import opened ResizerSpec
  import opened ResizerProofs

  // ----- joining two payloads

  /** Where the walk over G.723 frames ends: at the end of the data, or beyond it if the last
      frame is cut short. */
  function G723End(data: seq<byte>, pos: nat): (end: nat)
    ensures pos <= end && (G723From(data, pos) >= 0 ==> |data| <= end)
    decreases |data| - pos
  {
    if pos >= |data| || G723Len(data[pos]) == NSAMPLES_UNKNOWN then pos
    else G723End(data, pos + G723Len(data[pos]))
  }

  /** Sum of two counts, unknown if one of them is. */
  function Sum(a: int, b: int): int {
    if a == NSAMPLES_UNKNOWN || b == NSAMPLES_UNKNOWN then NSAMPLES_UNKNOWN else a + b
  }

  /** A walk over joined payloads goes on behind the last frame of the first. */
  lemma {:induction false} G723Join(a: seq<byte>, b: seq<byte>, pos: nat)
    requires G723From(a, pos) >= 0
    ensures G723From(a + b, pos) == Sum(G723From(a, pos), G723From(b, G723End(a, pos) - |a|))
    decreases |a| - pos
  {
    if pos < |a| {
      G723Join(a, b, pos + G723Len(a[pos]));
    } else {
      assert (a + b)[|a|..] == b;
      G723Suffix(a + b, |a|, pos);
    }
  }

  /** The two payloads meet at a frame boundary, or might as well. */
  predicate Joins(pt: int, a: seq<byte>, b: seq<byte>)
    requires CalcSamples(pt, a) >= 0
  {
    if pt == RTP_G729 then |a| % 10 == 0 || |b| % 10 == 0 || |a| % 10 + |b| % 10 > 10
    else if pt == RTP_GSM then |a| % 33 + |b| % 33 < 33
    else if pt == RTP_G723 then G723From(b, G723End(a, 0) - |a|) == G723From(b, 0)
    else true
  }

  /** The joined payload recounts to the sum exactly in this case. */
  lemma JoinRecounts(pt: int, a: seq<byte>, b: seq<byte>)
    requires CalcSamples(pt, a) >= 0 && CalcSamples(pt, b) >= 0
    ensures CalcSamples(pt, a + b) == CalcSamples(pt, a) + CalcSamples(pt, b) <==> Joins(pt, a, b)
  {
    if pt == RTP_G723 {
      G723Join(a, b, 0);
    } else if pt == RTP_GSM {
      JoinGsm(|a|, |b|);
    } else if pt == RTP_G729 {
      JoinG729(|a|, |b|);
    }
  }

  lemma JoinGsm(m: nat, n: nat)
    ensures (m + n) / 33 == m / 33 + n / 33 <==> m % 33 + n % 33 < 33
  {
    var r := m % 33 + n % 33;
    assert m + n == 33 * (m / 33 + n / 33) + r;
    if r >= 33 { assert m + n == 33 * (m / 33 + n / 33 + 1) + (r - 33); }
  }

  function Frames10(n: nat): nat {
    n / 10 + if n % 10 == 0 then 0 else 1
  }

  lemma JoinG729(m: nat, n: nat)
    ensures Frames10(m + n) == Frames10(m) + Frames10(n) <==> m % 10 == 0 || n % 10 == 0 || m % 10 + n % 10 > 10
  {
    var r := m % 10 + n % 10;
    assert m + n == 10 * (m / 10 + n / 10) + r;
    if r >= 10 { assert m + n == 10 * (m / 10 + n / 10 + 1) + (r - 10); }
  }

  // ----- one turn

  /** What a turn adds to the output. */
  function Added(ret: Packet, t: Turn): seq<byte>
    requires !t.Stop?
  {
    if |ret.payload| <= |t.out.payload| then t.out.payload[|ret.payload|..] else []
  }

  /** A turn adds to a packet that recounts; the longer packet recounts exactly if the
      payloads join. */
  lemma TurnRecounts(ret: Packet, p: Packet, target: int)
    requires Queued(p) && 0 <= ret.nsamples < target && ret.nsamples == CalcSamples(ret.pt, ret.payload)
    ensures var t := Extend(ret, p, target);
      !t.Stop? ==>
        && t.out.payload == ret.payload + Added(ret, t) && (t.UseAll? ==> Added(ret, t) == p.payload)
        && (t.out.nsamples == CalcSamples(ret.pt, t.out.payload) <==> Joins(ret.pt, ret.payload, Added(ret, t)))
  {
    var left := target - ret.nsamples;
    var t := Extend(ret, p, target);
    if t.UseAll? {
      assert Added(ret, t) == p.payload;
      JoinRecounts(ret.pt, ret.payload, p.payload);
    } else if t.UseHead? {
      ChunkKeepsFraming(p.pt, p.payload, left);
      SplitKeepsQueued(p, left);
      var head := p.payload[..ChunkOf(p, left).bytes];
      assert Added(ret, t) == head;
      JoinRecounts(ret.pt, ret.payload, head);
    }
  }

  // ----- the whole loop

  /** The payload ends at a frame boundary. */
  predicate Whole(pt: int, a: seq<byte>) {
    if pt == RTP_G729 then |a| % 10 == 0
    else if pt == RTP_GSM then |a| % 33 == 0
    else if pt == RTP_G723 then G723End(a, 0) == |a|
    else true
  }

  lemma WholeJoins(pt: int, a: seq<byte>, b: seq<byte>)
    requires CalcSamples(pt, a) >= 0 && Whole(pt, a)
    ensures Joins(pt, a, b) && (CalcSamples(pt, b) >= 0 && Whole(pt, b) ==> Whole(pt, a + b))
  {
    if pt == RTP_G723 {
      EndJoin(a, b, 0);
    } else if pt == RTP_GSM && |b| % 33 == 0 {
      Multiples33(|a|, |b|);
    } else if pt == RTP_G729 && |b| % 10 == 0 {
      Multiples10(|a|, |b|);
    }
  }

  lemma Multiples10(m: nat, n: nat)
    requires m % 10 == 0 && n % 10 == 0
    ensures (m + n) % 10 == 0
  {
    var a, b := m / 10, n / 10;
    assert m == 10 * a && n == 10 * b;
    assert m + n == 10 * (a + b);
  }

  lemma Multiples33(m: nat, n: nat)
    requires m % 33 == 0 && n % 33 == 0
    ensures (m + n) % 33 == 0
  {
    var a, b := m / 33, n / 33;
    assert m == 33 * a && n == 33 * b;
    assert m + n == 33 * (a + b);
  }

  lemma {:induction false} EndJoin(a: seq<byte>, b: seq<byte>, pos: nat)
    requires G723From(a, pos) >= 0
    ensures G723End(a + b, pos) == |a| + G723End(b, G723End(a, pos) - |a|)
    decreases |a| - pos
  {
    if pos < |a| {
      EndJoin(a, b, pos + G723Len(a[pos]));
    } else {
      EndSuffix(a, b, pos);
    }
  }

  lemma {:induction false} EndSuffix(a: seq<byte>, b: seq<byte>, pos: nat)
    requires |a| <= pos
    ensures G723End(a + b, pos) == |a| + G723End(b, pos - |a|)
    decreases |a + b| - pos
  {
    if pos < |a + b| && G723Len((a + b)[pos]) != NSAMPLES_UNKNOWN {
      EndSuffix(a, b, pos + G723Len((a + b)[pos]));
    }
  }

  lemma TurnShape(ret: Packet, p: Packet, target: int)
    requires Queued(p) && 0 <= ret.nsamples < target
    ensures var t := Extend(ret, p, target);
      !t.Stop? ==> p.pt == ret.pt && (t.UseAll? ==> t.out.pt == ret.pt && t.out.nsamples >= 0)
  {
  }

  /** The number of packets that an aggregation takes something of. */
  function Touched(t: Taken): nat {
    t.used + if t.rest.Some? then 1 else 0
  }

  lemma {:induction false} NoneTouched(ret: Packet, q: seq<Packet>, i: nat, target: int)
    requires AllQueued(q) && i <= |q| && ret.nsamples >= 0
    ensures var t := Aggregate(ret, q, i, target); Touched(t) >= i && (Touched(t) == i ==> t.out == ret)
  {
  }

  /** If the packets that go into an output end at frame boundaries, the last one perhaps
      excepted, the output recounts. */
  lemma {:induction false} AggregateRecounts(ret: Packet, q: seq<Packet>, i: nat, target: int)
    requires AllQueued(q) && i <= |q| && ret.nsamples >= 0 && ret.nsamples == CalcSamples(ret.pt, ret.payload)
    requires Whole(ret.pt, ret.payload)
    requires forall j :: i <= j < Touched(Aggregate(ret, q, i, target)) - 1 ==> Whole(q[j].pt, q[j].payload)
    ensures var out := Aggregate(ret, q, i, target).out; out.nsamples == CalcSamples(ret.pt, out.payload)
    decreases |q| - i
  {
    if ret.nsamples < target && i < |q| {
      var t := Extend(ret, q[i], target);
      if !t.Stop? {
        TurnRecounts(ret, q[i], target);
        WholeJoins(ret.pt, ret.payload, Added(ret, t));
        TurnShape(ret, q[i], target);
        hide CalcSamples, Whole, Joins, Extend;
        if t.UseAll? && t.more && i + 1 < |q| {
          NoneTouched(t.out, q, i + 1, target);
          if Touched(Aggregate(t.out, q, i + 1, target)) > i + 1 { AggregateRecounts(t.out, q, i + 1, target); }
        }
      }
    }
  }

  // ----- the exact condition

  function Join(ps: seq<seq<byte>>): seq<byte> {
    if ps == [] then [] else ps[0] + Join(ps[1..])
  }

  function SumOf(pt: int, ps: seq<seq<byte>>): int {
    if ps == [] then 0 else CalcSamples(pt, ps[0]) + SumOf(pt, ps[1..])
  }

  ghost predicate Known(pt: int, ps: seq<seq<byte>>) {
    forall i :: 0 <= i < |ps| ==> CalcSamples(pt, ps[i]) >= 0
  }

  /** The bytes that the payloads are over whole GSM frames, together. */
  function Rests(ps: seq<seq<byte>>): nat {
    if ps == [] then 0 else |ps[0]| % 33 + Rests(ps[1..])
  }

  /** The samples of the G.723 frames met when the walk over each payload goes on into the next,
      the last frame of one taking its missing bytes from the other. `k` bytes of the first
      payload belong to a frame that began before it. */
  function Met(ps: seq<seq<byte>>, k: nat): int {
    if ps == [] then 0 else
    var n := G723From(ps[0], k);
    if n < 0 then NSAMPLES_UNKNOWN else Sum(n, Met(ps[1..], G723End(ps[0], k) - |ps[0]|))
  }

  /** All but the last end at a frame boundary of G.729. */
  ghost predicate Aligned(ps: seq<seq<byte>>) {
    forall i :: 0 <= i < |ps| - 1 ==> |ps[i]| % 10 == 0
  }

  /** No frame is met where a payload has none, and none is missed. */
  predicate Meets(pt: int, ps: seq<seq<byte>>) {
    if pt == RTP_GSM then Rests(ps) < 33
    else if pt == RTP_G723 then Met(ps, 0) == SumOf(pt, ps)
    else true
  }

  lemma {:induction false} G723Unknown(a: seq<byte>, b: seq<byte>, pos: nat)
    requires G723From(a, pos) < 0
    ensures G723From(a + b, pos) == NSAMPLES_UNKNOWN
    decreases |a| - pos
  {
    assert pos < |a| && (a + b)[pos] == a[pos];
    if G723Len(a[pos]) != NSAMPLES_UNKNOWN { G723Unknown(a, b, pos + G723Len(a[pos])); }
  }

  lemma {:induction false} MetIsCount(ps: seq<seq<byte>>, k: nat)
    ensures G723From(Join(ps), k) == Met(ps, k)
    decreases |ps|
  {
    if ps != [] {
      if G723From(ps[0], k) < 0 {
        G723Unknown(ps[0], Join(ps[1..]), k);
      } else {
        G723Join(ps[0], Join(ps[1..]), k);
        MetIsCount(ps[1..], G723End(ps[0], k) - |ps[0]|);
      }
    }
  }

  lemma {:induction false} GsmLengths(ps: seq<seq<byte>>) returns (frames: nat)
    ensures |Join(ps)| == 33 * frames + Rests(ps) && SumOf(RTP_GSM, ps) == 160 * frames
  {
    frames := 0;
    if ps != [] {
      var n := GsmLengths(ps[1..]);
      frames := |ps[0]| / 33 + n;
    }
  }

  lemma Frames33(frames: nat, rest: nat)
    ensures (33 * frames + rest) / 33 == frames <==> rest < 33
  {
    assert 33 * frames + rest == 33 * (frames + rest / 33) + rest % 33;
  }

  lemma {:induction false} AlignedRecounts(ps: seq<seq<byte>>)
    requires Aligned(ps)
    ensures CalcSamples(RTP_G729, Join(ps)) == SumOf(RTP_G729, ps)
  {
    if |ps| == 1 {
      assert Join(ps) == ps[0] + [] == ps[0];
    } else if |ps| > 1 {
      AlignedRecounts(ps[1..]);
      assert |ps[0]| % 10 == 0;
      JoinRecounts(RTP_G729, ps[0], Join(ps[1..]));
    }
  }

  lemma {:induction false} PlainRecounts(pt: int, ps: seq<seq<byte>>)
    requires pt == RTP_PCMU || pt == RTP_PCMA
    ensures CalcSamples(pt, Join(ps)) == SumOf(pt, ps)
  {
    if ps != [] { PlainRecounts(pt, ps[1..]); }
  }

  /** Joined payloads recount to the sum of their counts exactly if their frames meet. */
  lemma PartsRecount(pt: int, ps: seq<seq<byte>>)
    requires Known(pt, ps) && ps != [] && (pt == RTP_G729 ==> Aligned(ps))
    ensures CalcSamples(pt, Join(ps)) == SumOf(pt, ps) <==> Meets(pt, ps)
  {
    assert CalcSamples(pt, ps[0]) >= 0;
    if pt == RTP_G723 {
      MetIsCount(ps, 0);
    } else if pt == RTP_GSM {
      var frames := GsmLengths(ps);
      Frames33(frames, Rests(ps));
    } else if pt == RTP_G729 {
      AlignedRecounts(ps);
    } else {
      PlainRecounts(pt, ps);
    }
  }

  // ----- over the loop

  /** What was cut off a packet of which `rest` is left. */
  function Head(p: Packet, rest: Packet): seq<byte> {
    if |rest.payload| <= |p.payload| then p.payload[..|p.payload| - |rest.payload|] else []
  }

  /** The payloads that the loop adds to an output, in order. */
  function Parts(ret: Packet, q: seq<Packet>, i: nat, target: int): seq<seq<byte>>
    requires AllQueued(q) && i <= |q| && ret.nsamples >= 0
    decreases |q| - i
  {
    if ret.nsamples >= target || i == |q| then [] else
    match Extend(ret, q[i], target)
    case Stop => []
    case UseAll(out, more) => [q[i].payload] + if more then Parts(out, q, i + 1, target) else []
    case UseHead(out, rest) => [Head(q[i], rest)]
  }

  /** What one turn does, in these terms. */
  lemma TurnParts(ret: Packet, p: Packet, target: int)
    requires Queued(p) && 0 <= ret.nsamples < target
    ensures var t := Extend(ret, p, target);
      && (!t.Stop? ==> p.pt == ret.pt && t.out.pt == ret.pt)
      && (t.UseAll? ==> t.out.payload == ret.payload + p.payload)
      && (t.UseAll? ==> CalcSamples(ret.pt, p.payload) >= 0)
      && (t.UseAll? ==> t.out.nsamples == ret.nsamples + CalcSamples(ret.pt, p.payload))
      && (t.UseAll? && t.more && ret.pt == RTP_G729 ==> |p.payload| % 10 == 0)
      && (t.UseHead? ==> t.out.payload == ret.payload + Head(p, t.rest) && CalcSamples(ret.pt, Head(p, t.rest)) >= 0)
      && (t.UseHead? ==> t.out.nsamples == ret.nsamples + CalcSamples(ret.pt, Head(p, t.rest)))
  {
    var left := target - ret.nsamples;
    if left < p.nsamples {
      ChunkKeepsFraming(p.pt, p.payload, left);
      if ChunkOf(p, left).Part? { SplitKeepsQueued(p, left); }
    }
  }

  lemma {:induction false} AggregateParts(ret: Packet, q: seq<Packet>, i: nat, target: int)
    requires AllQueued(q) && i <= |q| && ret.nsamples >= 0
    ensures
      var out, ps := Aggregate(ret, q, i, target).out, Parts(ret, q, i, target);
      && out.payload == ret.payload + Join(ps) && out.nsamples == ret.nsamples + SumOf(ret.pt, ps)
      && Known(ret.pt, ps) && (ret.pt == RTP_G729 ==> Aligned(ps))
    decreases |q| - i
  {
    var ps := Parts(ret, q, i, target);
    if ret.nsamples >= target || i == |q| {
      assert ret.payload + [] == ret.payload;
    } else {
      var t := Extend(ret, q[i], target);
      TurnParts(ret, q[i], target);
      if t.UseAll? && t.more {
        AggregateParts(t.out, q, i + 1, target);
        PartsCons(ret.pt, ret.payload, q[i].payload, Parts(t.out, q, i + 1, target));
      } else if !t.Stop? {
        PartsCons(ret.pt, ret.payload, ps[0], []);
      }
      assert ret.payload + [] == ret.payload;
    }
  }

  lemma PartsCons(pt: int, a: seq<byte>, p: seq<byte>, ps: seq<seq<byte>>)
    requires Known(pt, ps) && CalcSamples(pt, p) >= 0
    ensures a + Join([p] + ps) == (a + p) + Join(ps) && Known(pt, [p] + ps)
    ensures SumOf(pt, [p] + ps) == CalcSamples(pt, p) + SumOf(pt, ps)
    ensures Aligned(ps) && (ps != [] ==> |p| % 10 == 0) ==> Aligned([p] + ps)
  {
    assert ([p] + ps)[1..] == ps;
    assert a + (p + Join(ps)) == (a + p) + Join(ps);
  }

  /** The payloads that go into an output, in order. */
  function OutputParts(q: seq<Packet>, target: int, spare: Option<nat>): seq<seq<byte>>
    requires AllQueued(q) && q != [] && target > 0
  {
    match Start(q[0], target, spare)
    case Stop => []
    case UseHead(out, _) => [out.payload]
    case UseAll(out, more) => [out.payload] + if more then Parts(out, q, 1, target) else []
  }

  /** The payload of an output is that of its parts, its sample count the sum of theirs, and it
      recounts exactly if their frames meet: always for PCM and G.729, for GSM if the parts are
      together less than a frame over whole frames, for G.723 if the walk across the parts
      meets as many frames as the parts have. */
  lemma OutputRecounts(q: seq<Packet>, target: int, spare: Option<nat>)
    requires AllQueued(q) && q != [] && target > 0 && Take(q, target, spare).Some?
    ensures
      var out, ps, pt := Take(q, target, spare).value.out, OutputParts(q, target, spare), q[0].pt;
      && out.payload == Join(ps) && out.nsamples == SumOf(pt, ps)
      && (out.nsamples == CalcSamples(pt, out.payload) <==> Meets(pt, ps))
  {
    var p, ps := q[0], OutputParts(q, target, spare);
    var t := Start(p, target, spare);
    if p.nsamples > target {
      ChunkKeepsFraming(p.pt, p.payload, target);
      if ChunkOf(p, target).Part? { SplitKeepsQueued(p, target); }
    }
    if t.UseAll? && t.more {
      AggregateParts(p, q, 1, target);
      PartsCons(p.pt, [], p.payload, Parts(p, q, 1, target));
    } else {
      PartsCons(p.pt, [], t.out.payload, []);
    }
    PartsRecount(p.pt, ps);
  }

  /** For one that does not: a G.723 packet whose only frame is cut short, followed by one with
      a whole frame that ends in a byte no frame can start with. The output of both carries
      480 samples and has no count. */
  lemma CutFrameMiscounts()
    ensures
      var a := Packet(13, 12, 240, 1000, 1, true, RTP_G723, [0]);
      var b := Packet(36, 12, 240, 1240, 2, true, RTP_G723, seq(23, _ => 0) + [3]);
      && AllQueued([a, b]) && Take([a, b], 480, None).Some?
      && var out := Take([a, b], 480, None).value.out;
      && out.payload == a.payload + b.payload && out.nsamples == 480
      && CalcSamples(RTP_G723, out.payload) == NSAMPLES_UNKNOWN && !Meets(RTP_G723, OutputParts([a, b], 480, None))
  {
    var a := Packet(13, 12, 240, 1000, 1, true, RTP_G723, [0]);
    var b := Packet(36, 12, 240, 1240, 2, true, RTP_G723, seq(23, _ => 0) + [3]);
    var q, joined := [a, b], a.payload + b.payload;
    assert G723From(a.payload, 24) == 0 && G723From(b.payload, 24) == 0;
    assert joined[0] == 0 && joined[24] == 3 && G723From(joined, 24) == NSAMPLES_UNKNOWN;
    assert CalcSamples(RTP_G723, joined) == NSAMPLES_UNKNOWN;
    assert Extend(a, b, 480) == UseAll(AppendPacket(a, b), true);
    assert Aggregate(a, q, 1, 480) == Taken(AppendPacket(a, b), 2, None);
    OutputRecounts(q, 480, None);
  }
}
