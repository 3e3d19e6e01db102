/** Whole runs of the re-packetizer: any mix of arriving datagrams, polls and changes of
    the output size. */
module ResizerRuns {
  import opened Options
  import opened Words
  import opened Codec
  import opened ResizerSpec
  import opened ResizerProofs
  import opened ResizerOrder
  import opened ResizerSize
  import opened RtpParse

  /** `when` is the unwrapped media time of an arriving packet, which the code never sees. */
  datatype Event =
    | Arrive(bytes: seq<byte>, internalTs: u32, when: int)
    | Poll(refTs: u32, spare: Option<nat>)
    | SetOutput(nsamples: int)

  ghost predicate EventOk(e: Event) {
    e.Arrive? ==> |e.bytes| <= BUF_SIZE
  }

  /** Whether the re-packetizer takes the arriving packet into its queue. */
  predicate Accepts(r: Resizer, e: Event)
    requires e.Arrive? && |e.bytes| <= BUF_SIZE
  {
    var p := ToPacket(e.bytes);
    r.outputNsamples > 0 && p.Some? && !TooLate(r, p.value)
  }

  /** One event; the second component is the packet emitted, if any. */
  function Step(r: Resizer, e: Event): (res: (Resizer, Option<Packet>))
    requires Inv(r) && EventOk(e)
    ensures Inv(res.0)
  {
    match e
    case SetOutput(n) => (r.(outputNsamples := n), None)
    case Arrive(bytes, internalTs, _) =>
      var p := ToPacket(bytes);
      if r.outputNsamples <= 0 || p.None? then (r, None) else
      EnqueueConserves(r, p.value, internalTs);
      (Enqueue(r, p.value, internalTs), None)
    case Poll(refTs, spare) =>
      if r.outputNsamples <= 0 then (r, None) else
      GetConserves(r, refTs, spare);
      var res := Get(r, refTs, spare);
      (res.1, res.0)
  }

  function ToSeq(p: Option<Packet>): seq<Packet> {
    if p.None? then [] else [p.value]
  }

  ghost predicate EventsOk(es: seq<Event>) {
    forall i :: 0 <= i < |es| ==> EventOk(es[i])
  }

  /** The state after a run. */
  function Final(r: Resizer, es: seq<Event>): (r': Resizer)
    requires Inv(r) && EventsOk(es)
    ensures Inv(r')
    decreases |es|
  {
    if es == [] then r else Final(Step(r, es[0]).0, es[1..])
  }

  /** The packets a run emits, in order. */
  function Emitted(r: Resizer, es: seq<Event>): seq<Packet>
    requires Inv(r) && EventsOk(es)
    decreases |es|
  {
    if es == [] then [] else ToSeq(Step(r, es[0]).1) + Emitted(Step(r, es[0]).0, es[1..])
  }

  /** The payload bytes an event adds to the queue. */
  function Accepted(r: Resizer, e: Event): multiset<byte>
    requires EventOk(e)
  {
    if e.Arrive? && Accepts(r, e) then multiset(ToPacket(e.bytes).value.payload) else multiset{}
  }

  /** The payload bytes a run took in. */
  function AcceptedBytes(r: Resizer, es: seq<Event>): multiset<byte>
    requires Inv(r) && EventsOk(es)
    decreases |es|
  {
    if es == [] then multiset{} else Accepted(r, es[0]) + AcceptedBytes(Step(r, es[0]).0, es[1..])
  }

  function EmittedBytes(ps: seq<Packet>): multiset<byte> {
    if ps == [] then multiset{} else multiset(ps[0].payload) + EmittedBytes(ps[1..])
  }

  /** Over every run, what was accepted is what was emitted plus what is still queued. */
  lemma {:induction false} RunConserves(r: Resizer, es: seq<Event>)
    requires Inv(r) && EventsOk(es)
    ensures Bag(r.queue, 0) + AcceptedBytes(r, es)
         == EmittedBytes(Emitted(r, es)) + Bag(Final(r, es).queue, 0)
    decreases |es|
  {
    if es != [] {
      var (r', out) := Step(r, es[0]);
      RunConserves(r', es[1..]);
      StepConserves(r, es[0]);
      EmittedCons(out, Emitted(r', es[1..]));
      Balance(Bag(r.queue, 0), Accepted(r, es[0]), multiset(OutputBytes(out)),
              Bag(r'.queue, 0), AcceptedBytes(r', es[1..]),
              EmittedBytes(Emitted(r', es[1..])), Bag(Final(r, es).queue, 0));
    }
  }

  lemma Balance(q: multiset<byte>, a: multiset<byte>, e: multiset<byte>, q': multiset<byte>,
                a': multiset<byte>, e': multiset<byte>, q'': multiset<byte>)
    requires q + a == e + q' && q' + a' == e' + q''
    ensures q + (a + a') == (e + e') + q''
  {
    assert q + (a + a') == (q + a) + a';
    assert (e + q') + a' == e + (q' + a');
  }

  lemma EmittedCons(out: Option<Packet>, ps: seq<Packet>)
    ensures EmittedBytes(ToSeq(out) + ps) == multiset(OutputBytes(out)) + EmittedBytes(ps)
  {
    if out.Some? {
      assert (ToSeq(out) + ps)[1..] == ps;
    } else {
      assert ToSeq(out) + ps == ps;
    }
  }

  lemma StepConserves(r: Resizer, e: Event)
    requires Inv(r) && EventOk(e)
    ensures
      var (r', out) := Step(r, e);
      Bag(r.queue, 0) + Accepted(r, e) == multiset(OutputBytes(out)) + Bag(r'.queue, 0)
  {
    if r.outputNsamples > 0 {
      if e.Arrive? && ToPacket(e.bytes).Some? {
        EnqueueConserves(r, ToPacket(e.bytes).value, e.internalTs);
      } else if e.Poll? {
        GetConserves(r, e.refTs, e.spare);
        var (out, r') := Get(r, e.refTs, e.spare);
        BagOfFlat(r.queue, 0);
        BagOfFlat(r'.queue, 0);
        assert multiset(OutputBytes(out) + Flat(r'.queue, 0)) == multiset(Flat(r.queue, 0));
      }
    }
  }

  /** Emitted sequence numbers are consecutive modulo 2^16. */
  ghost predicate Consecutive(ps: seq<Packet>) {
    forall i :: 0 <= i < |ps| - 1 ==> ps[i + 1].seqno == (ps[i].seqno + 1) % M16
  }

  lemma {:induction false} RunNumbers(r: Resizer, es: seq<Event>)
    requires Inv(r) && EventsOk(es)
    ensures
      var ps := Emitted(r, es);
      Consecutive(ps) && (ps != [] && r.seqInitialized ==> ps[0].seqno == r.seqno)
    decreases |es|
  {
    if es != [] {
      var (r', out) := Step(r, es[0]);
      RunNumbers(r', es[1..]);
      NumbersCons(out, Emitted(r', es[1..]));
    }
  }

  lemma NumbersCons(out: Option<Packet>, ps: seq<Packet>)
    requires Consecutive(ps) && (out.Some? && ps != [] ==> ps[0].seqno == Next16(out.value.seqno))
    ensures Consecutive(ToSeq(out) + ps)
  {
    if out.None? {
      assert ToSeq(out) + ps == ps;
    }
  }

  /** That a packet has been sent is known exactly from the first one on, so that later ones are
      measured against its end. */
  lemma {:induction false} RunSent(r: Resizer, es: seq<Event>)
    requires Inv(r) && EventsOk(es)
    ensures Final(r, es).lastSentInited <==> r.lastSentInited || Emitted(r, es) != []
    decreases |es|
  {
    hide Step, Inv;
    if es != [] {
      StepSent(r, es[0]);
      RunSent(Step(r, es[0]).0, es[1..]);
    }
  }

  lemma StepSent(r: Resizer, e: Event)
    requires Inv(r) && EventOk(e)
    ensures Step(r, e).0.lastSentInited <==> r.lastSentInited || Step(r, e).1.Some?
  {
    hide Take, Remaining, ToPacket, Insert, SyncClock, AllQueued;
  }

  /** One moment at which a packet was emitted: the queue before and after, and the output
      size asked for. */
  datatype Moment = Moment(before: seq<Packet>, after: seq<Packet>, asked: int)

  /** The moments of a run at which it emitted a packet. */
  function Moments(r: Resizer, es: seq<Event>): seq<Moment>
    requires Inv(r) && EventsOk(es)
    decreases |es|
  {
    if es == [] then [] else
    var (r', out) := Step(r, es[0]);
    (if out.Some? then [Moment(r.queue, r'.queue, r.outputNsamples)] else []) + Moments(r', es[1..])
  }

  /** The packet is what had to be emitted at that moment: non-empty, inside its buffer, less
      than one frame longer than asked for, and exactly as long as the queue allows. */
  ghost predicate OnDemand(p: Packet, m: Moment) {
    && AsAsked(m.before, m.after, p, m.asked)
    && Output(p, m.before[0].pt, Wanted(m.asked, m.before[0].pt))
  }

  ghost predicate AllOnDemand(ps: seq<Packet>, ms: seq<Moment>) {
    |ms| == |ps| && forall i :: 0 <= i < |ps| ==> OnDemand(ps[i], ms[i])
  }

  /** Every packet a run emits is what had to be emitted at its moment. */
  lemma {:induction false} RunBounds(r: Resizer, es: seq<Event>)
    requires Inv(r) && EventsOk(es)
    ensures AllOnDemand(Emitted(r, es), Moments(r, es))
    decreases |es|
  {
    if es != [] {
      var (r', out) := Step(r, es[0]);
      RunBounds(r', es[1..]);
      PollOnDemand(r, es[0]);
      DemandCons(out, Moment(r.queue, r'.queue, r.outputNsamples), Emitted(r', es[1..]), Moments(r', es[1..]));
    }
  }

  lemma PollOnDemand(r: Resizer, e: Event)
    requires Inv(r) && EventOk(e)
    ensures var (r', out) := Step(r, e);
      out.Some? ==> OnDemand(out.value, Moment(r.queue, r'.queue, r.outputNsamples))
  {
    hide Exact, Output, Get;
    if e.Poll? && r.outputNsamples > 0 {
      GetConserves(r, e.refTs, e.spare);
      GetIsExact(r, e.refTs, e.spare);
    }
  }

  lemma DemandCons(out: Option<Packet>, m: Moment, ps: seq<Packet>, ms: seq<Moment>)
    requires AllOnDemand(ps, ms) && (out.Some? ==> OnDemand(out.value, m))
    ensures AllOnDemand(ToSeq(out) + ps, (if out.Some? then [m] else []) + ms)
  {
    hide OnDemand;
  }

  // ----- time order over a run

  /** The unwrapped times of the queue, and the end of the last packet sent. */
  datatype Clock = Clock(us: seq<int>, lo: int)

  ghost predicate InTime(r: Resizer, c: Clock) {
    && Ordered(r.queue, c.us, c.lo)
    && (r.lastSentInited ==> r.lastSentTs == c.lo % M32)
  }

  /** What the sender must respect when a packet arrives: its timestamp is its media time
      modulo 2^32, it lies within half the range of the last packet sent, and it fits
      between the queued packets. */
  ghost predicate Plausible(r: Resizer, c: Clock, e: Event)
    requires EventOk(e) && |c.us| == |r.queue|
  {
    e.Arrive? && ToPacket(e.bytes).Some? ==>
      var p := ToPacket(e.bytes).value;
      && e.when % M32 == p.ts
      && -HALF32 < e.when - c.lo && e.when + p.nsamples - c.lo < HALF32
      && (!r.lastSentInited ==> c.lo <= e.when)
      && (c.lo <= e.when ==> Fits(r.queue, c.us, p, e.when))
  }

  /** How the unwrapped times move with one event. */
  ghost function Advance(r: Resizer, c: Clock, e: Event): (c': Clock)
    requires Inv(r) && EventOk(e) && InTime(r, c)
  {
    match e
    case SetOutput(_) => c
    case Arrive(bytes, _, when) =>
      if !Accepts(r, e) then c else
      var k := InsertPos(r.queue, ToPacket(bytes).value.ts);
      Clock(c.us[..k] + [when] + c.us[k..], c.lo)
    case Poll(refTs, spare) =>
      if Step(r, e).1.None? then c else
      var t := Take(r.queue, Target(r.outputNsamples, r.queue[0].pt), spare).value;
      Clock(TimesAfter(r.queue, c.us, t), c.us[0] + t.out.nsamples)
  }

  /** One event keeps the queue in time order; an emitted packet starts at or after the
      end of the previous one and moves that end forward by its own length. */
  lemma StepKeepsOrder(r: Resizer, c: Clock, e: Event)
    requires Inv(r) && EventOk(e) && InTime(r, c) && Plausible(r, c, e)
    ensures
      var (r', out) := Step(r, e);
      var c' := Advance(r, c, e);
      && InTime(r', c')
      && (out.None? ==> c'.lo == c.lo)
      && (out.Some? ==>
            && r.queue != [] && c.lo <= c.us[0] < c.lo + HALF32 && c.us[0] % M32 == out.value.ts
            && c'.lo == c.us[0] + out.value.nsamples && out.value.nsamples >= 0
            && (r.queue[0].nsamples > 0 ==> out.value.nsamples > 0))
  {
    if e.Arrive? && ToPacket(e.bytes).Some? && r.outputNsamples > 0 {
      var p := ToPacket(e.bytes).value;
      TsLessUnwrapped(e.when, c.lo);
      if !TooLate(r, p) {
        InsertKeepsOrder(r.queue, c.us, c.lo, p, e.when);
      }
    } else if e.Poll? && Step(r, e).1.Some? {
      PollKeepsOrder(r, c, e);
    }
  }

  /** A packet taken into the queue, stamped with its media time and within half the range,
      leaves the queue in time order exactly if it fits. */
  lemma ArrivalKeepsOrder(r: Resizer, c: Clock, e: Event)
    requires Inv(r) && EventOk(e) && InTime(r, c) && e.Arrive? && Accepts(r, e)
    requires InStep(ToPacket(e.bytes).value, e.when, c.lo)
    ensures InTime(Step(r, e).0, Advance(r, c, e)) <==> Fits(r.queue, c.us, ToPacket(e.bytes).value, e.when)
  {
    InsertKeepsOrder(r.queue, c.us, c.lo, ToPacket(e.bytes).value, e.when);
    hide Ordered, Fits;
  }

  lemma PollKeepsOrder(r: Resizer, c: Clock, e: Event)
    requires Inv(r) && InTime(r, c) && e.Poll? && Step(r, e).1.Some?
    ensures
      var (r', out) := Step(r, e);
      var c' := Advance(r, c, e);
      && InTime(r', c')
      && r.queue != [] && c.lo <= c.us[0] < c.lo + HALF32 && c.us[0] % M32 == out.value.ts
      && c'.lo == c.us[0] + out.value.nsamples && out.value.nsamples >= 0
      && (r.queue[0].nsamples > 0 ==> out.value.nsamples > 0)
  {
    hide Ordered, Contiguous, Remaining, TimesAfter, AllQueued, Start, Aggregate, Queued;
    var target := Target(r.outputNsamples, r.queue[0].pt);
    OrderedHead(r.queue, c.us, c.lo);
    TakeContiguous(r.queue, target, e.spare);
    var t := Take(r.queue, target, e.spare).value;
    RestHasSamples(r.queue, t);
    TakeKeepsOrder(r.queue, c.us, c.lo, t);
    OutputEnd(r.queue, c.us, c.lo, t);
    AddMod32(c.us[0], t.out.nsamples);
  }

  lemma OrderedHead(q: seq<Packet>, us: seq<int>, lo: int)
    requires Ordered(q, us, lo) && q != []
    ensures |us| == |q| && InStep(q[0], us[0], lo)
  {
  }

  lemma RestHasSamples(q: seq<Packet>, t: Taken)
    requires Contiguous(q, t)
    ensures t.rest.Some? ==> t.rest.value.nsamples > 0
  {
  }

  /** For one that does not fit: a GSM payload too short for a frame counts no samples. It
      overlaps nothing, but stamped like a packet of one frame it goes behind that, and what is
      sent next starts 160 samples before the end of what was sent. */
  lemma EmptyPacketGoesBack(x: seq<byte>, y: seq<byte>)
    returns (a: Packet, b: Packet, r: Resizer, r': Resizer, first: Packet, second: Packet)
    requires |x| == 33 && |y| == 10
    ensures a == Packet(45, 12, 160, 1000, 1, true, RTP_GSM, x) && b == Packet(22, 12, 0, 1000, 2, true, RTP_GSM, y)
    ensures NoOverlap([a], [1000], b, 1000) && !Fits([a], [1000], b, 1000)
    ensures r == Enqueue(Enqueue(EMPTY.(outputNsamples := 160), a, 0), b, 0)
    ensures AllQueued(r.queue) && r.outputNsamples > 0 && AllQueued(r'.queue) && r'.outputNsamples > 0
    ensures Get(r, 5000, None) == (Some(first), r') && Get(r', 5000, None).0 == Some(second)
    ensures Add32(first.ts, first.nsamples) == 1160 && second.ts == 1000
  {
    a := Packet(45, 12, 160, 1000, 1, true, RTP_GSM, x);
    b := Packet(22, 12, 0, 1000, 2, true, RTP_GSM, y);
    assert Insert([], a) == [a] && InsertPos([a], 1000) == 1 && Insert([a], b) == [a, b] && [a, b][1..] == [b];
    r := Enqueue(Enqueue(EMPTY.(outputNsamples := 160), a, 0), b, 0);
    assert Aggregate(a, [a, b], 1, 160) == Taken(a, 1, None) && Aggregate(b, [b], 1, 160) == Taken(b, 1, None);
    var res := Get(r, 5000, None);
    first, r' := res.0.value, res.1;
    second := Get(r', 5000, None).0.value;
  }

  /** All arrivals of a run are plausible when they come. */
  ghost predicate PlausibleRun(r: Resizer, c: Clock, es: seq<Event>)
    requires Inv(r) && EventsOk(es) && InTime(r, c)
    decreases |es|
  {
    if es == [] then true
    else if !Plausible(r, c, es[0]) then false
    else
      StepKeepsOrder(r, c, es[0]);
      PlausibleRun(Step(r, es[0]).0, Advance(r, c, es[0]), es[1..])
  }

  /** The media times at which the packets of a run start: for each poll that emits, the
      unwrapped time of the head of the queue. */
  ghost function Starts(r: Resizer, c: Clock, es: seq<Event>): seq<int>
    requires Inv(r) && EventsOk(es) && InTime(r, c) && PlausibleRun(r, c, es)
    decreases |es|
  {
    if es == [] then [] else
    StepKeepsOrder(r, c, es[0]);
    (if Step(r, es[0]).1.Some? then [c.us[0]] else []) + Starts(Step(r, es[0]).0, Advance(r, c, es[0]), es[1..])
  }

  /** The unwrapped times after a run. */
  ghost function FinalClock(r: Resizer, c: Clock, es: seq<Event>): Clock
    requires Inv(r) && EventsOk(es) && InTime(r, c) && PlausibleRun(r, c, es)
    decreases |es|
  {
    if es == [] then c else
    StepKeepsOrder(r, c, es[0]);
    FinalClock(Step(r, es[0]).0, Advance(r, c, es[0]), es[1..])
  }

  /** The packets start, in unwrapped time, at `starts`, the first at or after `lo` and each
      further one at or after the end of the one before it, by less than half the range. */
  ghost predicate Ascending(ps: seq<Packet>, starts: seq<int>, lo: int) {
    && |starts| == |ps|
    && (forall i :: 0 <= i < |ps| ==> starts[i] % M32 == ps[i].ts)
    && (ps != [] ==> lo <= starts[0] < lo + HALF32)
    && (forall i :: 0 <= i < |ps| - 1 ==> InTurn(ps[i], starts[i], starts[i + 1]))
  }

  ghost predicate InTurn(p: Packet, u: int, next: int) {
    u + p.nsamples <= next < u + p.nsamples + HALF32
  }

  /** The times are determined by the packets: there is at most one way to read wrapped
      timestamps as an ascending run from `lo` on. */
  lemma {:induction false} AscendingUnique(ps: seq<Packet>, a: seq<int>, b: seq<int>, lo: int, n: nat)
    requires Ascending(ps, a, lo) && Ascending(ps, b, lo) && n < |ps|
    ensures a[n] == b[n]
  {
    if n > 0 {
      AscendingUnique(ps, a, b, lo, n - 1);
      assert InTurn(ps[n - 1], a[n - 1], a[n]) && InTurn(ps[n - 1], b[n - 1], b[n]);
    }
    EqualUnwrapped(a[n], b[n]);
  }

  /** Over every plausible run, whatever wraps, emitted packets go forward in media time
      without overlap and the queue ends in order. */
  lemma {:induction false} RunOrder(r: Resizer, c: Clock, es: seq<Event>)
    requires Inv(r) && EventsOk(es) && InTime(r, c) && PlausibleRun(r, c, es)
    ensures Ascending(Emitted(r, es), Starts(r, c, es), c.lo)
    ensures InTime(Final(r, es), FinalClock(r, c, es))
    decreases |es|
  {
    hide Ascending, Plausible, Step, Advance, Inv;
    if es == [] {
      NoneAscend(c.lo);
    } else {
      StepKeepsOrder(r, c, es[0]);
      var (r', out) := Step(r, es[0]);
      var c1 := Advance(r, c, es[0]);
      RunOrder(r', c1, es[1..]);
      AscendingCons(out, Emitted(r', es[1..]), if out.Some? then c.us[0] else c.lo, Starts(r', c1, es[1..]), c.lo);
    }
  }

  lemma NoneAscend(lo: int)
    ensures Ascending([], [], lo)
  {
  }

  lemma AscendingCons(out: Option<Packet>, ps: seq<Packet>, u: int, rest: seq<int>, lo: int)
    requires Ascending(ps, rest, if out.Some? then u + out.value.nsamples else lo)
    requires out.Some? ==> lo <= u < lo + HALF32 && u % M32 == out.value.ts
    ensures Ascending(ToSeq(out) + ps, (if out.Some? then [u] else []) + rest, lo)
  {
    if out.None? {
      assert ToSeq(out) + ps == ps && [] + rest == rest;
    } else {
      hide InTurn;
      var ps', us' := [out.value] + ps, [u] + rest;
      if ps != [] { NextInTurn(out.value, u, rest[0]); }
      forall i | 0 <= i < |ps'| - 1 ensures InTurn(ps'[i], us'[i], us'[i + 1]) {
        if i > 0 { assert InTurn(ps[i - 1], rest[i - 1], rest[i]); }
      }
    }
  }

  lemma NextInTurn(p: Packet, u: int, next: int)
    requires u + p.nsamples <= next < u + p.nsamples + HALF32
    ensures InTurn(p, u, next)
  {
  }
}
