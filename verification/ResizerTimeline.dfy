/** The re-packetizer's output in media-time order: over a plausible run the bytes sent,
    followed by the bytes still queued, are the accepted payloads sorted by their times. */
module ResizerTimeline {
  import opened Options
  import opened Words
  import opened ResizerSpec
  import opened ResizerProofs
  import opened ResizerOrder
  import opened ResizerRuns
  import opened RtpParse

  /** A payload with the unwrapped media time at which it starts. */
  datatype Arrival = Arrival(start: int, payload: seq<byte>)

  /** All payloads from number `i` on. */
  function Bytes(tl: seq<Arrival>, i: nat): seq<byte>
    decreases |tl| - i
  {
    if i >= |tl| then [] else tl[i].payload + Bytes(tl, i + 1)
  }

  /** Behind everything that starts no later. */
  function Place(tl: seq<Arrival>, u: int): (k: nat)
    ensures k <= |tl|
  {
    if tl == [] then 0
    else if u < tl[|tl| - 1].start then Place(tl[..|tl| - 1], u)
    else |tl|
  }

  function Insert(tl: seq<Arrival>, a: Arrival): seq<Arrival> {
    var k := Place(tl, a.start);
    tl[..k] + [a] + tl[k..]
  }

  ghost predicate Sorted(tl: seq<Arrival>) {
    forall i, j :: 0 <= i < j < |tl| ==> tl[i].start <= tl[j].start
  }

  /** The accepted payloads of a run, put one after the other into their places in `tl`. */
  function Timeline(r: Resizer, es: seq<Event>, tl: seq<Arrival>): seq<Arrival>
    requires Inv(r) && EventsOk(es)
    decreases |es|
  {
    if es == [] then tl else
    Timeline(Step(r, es[0]).0, es[1..],
             if es[0].Arrive? && Accepts(r, es[0])
             then Insert(tl, Arrival(es[0].when, ToPacket(es[0].bytes).value.payload)) else tl)
  }

  /** The payloads of the packets sent, one after the other. */
  function Sent(ps: seq<Packet>): seq<byte> {
    if ps == [] then [] else ps[0].payload + Sent(ps[1..])
  }

  // ----- the timeline is the sorted list of what was accepted

  lemma {:induction false} PlaceSplits(tl: seq<Arrival>, u: int)
    requires Sorted(tl)
    ensures var k := Place(tl, u);
      (forall i :: 0 <= i < k ==> tl[i].start <= u) && (forall i :: k <= i < |tl| ==> u < tl[i].start)
  {
    if tl != [] && u < tl[|tl| - 1].start { PlaceSplits(tl[..|tl| - 1], u); }
  }

  lemma InsertSorts(tl: seq<Arrival>, a: Arrival)
    requires Sorted(tl)
    ensures Sorted(Insert(tl, a)) && multiset(Insert(tl, a)) == multiset(tl) + multiset{a}
  {
    PlaceSplits(tl, a.start);
    var k := Place(tl, a.start);
    assert tl == tl[..k] + tl[k..];
  }

  function Arrivals(r: Resizer, es: seq<Event>): multiset<Arrival>
    requires Inv(r) && EventsOk(es)
    decreases |es|
  {
    if es == [] then multiset{} else
    (if es[0].Arrive? && Accepts(r, es[0])
     then multiset{Arrival(es[0].when, ToPacket(es[0].bytes).value.payload)} else multiset{})
    + Arrivals(Step(r, es[0]).0, es[1..])
  }

  /** The timeline holds exactly what was there and what was accepted, in order of time. */
  lemma {:induction false} TimelineSorts(r: Resizer, es: seq<Event>, tl: seq<Arrival>)
    requires Inv(r) && EventsOk(es) && Sorted(tl)
    ensures Sorted(Timeline(r, es, tl)) && multiset(Timeline(r, es, tl)) == multiset(tl) + Arrivals(r, es)
    decreases |es|
  {
    if es != [] {
      var r' := Step(r, es[0]).0;
      if es[0].Arrive? && Accepts(r, es[0]) {
        var a := Arrival(es[0].when, ToPacket(es[0].bytes).value.payload);
        InsertSorts(tl, a);
        TimelineSorts(r', es[1..], Insert(tl, a));
      } else {
        TimelineSorts(r', es[1..], tl);
      }
    }
  }

  // ----- how queue and timeline match

  ghost predicate EntryAt(q: seq<Packet>, us: seq<int>, tl: seq<Arrival>, m: nat, i: int)
    requires |us| == |q| && |tl| == m + |q|
  {
    0 < i < |q| ==> tl[m + i] == Arrival(us[i], q[i].payload)
  }

  /** The first `m` payloads of the timeline are sent, and `x` of the next; the rest is the
      queue. What is sent began no later than `lo`, where a cut payload goes on. */
  ghost predicate Match(q: seq<Packet>, us: seq<int>, lo: int, tl: seq<Arrival>, m: nat, x: seq<byte>) {
    && |us| == |q| && |tl| == m + |q|
    && (forall j :: 0 <= j < m ==> tl[j].start <= lo)
    && (forall i :: EntryAt(q, us, tl, m, i))
    && (if q == [] then x == [] else
        tl[m].payload == x + q[0].payload && tl[m].start <= us[0] && (tl[m].start == us[0] || us[0] == lo)
        && (x != [] ==> us[0] == lo))
  }

  lemma {:induction false} QueueBytes(q: seq<Packet>, us: seq<int>, lo: int, tl: seq<Arrival>, m: nat,
                                      x: seq<byte>, i: nat)
    requires Match(q, us, lo, tl, m, x) && 0 < i <= |q|
    ensures Bytes(tl, m + i) == Flat(q, i)
    decreases |q| - i
  {
    if i < |q| {
      assert EntryAt(q, us, tl, m, i);
      QueueBytes(q, us, lo, tl, m, x, i + 1);
    }
  }

  /** The first `m` payloads. */
  function Prefix(tl: seq<Arrival>, m: nat): seq<byte> {
    if m == 0 || m > |tl| then [] else Prefix(tl, m - 1) + tl[m - 1].payload
  }

  lemma {:induction false} PrefixBytes(tl: seq<Arrival>, m: nat)
    requires m <= |tl|
    ensures Prefix(tl, m) + Bytes(tl, m) == Bytes(tl, 0)
  {
    if m > 0 {
      PrefixBytes(tl, m - 1);
      assert Bytes(tl, m - 1) == tl[m - 1].payload + Bytes(tl, m);
      Assoc(Prefix(tl, m - 1), tl[m - 1].payload, Bytes(tl, m));
    }
  }

  lemma MatchBytes(q: seq<Packet>, us: seq<int>, lo: int, tl: seq<Arrival>, m: nat, x: seq<byte>)
    requires Match(q, us, lo, tl, m, x)
    ensures Bytes(tl, 0) == (Prefix(tl, m) + x) + Flat(q, 0)
  {
    PrefixBytes(tl, m);
    if q != [] {
      QueueBytes(q, us, lo, tl, m, x, 1);
      Assoc(x, q[0].payload, Flat(q, 1));
      Assoc(Prefix(tl, m), x, Flat(q, 0));
    } else {
      assert Prefix(tl, m) + x == Prefix(tl, m);
    }
  }

  // ----- an arrival

  lemma {:induction false} PlaceIs(tl: seq<Arrival>, u: int, k: nat)
    requires k <= |tl| && (k > 0 ==> tl[k - 1].start <= u) && forall i :: k <= i < |tl| ==> u < tl[i].start
    ensures Place(tl, u) == k
    decreases |tl|
  {
    if k < |tl| { PlaceIs(tl[..|tl| - 1], u, k); }
  }

  lemma ArrivalPlace(q: seq<Packet>, us: seq<int>, lo: int, tl: seq<Arrival>, m: nat, x: seq<byte>, p: Packet, u: int)
    requires Match(q, us, lo, tl, m, x) && Ordered(q, us, lo) && InStep(p, u, lo)
    ensures Place(tl, u) == m + InsertPos(q, p.ts)
    ensures InsertPos(q, p.ts) == 0 && q != [] ==> x == [] && tl[m].start == us[0]
  {
    var k := InsertPos(q, p.ts);
    InsertPosSorted(q, us, lo, p, u);
    forall i | m + k <= i < |tl| ensures u < tl[i].start { assert EntryAt(q, us, tl, m, i - m); }
    if k > 0 { assert EntryAt(q, us, tl, m, k - 1); }
    PlaceIs(tl, u, m + k);
  }

  lemma {:induction false} PrefixSame(a: seq<Arrival>, b: seq<Arrival>, m: nat)
    requires m <= |a| && m <= |b| && forall i :: 0 <= i < m ==> a[i] == b[i]
    ensures Prefix(a, m) == Prefix(b, m)
  {
    if m > 0 { PrefixSame(a, b, m - 1); }
  }

  lemma ArriveMatch(q: seq<Packet>, us: seq<int>, lo: int, tl: seq<Arrival>, m: nat, x: seq<byte>, p: Packet, u: int)
    requires Match(q, us, lo, tl, m, x) && Ordered(q, us, lo) && InStep(p, u, lo)
    ensures var k := InsertPos(q, p.ts); var tl' := Insert(tl, Arrival(u, p.payload));
      Match(ResizerSpec.Insert(q, p), us[..k] + [u] + us[k..], lo, tl', m, x) && Prefix(tl', m) == Prefix(tl, m)
  {
    ArrivalPlace(q, us, lo, tl, m, x, p, u);
    var k := InsertPos(q, p.ts);
    var q', us', tl' := ResizerSpec.Insert(q, p), us[..k] + [u] + us[k..], Insert(tl, Arrival(u, p.payload));
    PrefixSame(tl', tl, m);
    forall i {:trigger EntryAt(q', us', tl', m, i)} ensures EntryAt(q', us', tl', m, i) {
      assert EntryAt(q, us, tl, m, i) && EntryAt(q, us, tl, m, i - 1);
      if 0 < i < |q'| {
        assert q'[i] == if i < k then q[i] else if i == k then p else q[i - 1];
        assert us'[i] == if i < k then us[i] else if i == k then u else us[i - 1];
        assert tl'[m + i] == if i < k then tl[m + i] else if i == k then Arrival(u, p.payload) else tl[m + i - 1];
      }
    }
  }

  // ----- an emission

  /** What is left of a cut packet is the end of it. */
  ghost predicate Suffix(s: seq<byte>, t: seq<byte>) {
    |s| <= |t| && t == t[..|t| - |s|] + s
  }

  lemma {:induction false} RestIsSuffix(ret: Packet, q: seq<Packet>, i: nat, target: int)
    requires AllQueued(q) && i <= |q| && ret.nsamples >= 0
    ensures var t := Aggregate(ret, q, i, target); t.rest.Some? ==> Suffix(t.rest.value.payload, q[t.used].payload)
    decreases |q| - i
  {
    if ret.nsamples < target && i < |q| {
      var t := Extend(ret, q[i], target);
      ExtendRest(ret, q[i], target);
      hide Extend, Suffix;
      if t.UseAll? && t.more { RestIsSuffix(t.out, q, i + 1, target); }
    }
  }

  lemma ExtendRest(ret: Packet, p: Packet, target: int)
    requires Queued(p) && 0 <= ret.nsamples < target
    ensures var t := Extend(ret, p, target);
      (t.UseHead? ==> Suffix(t.rest.payload, p.payload)) && (t.UseAll? ==> t.out.nsamples >= 0)
  {
    assert p.nsamples >= 0;
    hide Queued, Add32;
  }

  lemma TakeRest(q: seq<Packet>, target: int, spare: Option<nat>)
    requires AllQueued(q) && q != [] && target > 0
    ensures var t := Take(q, target, spare);
      t.Some? && t.value.rest.Some? ==> Suffix(t.value.rest.value.payload, q[t.value.used].payload)
  {
    var t := Start(q[0], target, spare);
    if t.UseAll? && t.more { RestIsSuffix(t.out, q, 1, target); }
  }

  lemma SentBefore(q: seq<Packet>, us: seq<int>, lo: int, t: Taken, tl: seq<Arrival>, m: nat, x: seq<byte>, j: nat)
    requires Match(q, us, lo, tl, m, x) && q != [] && Ordered(q, us, lo) && Contiguous(q, t) && j < m + t.used
    ensures tl[j].start <= us[0] + t.out.nsamples
  {
    OutputEnd(q, us, lo, t);
    assert InStep(q[0], us[0], lo);
    if j >= m {
      assert EntryAt(q, us, tl, m, j - m) && InStep(q[j - m], us[j - m], lo);
      assert tl[j].start <= us[j - m];
    }
  }

  lemma EmitMatch(q: seq<Packet>, us: seq<int>, lo: int, t: Taken, tl: seq<Arrival>, m: nat, x: seq<byte>)
    returns (x': seq<byte>)
    requires Match(q, us, lo, tl, m, x) && q != [] && Ordered(q, us, lo) && Contiguous(q, t)
    requires t.rest.Some? ==> Suffix(t.rest.value.payload, q[t.used].payload)
    ensures Match(Remaining(q, t), TimesAfter(q, us, t), us[0] + t.out.nsamples, tl, m + t.used, x')
  {
    var q', us', lo', m' := Remaining(q, t), TimesAfter(q, us, t), us[0] + t.out.nsamples, m + t.used;
    OutputEnd(q, us, lo, t);
    assert EntryAt(q, us, tl, m, t.used);
    x' := [];
    if t.rest.Some? {
      var p, rest := q[t.used].payload, t.rest.value.payload;
      var taken := p[..|p| - |rest|];
      x' := if t.used == 0 then x + taken else taken;
      Assoc(x, taken, rest);
    }
    forall j | 0 <= j < m' ensures tl[j].start <= lo' { SentBefore(q, us, lo, t, tl, m, x, j); }
    forall i {:trigger EntryAt(q', us', tl, m', i)} ensures EntryAt(q', us', tl, m', i) {
      assert EntryAt(q, us, tl, m, t.used + i);
    }
  }

  // ----- over a run

  lemma SentCons(out: Option<Packet>, ps: seq<Packet>)
    ensures Sent(ToSeq(out) + ps) == OutputBytes(out) + Sent(ps)
  {
    if out.Some? {
      assert (ToSeq(out) + ps)[1..] == ps;
    } else {
      assert ToSeq(out) + ps == ps;
    }
  }

  lemma SentGrows(y: seq<byte>, out: seq<byte>, y': seq<byte>, f: seq<byte>, f': seq<byte>)
    requires y + f == y' + f' && out + f' == f
    ensures y' == y + out
  {
    assert (y + out) + f' == y + (out + f');
    assert y' == (y' + f')[..|y'|] && y + out == ((y + out) + f')[..|y + out|];
  }

  /** What a poll that emits does to queue and clock. */
  lemma PollIs(r: Resizer, c: Clock, e: Event) returns (t: Taken)
    requires Inv(r) && InTime(r, c) && e.Poll? && Step(r, e).1.Some?
    ensures r.queue != [] && t.used <= |r.queue| == |c.us| && (t.rest.Some? ==> t.used < |r.queue|)
    ensures Ordered(r.queue, c.us, c.lo) && Contiguous(r.queue, t)
    ensures t.rest.Some? ==> Suffix(t.rest.value.payload, r.queue[t.used].payload)
    ensures Step(r, e).0.queue == Remaining(r.queue, t)
    ensures Advance(r, c, e).us == TimesAfter(r.queue, c.us, t) && Advance(r, c, e).lo == c.us[0] + t.out.nsamples
    ensures OutputBytes(Step(r, e).1) + Flat(Step(r, e).0.queue, 0) == Flat(r.queue, 0)
  {
    assert |c.us| == |r.queue| && AllQueued(r.queue);
    hide AllQueued, Ordered, Contiguous, Suffix, Flat, Queued, Remaining, TimesAfter, Start, Aggregate;
    var target := Target(r.outputNsamples, r.queue[0].pt);
    t := Take(r.queue, target, e.spare).value;
    TakeContiguous(r.queue, target, e.spare);
    TakeRest(r.queue, target, e.spare);
    GetConserves(r, e.refTs, e.spare);
  }

  lemma MatchGrows(q: seq<Packet>, us: seq<int>, lo: int, t: Taken, tl: seq<Arrival>, m: nat, x: seq<byte>,
                   x': seq<byte>, out: seq<byte>)
    requires |us| == |q| && q != [] && t.used <= |q| && (t.rest.Some? ==> t.used < |q|)
    requires Match(q, us, lo, tl, m, x) && out + Flat(Remaining(q, t), 0) == Flat(q, 0)
    requires Match(Remaining(q, t), TimesAfter(q, us, t), us[0] + t.out.nsamples, tl, m + t.used, x')
    ensures m + t.used <= |tl| && Prefix(tl, m + t.used) + x' == (Prefix(tl, m) + x) + out
  {
    MatchBytes(q, us, lo, tl, m, x);
    MatchBytes(Remaining(q, t), TimesAfter(q, us, t), us[0] + t.out.nsamples, tl, m + t.used, x');
    SentGrows(Prefix(tl, m) + x, out, Prefix(tl, m + t.used) + x', Flat(q, 0), Flat(Remaining(q, t), 0));
  }

  /** One event: the timeline grows by what was accepted, what is sent by what was emitted. */
  lemma StepMatch(r: Resizer, c: Clock, e: Event, tl: seq<Arrival>, m: nat, x: seq<byte>)
    returns (m': nat, x': seq<byte>)
    requires Inv(r) && EventOk(e) && InTime(r, c) && Plausible(r, c, e) && Match(r.queue, c.us, c.lo, tl, m, x)
    ensures
      var (r', out) := Step(r, e);
      var c' := Advance(r, c, e);
      var tl' := if e.Arrive? && Accepts(r, e)
                 then Insert(tl, Arrival(e.when, ToPacket(e.bytes).value.payload)) else tl;
      && Match(r'.queue, c'.us, c'.lo, tl', m', x')
      && Prefix(tl', m') + x' == (Prefix(tl, m) + x) + OutputBytes(out)
  {
    hide Match, Ordered, Prefix, Queued, Fits;
    m', x' := m, x;
    assert (Prefix(tl, m) + x) + [] == Prefix(tl, m) + x;
    if e.Arrive? && Accepts(r, e) {
      var p := ToPacket(e.bytes).value;
      TsLessUnwrapped(e.when, c.lo);
      ArriveMatch(r.queue, c.us, c.lo, tl, m, x, p, e.when);
    } else if e.Poll? && Step(r, e).1.Some? {
      var t := PollIs(r, c, e);
      hide Match, Ordered, Contiguous, Suffix, Flat, Prefix, Remaining, TimesAfter, Get, Take, Inv, ToPacket;
      hide OutputBytes;
      x' := EmitMatch(r.queue, c.us, c.lo, t, tl, m, x);
      m' := m + t.used;
      MatchGrows(r.queue, c.us, c.lo, t, tl, m, x, x', OutputBytes(Step(r, e).1));
    }
  }

  lemma {:induction false} RunFrom(r: Resizer, c: Clock, es: seq<Event>, tl: seq<Arrival>, m: nat, x: seq<byte>)
    requires Inv(r) && EventsOk(es) && InTime(r, c) && PlausibleRun(r, c, es) && Match(r.queue, c.us, c.lo, tl, m, x)
    ensures Bytes(Timeline(r, es, tl), 0)
         == ((Prefix(tl, m) + x) + Sent(Emitted(r, es))) + Flat(Final(r, es).queue, 0)
    decreases |es|
  {
    var y := Prefix(tl, m) + x;
    if es == [] {
      MatchBytes(r.queue, c.us, c.lo, tl, m, x);
      assert y + [] == y;
    } else {
      var (r', out) := Step(r, es[0]);
      StepKeepsOrder(r, c, es[0]);
      var m', x' := StepMatch(r, c, es[0], tl, m, x);
      var tl' := if es[0].Arrive? && Accepts(r, es[0])
                 then Insert(tl, Arrival(es[0].when, ToPacket(es[0].bytes).value.payload)) else tl;
      RunFrom(r', Advance(r, c, es[0]), es[1..], tl', m', x');
      SentCons(out, Emitted(r', es[1..]));
      Assoc(y, OutputBytes(out), Sent(Emitted(r', es[1..])));
    }
  }

  function QueueLine(q: seq<Packet>, us: seq<int>): seq<Arrival>
    requires |us| == |q|
  {
    seq(|q|, i requires 0 <= i < |q| => Arrival(us[i], q[i].payload))
  }

  /** Over every plausible run, what was sent followed by what is queued is, byte for byte,
      what was queued at first and what was accepted, sorted by media time. */
  lemma RunInTimeOrder(r: Resizer, c: Clock, es: seq<Event>)
    requires Inv(r) && EventsOk(es) && InTime(r, c) && PlausibleRun(r, c, es)
    ensures var tl := Timeline(r, es, QueueLine(r.queue, c.us));
      && Sent(Emitted(r, es)) + Flat(Final(r, es).queue, 0) == Bytes(tl, 0)
      && Sorted(tl) && multiset(tl) == multiset(QueueLine(r.queue, c.us)) + Arrivals(r, es)
  {
    var line := QueueLine(r.queue, c.us);
    LineMatches(r.queue, c.us, c.lo);
    QueueSorted(r.queue, c.us, c.lo);
    TimelineSorts(r, es, line);
    assert (Prefix(line, 0) + []) + Sent(Emitted(r, es)) == Sent(Emitted(r, es));
    hide *;
    RunFrom(r, c, es, line, 0, []);
  }

  lemma LineMatches(q: seq<Packet>, us: seq<int>, lo: int)
    requires |us| == |q|
    ensures Match(q, us, lo, QueueLine(q, us), 0, [])
  {
    var line := QueueLine(q, us);
    forall i {:trigger EntryAt(q, us, line, 0, i)} ensures EntryAt(q, us, line, 0, i) {}
    assert q != [] ==> [] + q[0].payload == q[0].payload;
  }

  lemma QueueSorted(q: seq<Packet>, us: seq<int>, lo: int)
    requires Ordered(q, us, lo)
    ensures Sorted(QueueLine(q, us))
  {
    forall i, j | 0 <= i < j < |q| ensures us[i] <= us[j] { assert InStep(q[i], us[i], lo); }
  }
}
