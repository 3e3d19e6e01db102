/** The blacklist over any sequence of requests: its answers are those of a plain timed map. */
module BlacklistRuns {
  import opened Words
  import opened Blacklist
  import opened BlacklistTable

  /** The requests, with the clock readings each of them takes. */
  datatype Request =
    | Ask(d: Dst, proto: byte, now: int)
    | List(errFlags: bv8, d: Dst, proto: byte, timeout: nat, now: int, clock: seq<int>, allocOk: bool)
    | Strike(d: Dst, proto: byte, now: int)
    | Clean(target: int, limit: u32, clock: seq<int>)
    | FlushAll(now: int)

  datatype Answer = Flags(flags: bv8) | Code(ret: int) | Struck(found: bool) | Freed(no: nat) | Flushed

  /** Some live key of the map matches. */
  ghost predicate Known(t: Timed, d: Dst, proto: byte, now: int) {
    exists q: byte :: ProtoMatch(q, proto) && Live(t, Key(d, q), now)
  }

  /** What is due after `first`. */
  function Unexpired(t: Timed, first: int): Timed {
    map k | k in t && t[k].due > first :: t[k]
  }

  function Permanents(t: Timed): Timed {
    map k | k in t && IsPermanent(t[k].flags) :: t[k]
  }

  /** What the timed map answers and becomes. */
  ghost predicate Answers(t: Timed, r: Request, a: Answer, t': Timed) {
    match r
    case Ask(d, proto, now) =>
      && a.Flags? && t' == t && (proto != PROTO_NONE ==> a.flags == Lookup(t, d, proto, now))
      && (if Known(t, d, proto, now)
          then exists q: byte :: ProtoMatch(q, proto) && Live(t, Key(d, q), now) && t[Key(d, q)].flags == a.flags
          else a.flags == 0)
    case List(errFlags, d, proto, timeout, now, _, allocOk) =>
      && a.Code? && Listed(t, t', a.ret, d, proto, TypedFlags(errFlags, d.v6), now + timeout, now)
      && (Known(t, d, proto, now) ==> a.ret == 0)
    case Strike(d, proto, now) =>
      && a.Struck? && (a.found <==> Known(t, d, proto, now))
      && (proto != PROTO_NONE && a.found ==> t' == t - {Find(t, d, proto, now).value})
      && (if a.found
          then exists q: byte :: ProtoMatch(q, proto) && Live(t, Key(d, q), now) && t' == t - {Key(d, q)}
          else t' == t)
    case Clean(target, limit, clock) =>
      && a.Freed? && clock != [] && (t' == t || t' == Unexpired(t, clock[0]))
      && (target <= 0 && (forall i :: 0 <= i < |clock| ==> Elapsed(clock, i) < limit) ==> t' == Unexpired(t, clock[0]))
    case FlushAll(_) => a.Flushed? && t' == Permanents(t)
  }

  /** With `used` bytes in use afterwards, a listing was refused only for want of memory. */
  ghost predicate Room(r: Request, a: Answer, used: int, maxMem: int) {
    r.List? && a.Code? && a.ret != 0 ==>
      || (a.ret == -1 && used + DstSize(r.d) >= maxMem)
      || (a.ret == E_OUT_OF_MEM && used + DstSize(r.d) < maxMem && !r.allocOk)
  }

  /** All that the map knows is due within half the range of the clock from `x`. */
  ghost predicate Near(t: Timed, x: int) {
    forall k :: k in t ==> -HALF32 <= x - t[k].due < HALF32
  }

  ghost predicate ClockOk(clock: seq<int>, t: Timed, from: int) {
    && |clock| > HASH_SIZE && Ascending(clock) && from <= clock[0]
    && forall i :: 0 <= i < |clock| ==> Near(t, clock[i])
  }

  /** The request comes at or after `from`, and the clock is not half its range away from what
      the map knows when the request looks at it. */
  ghost predicate Timely(r: Request, t: Timed, from: int) {
    match r
    case Ask(_, _, now) => from <= now && Near(t, now)
    case List(_, _, _, timeout, now, clock, _) => from <= now && Near(t, now) && ClockOk(clock, t, now)
    case Strike(_, _, now) => from <= now && Near(t, now)
    case Clean(_, _, clock) => ClockOk(clock, t, from)
    case FlushAll(now) => from <= now
  }

  /** The last moment of a request. */
  function End(r: Request): int {
    if r.List? || r.Clean? then if r.clock == [] then 0 else r.clock[|r.clock| - 1] else r.now
  }

  /** The last moment of a run that began at `from`. */
  function EndOf(rs: seq<Request>, from: int): int {
    if rs == [] then from else End(rs[|rs| - 1])
  }

  /** Each request is timely when it comes, whatever was answered before. */
  ghost predicate TimelyRun(rs: seq<Request>, t: Timed, from: int)
    decreases |rs|
  {
    rs != [] ==>
      && Timely(rs[0], t, from)
      && forall a, t' :: Answers(t, rs[0], a, t') ==> TimelyRun(rs[1..], t', End(rs[0]))
  }

  lemma TimelyNext(rs: seq<Request>, i: nat, t: Timed, from: int, a: Answer, t': Timed)
    requires i < |rs| && TimelyRun(rs[i..], t, EndOf(rs[..i], from)) && Answers(t, rs[i], a, t')
    ensures TimelyRun(rs[i + 1..], t', EndOf(rs[..i + 1], from)) && EndOf(rs[..i + 1], from) == End(rs[i])
  {
    hide Answers, Timely;
    assert rs[i..][0] == rs[i] && rs[i..][1..] == rs[i + 1..];
  }

  lemma NearWindow(bs: seq<seq<Entry>>, t: Timed, now: int)
    requires Near(t, now)
    ensures Window(bs, t, now)
  {
  }

  lemma ClockWindows(bs: seq<seq<Entry>>, t: Timed, clock: seq<int>)
    requires forall i :: 0 <= i < |clock| ==> Near(t, clock[i])
    ensures forall i :: 0 <= i < |clock| ==> Window(bs, t, clock[i]) && Window(bs, t, clock[i] + 0)
  {
    forall i | 0 <= i < |clock| ensures Window(bs, t, clock[i]) {
      NearWindow(bs, t, clock[i]);
    }
  }

  /** Once nothing due at `first` is stored, the map may forget it. */
  lemma ForgetKeepsTable(bs: seq<seq<Entry>>, t: Timed, hash: Hash, now: int, first: int)
    requires TableOk(bs, t, hash, now) && AllClean(bs, t, first) && first <= now
    ensures TableOk(bs, Unexpired(t, first), hash, now)
  {
    forall h | 0 <= h < |bs| ensures BucketOk(bs[h], h, Unexpired(t, first), hash) {
      assert BucketOk(bs[h], h, t, hash) && CleanAt(bs, t, h, first);
      forall e | e in bs[h] ensures EntryOk(e, h, Unexpired(t, first), hash) {
        assert EntryOk(e, h, t, hash);
      }
    }
  }

  lemma {:induction false} NothingUsed(bs: seq<seq<Entry>>, n: nat, h: nat)
    requires n <= |bs| && Total(bs, n) == 0 && h < n
    ensures bs[h] == []
  {
    if h < n - 1 {
      NothingUsed(bs, n - 1, h);
    } else {
      assert bs[h] != [] ==> Size(bs[h]) >= EntrySize(bs[h][0]);
    }
  }

  lemma EmptyIsClean(bs: seq<seq<Entry>>, t: Timed, first: int)
    requires |bs| == HASH_SIZE && Total(bs, HASH_SIZE) == 0
    ensures AllClean(bs, t, first)
  {
    forall h {:trigger CleanAt(bs, t, h, first)} ensures CleanAt(bs, t, h, first) {
      if 0 <= h < |bs| { NothingUsed(bs, HASH_SIZE, h); }
    }
  }

  /** One request, served. */
  method Serve(b: DstBlacklist, r: Request, maxMem: int, ghost from: int) returns (a: Answer)
    requires b.Valid(from) && Timely(r, b.timed, from)
    modifies b, b.buckets, b.entries
    ensures b.Valid(End(r))
    ensures Answers(old(b.timed), r, a, b.timed) && Room(r, a, b.memUsed, maxMem)
    ensures old(b.Within(maxMem)) ==> b.Within(maxMem)
  {
    match r
    case Ask(d, proto, now) => a := ServeAsk(b, d, proto, now, from);
    case List(errFlags, d, proto, timeout, now, clock, allocOk) =>
      a := ServeList(b, errFlags, d, proto, timeout, now, clock, allocOk, maxMem, from);
    case Strike(d, proto, now) => a := ServeStrike(b, d, proto, now, from);
    case Clean(target, limit, clock) => a := ServeClean(b, target, limit, clock, from);
    case FlushAll(now) =>
      TimePasses(b.buckets[..], b.timed, b.hash, from, now);
      b.Flush(now);
      a := Flushed;
  }

  method ServeAsk(b: DstBlacklist, d: Dst, proto: byte, now: int, ghost from: int) returns (a: Answer)
    requires b.Valid(from) && from <= now && Near(b.timed, now)
    modifies b`memUsed, b.buckets, b.entries
    ensures b.Valid(now) && b.memUsed <= old(b.memUsed) && Answers(b.timed, Ask(d, proto, now), a, b.timed)
    ensures b.memUsed >= 0
  {
    TimePasses(b.buckets[..], b.timed, b.hash, from, now);
    NearWindow(b.buckets[..], b.timed, now);
    var flags := b.IsBlacklisted(d, proto, now);
    a := Flags(flags);
  }

  method ServeStrike(b: DstBlacklist, d: Dst, proto: byte, now: int, ghost from: int) returns (a: Answer)
    requires b.Valid(from) && from <= now && Near(b.timed, now)
    modifies b`timed, b`memUsed, b.buckets, b.entries
    ensures b.Valid(now) && 0 <= b.memUsed <= old(b.memUsed)
    ensures Answers(old(b.timed), Strike(d, proto, now), a, b.timed)
  {
    TimePasses(b.buckets[..], b.timed, b.hash, from, now);
    NearWindow(b.buckets[..], b.timed, now);
    var found := b.Delete(d, proto, now);
    a := Struck(found);
  }

  /** After a round that was not cut short, or that left nothing, the map forgets what was
      expired. */
  method ServeClean(b: DstBlacklist, target: int, limit: u32, clock: seq<int>, ghost from: int) returns (a: Answer)
    requires b.Valid(from) && ClockOk(clock, b.timed, from)
    modifies b`timed, b`memUsed, b`start, b.buckets, b.entries
    ensures b.Valid(clock[|clock| - 1]) && 0 <= b.memUsed <= old(b.memUsed)
    ensures Answers(old(b.timed), Clean(target, limit, clock), a, b.timed)
  {
    TimePasses(b.buckets[..], b.timed, b.hash, from, clock[0]);
    ClockWindows(b.buckets[..], b.timed, clock);
    hide Near;
    var no, cut, last;
    ghost var turns;
    no, cut, last, turns := b.CleanExpired(target, 0, limit, clock);
    ghost var t, bs := b.timed, b.buckets[..];
    assert b.memUsed == Total(bs, HASH_SIZE);
    if b.memUsed == 0 { EmptyIsClean(bs, t, clock[0]); }
    CleanAnswers(t, target, limit, clock, no, !cut || b.memUsed == 0);
    hide Answers, TableOk, StatsOk, Window, AllClean, CleanAt, RoundClean, Unexpired;
    if !cut || b.memUsed == 0 {
      ForgetKeepsTable(bs, t, b.hash, clock[last], clock[0]);
      b.timed := Unexpired(t, clock[0]);
    }
    TimePasses(bs, b.timed, b.hash, clock[last], clock[|clock| - 1]);
    a := Freed(no);
  }

  lemma CleanAnswers(t: Timed, target: int, limit: u32, clock: seq<int>, no: nat, whole: bool)
    requires clock != [] && (whole || target > 0 || exists i :: 0 <= i < |clock| && Elapsed(clock, i) >= limit)
    ensures Answers(t, Clean(target, limit, clock), Freed(no), if whole then Unexpired(t, clock[0]) else t)
  {
  }

  method ServeList(b: DstBlacklist, errFlags: bv8, d: Dst, proto: byte, timeout: nat, now: int, clock: seq<int>,
                   allocOk: bool, maxMem: int, ghost from: int)
    returns (a: Answer)
    requires b.Valid(from) && Timely(List(errFlags, d, proto, timeout, now, clock, allocOk), b.timed, from)
    modifies b, b.buckets, b.entries
    ensures b.Valid(clock[|clock| - 1])
    ensures Answers(old(b.timed), List(errFlags, d, proto, timeout, now, clock, allocOk), a, b.timed)
    ensures Room(List(errFlags, d, proto, timeout, now, clock, allocOk), a, b.memUsed, maxMem)
    ensures old(b.Within(maxMem)) ==> b.Within(maxMem)
  {
    TimePasses(b.buckets[..], b.timed, b.hash, from, now);
    NearWindow(b.buckets[..], b.timed, now);
    ClockWindows(b.buckets[..], b.timed, clock);
    ghost var t := b.timed;
    hide Near, TableOk, StatsOk, Window, Listed, Answers;
    var ret, last := b.AddIp(errFlags, proto, d, timeout, maxMem, now, clock, allocOk);
    ListAnswers(t, errFlags, d, proto, timeout, now, clock, allocOk, ret, b.timed);
    TimePasses(b.buckets[..], b.timed, b.hash, clock[last], clock[|clock| - 1]);
    a := Code(ret);
  }

  lemma ListAnswers(t: Timed, errFlags: bv8, d: Dst, proto: byte, timeout: nat, now: int, clock: seq<int>,
                    allocOk: bool, ret: int, t': Timed)
    requires Listed(t, t', ret, d, proto, TypedFlags(errFlags, d.v6), now + timeout, now)
    requires Known(t, d, proto, now) ==> ret == 0
    ensures Answers(t, List(errFlags, d, proto, timeout, now, clock, allocOk), Code(ret), t')
  {
  }

  /** The maps `ts`, with `us` bytes in use, link the answers of a run. */
  ghost predicate Trace(ts: seq<Timed>, us: seq<int>, rs: seq<Request>, ans: seq<Answer>, maxMem: int) {
    && |ts| == |us| == |rs| + 1 && |ans| == |rs|
    && forall i :: 0 <= i < |rs| ==> Answers(ts[i], rs[i], ans[i], ts[i + 1]) && Room(rs[i], ans[i], us[i + 1], maxMem)
  }

  /** Memory in use never reached the limit, unless there was none in use. */
  ghost predicate Below(us: seq<int>, maxMem: int) {
    forall i :: 0 <= i < |us| ==> us[i] == 0 || us[i] < maxMem
  }

  lemma TraceCons(ts: seq<Timed>, us: seq<int>, rs: seq<Request>, i: nat, ans: seq<Answer>, a: Answer, t: Timed, u: int,
                  maxMem: int)
    requires i < |rs| && Trace(ts, us, rs[..i], ans, maxMem)
    requires Answers(ts[i], rs[i], a, t) && Room(rs[i], a, u, maxMem)
    ensures Trace(ts + [t], us + [u], rs[..i + 1], ans + [a], maxMem)
    ensures Below(us, maxMem) && (u == 0 || u < maxMem) ==> Below(us + [u], maxMem)
  {
    hide Answers, Room;
  }

  /** Over any sequence of requests that are timely when they come, every answer is that of the
      timed map as the requests before have left it, a listing is refused only for want of
      memory, accounts and table stay in step with the map, and memory in use stays below the
      limit all the time. */
  method ServeAll(b: DstBlacklist, rs: seq<Request>, maxMem: int, ghost from: int)
    returns (ans: seq<Answer>, ghost ts: seq<Timed>, ghost us: seq<int>)
    requires b.Valid(from) && TimelyRun(rs, b.timed, from)
    modifies b, b.buckets, b.entries
    ensures Trace(ts, us, rs, ans, maxMem) && ts[0] == old(b.timed) && us[0] == old(b.memUsed)
    ensures ts[|rs|] == b.timed && us[|rs|] == b.memUsed && b.Valid(EndOf(rs, from))
    ensures old(b.Within(maxMem)) ==> Below(us, maxMem)
  {
    hide Answers, Room, Timely, End, TableOk, StatsOk;
    ans, ts, us := [], [b.timed], [b.memUsed];
    var i := 0;
    assert rs[0..] == rs && EndOf(rs[..0], from) == from;
    while i < |rs|
      invariant i <= |rs| && |ts| == |us| == i + 1
      invariant b.Valid(EndOf(rs[..i], from)) && TimelyRun(rs[i..], b.timed, EndOf(rs[..i], from))
      invariant Trace(ts, us, rs[..i], ans, maxMem) && ts[0] == old(b.timed) && us[0] == old(b.memUsed)
      invariant ts[i] == b.timed && us[i] == b.memUsed
      invariant old(b.Within(maxMem)) ==> Below(us, maxMem) && b.Within(maxMem)
    {
      ghost var t := b.timed;
      assert rs[i..][0] == rs[i];
      var a := Serve(b, rs[i], maxMem, EndOf(rs[..i], from));
      TimelyNext(rs, i, t, from, a, b.timed);
      TraceCons(ts, us, rs, i, ans, a, b.timed, b.memUsed, maxMem);
      ans, ts, us := ans + [a], ts + [b.timed], us + [b.memUsed];
      i := i + 1;
    }
    assert rs[..i] == rs;
  }

  // ----- what a listing means for later lookups

  /** The first moment of a request. */
  function Begin(r: Request): int {
    if r.Clean? then if r.clock == [] then 0 else r.clock[0] else r.now
  }

  /** The requests from `i` to `j` begin no later than `at`. */
  ghost predicate Sooner(rs: seq<Request>, i: nat, j: nat, at: int)
    requires j <= |rs|
  {
    forall l :: i <= l < j ==> Begin(rs[l]) <= at
  }

  /** The request is a lookup, a clean-up, or about another destination. */
  predicate LeavesAlone(r: Request, d: Dst) {
    r.Ask? || r.Clean? || ((r.List? || r.Strike?) && r.d != d)
  }

  /** What the two maps say about the destination differs at most in what is due at `at`. */
  ghost predicate Agree(t: Timed, t': Timed, d: Dst, at: int) {
    && (forall k :: k in t && k.dst == d && t[k].due > at ==> k in t' && t'[k] == t[k])
    && (forall k :: k in t' && k.dst == d && t'[k].due > at ==> k in t && t[k] == t'[k])
  }

  lemma AloneStep(t: Timed, r: Request, a: Answer, t': Timed, d: Dst, at: int)
    requires Answers(t, r, a, t') && LeavesAlone(r, d) && Begin(r) <= at
    ensures Agree(t, t', d, at)
  {
  }

  lemma {:induction false} AloneRun(ts: seq<Timed>, us: seq<int>, rs: seq<Request>, ans: seq<Answer>, maxMem: int,
                                    i: nat, j: nat, d: Dst, at: int)
    requires Trace(ts, us, rs, ans, maxMem) && i <= j <= |rs| && Sooner(rs, i, j, at)
    requires forall l :: i <= l < j ==> LeavesAlone(rs[l], d)
    ensures Agree(ts[i], ts[j], d, at)
    decreases j - i
  {
    hide Answers, LeavesAlone, Begin, Room;
    if i < j {
      AloneStep(ts[i], rs[i], ans[i], ts[i + 1], d, at);
      AloneRun(ts, us, rs, ans, maxMem, i + 1, j, d, at);
    }
  }

  lemma AgreeLookup(t: Timed, t': Timed, d: Dst, proto: byte, at: int)
    requires Agree(t, t', d, at)
    ensures Find(t, d, proto, at) == Find(t', d, proto, at) && Lookup(t, d, proto, at) == Lookup(t', d, proto, at)
  {
    assert Live(t, Key(d, PROTO_NONE), at) == Live(t', Key(d, PROTO_NONE), at);
    assert Live(t, Key(d, proto), at) == Live(t', Key(d, proto), at);
  }

  /** All error flags but bit 0, which is for the address type, are among the others. */
  predicate Among(errFlags: bv8, flags: bv8) {
    errFlags & 0xfe & flags == errFlags & 0xfe
  }

  lemma FlagsKept(errFlags: bv8, typed: bv8, old_: bv8)
    requires typed | 1 == errFlags | 1
    ensures Among(errFlags, typed) && Among(errFlags, old_ | typed)
  {
  }

  /** What is listed is found until it is due. */
  lemma AddedIsFound(t: Timed, d: Dst, proto: byte, flags: bv8, due: int, now: int, later: int)
    requires proto != PROTO_NONE && now <= later < due
    ensures Lookup(Add(t, d, proto, flags, due, now), d, proto, later) ==
            if Find(t, d, proto, now).Some? then t[Find(t, d, proto, now).value].flags | flags else flags
  {
  }

  /** What a lookup said is what the map said; and a listing was an addition. */
  lemma AskedAt(ts: seq<Timed>, us: seq<int>, rs: seq<Request>, ans: seq<Answer>, maxMem: int, j: nat)
    requires Trace(ts, us, rs, ans, maxMem) && j < |rs| && rs[j].Ask?
    ensures ans[j].Flags?
    ensures rs[j].proto != PROTO_NONE ==> ans[j].flags == Lookup(ts[j], rs[j].d, rs[j].proto, rs[j].now)
  {
    assert Answers(ts[j], rs[j], ans[j], ts[j + 1]);
  }

  lemma ListedAt(ts: seq<Timed>, us: seq<int>, rs: seq<Request>, ans: seq<Answer>, maxMem: int, i: nat) returns (f: bv8)
    requires Trace(ts, us, rs, ans, maxMem) && i < |rs| && rs[i].List? && ans[i] == Code(0) && rs[i].proto != PROTO_NONE
    ensures f | 1 == rs[i].errFlags | 1
    ensures ts[i + 1] == Add(ts[i], rs[i].d, rs[i].proto, f, rs[i].now + rs[i].timeout, rs[i].now)
  {
    assert Answers(ts[i], rs[i], ans[i], ts[i + 1]);
    f := TypedFlags(rs[i].errFlags, rs[i].d.v6);
  }

  /** The lookup `j` asks for what was listed with success by `i`, and nothing in between was
      about that destination. */
  ghost predicate AsksFor(rs: seq<Request>, ans: seq<Answer>, i: nat, j: nat)
    requires i < j < |rs| == |ans|
  {
    && rs[i].List? && ans[i] == Code(0) && rs[j].Ask? && rs[j].d == rs[i].d && rs[j].proto == rs[i].proto != PROTO_NONE
    && (forall l :: i < l < j ==> LeavesAlone(rs[l], rs[i].d)) && Sooner(rs, i, j, rs[j].now)
  }

  lemma AskedLater(ts: seq<Timed>, us: seq<int>, rs: seq<Request>, ans: seq<Answer>, maxMem: int, i: nat, j: nat)
    returns (f: bv8, before: bv8)
    requires Trace(ts, us, rs, ans, maxMem) && i < j < |rs| && AsksFor(rs, ans, i, j)
    requires rs[j].now < rs[i].now + rs[i].timeout
    ensures f | 1 == rs[i].errFlags | 1 && ans[j] == Flags(before | f)
    ensures !Known(ts[i], rs[i].d, rs[i].proto, rs[i].now) ==> ans[j] == Flags(f)
  {
    hide Answers, Add, Among;
    AskedAt(ts, us, rs, ans, maxMem, j);
    f := ListedAt(ts, us, rs, ans, maxMem, i);
    AloneRun(ts, us, rs, ans, maxMem, i + 1, j, rs[i].d, rs[j].now);
    AgreeLookup(ts[i + 1], ts[j], rs[i].d, rs[i].proto, rs[j].now);
    AddedIsFound(ts[i], rs[i].d, rs[i].proto, f, rs[i].now + rs[i].timeout, rs[i].now, rs[j].now);
    var k := Find(ts[i], rs[i].d, rs[i].proto, rs[i].now);
    before := if k.Some? then ts[i][k.value].flags else 0;
    if k.None? { NoFlags(f); }
  }

  lemma NoFlags(f: bv8)
    ensures 0 | f == f
  {
  }

  /** A destination listed with success answers every later lookup, before it is due, with at
      least the flags it was listed with, and with just these if it was not listed before. */
  lemma ListedAnswers(ts: seq<Timed>, us: seq<int>, rs: seq<Request>, ans: seq<Answer>, maxMem: int, i: nat, j: nat)
    requires Trace(ts, us, rs, ans, maxMem) && i < j < |rs| && AsksFor(rs, ans, i, j)
    requires rs[j].now < rs[i].now + rs[i].timeout
    ensures ans[j].Flags? && Among(rs[i].errFlags, ans[j].flags)
    ensures !Known(ts[i], rs[i].d, rs[i].proto, rs[i].now) ==> ans[j].flags | 1 == rs[i].errFlags | 1
  {
    hide Answers, Among, LeavesAlone, Room, Known;
    var f, before := AskedLater(ts, us, rs, ans, maxMem, i, j);
    FlagsKept(rs[i].errFlags, f, before);
  }

  // ----- and after it is due

  /** At most one live key speaks for a destination and a protocol. */
  ghost predicate OneVoice(t: Timed, now: int) {
    forall d, q: byte :: q != PROTO_NONE ==> !(Live(t, Key(d, PROTO_NONE), now) && Live(t, Key(d, q), now))
  }

  /** The requests begin one after the other, the first at or after `from`. */
  ghost predicate InOrder(rs: seq<Request>, from: int) {
    && (rs != [] ==> from <= Begin(rs[0]))
    && forall i, j :: 0 <= i <= j < |rs| ==> Begin(rs[i]) <= Begin(rs[j])
  }

  lemma VoiceStep(t: Timed, r: Request, a: Answer, t': Timed, from: int)
    requires OneVoice(t, from) && Answers(t, r, a, t') && from <= Begin(r)
    ensures OneVoice(t', Begin(r))
  {
    forall d, q: byte | q != PROTO_NONE
      ensures !(Live(t', Key(d, PROTO_NONE), Begin(r)) && Live(t', Key(d, q), Begin(r)))
    {
      assert !(Live(t, Key(d, PROTO_NONE), from) && Live(t, Key(d, q), from));
    }
  }

  /** It stays so over a run. */
  lemma {:induction false} VoiceRun(ts: seq<Timed>, us: seq<int>, rs: seq<Request>, ans: seq<Answer>, maxMem: int,
                                    from: int, n: nat)
    requires Trace(ts, us, rs, ans, maxMem) && InOrder(rs, from) && OneVoice(ts[0], from) && n < |rs|
    ensures OneVoice(ts[n], Begin(rs[n]))
  {
    hide Answers, Room, Begin;
    if n > 0 {
      VoiceRun(ts, us, rs, ans, maxMem, from, n - 1);
      VoiceStep(ts[n - 1], rs[n - 1], ans[n - 1], ts[n], Begin(rs[n - 1]));
    }
  }

  /** From its due time on it is not listed any more. */
  lemma ListedNoLonger(ts: seq<Timed>, us: seq<int>, rs: seq<Request>, ans: seq<Answer>, maxMem: int, from: int,
                       i: nat, j: nat)
    requires Trace(ts, us, rs, ans, maxMem) && i < j < |rs| && AsksFor(rs, ans, i, j)
    requires InOrder(rs, from) && OneVoice(ts[0], from) && rs[j].now >= rs[i].now + rs[i].timeout
    ensures ans[j] == Flags(0)
  {
    VoiceRun(ts, us, rs, ans, maxMem, from, i);
    AskedAt(ts, us, rs, ans, maxMem, j);
    var f := ListedAt(ts, us, rs, ans, maxMem, i);
    AloneRun(ts, us, rs, ans, maxMem, i + 1, j, rs[i].d, rs[j].now);
    AgreeLookup(ts[i + 1], ts[j], rs[i].d, rs[i].proto, rs[j].now);
    ListedUntilDue(ts[i], rs[i].d, rs[i].proto, f, rs[i].now + rs[i].timeout, rs[i].now, rs[j].now);
  }
}
