/** The blacklist as it runs: a table of buckets with counters, edited in place. */
module BlacklistTable {
  import opened Options
  import opened Words
  import opened Blacklist

  const E_OUT_OF_MEM := -2
  /** The 250 ms that a clean-up forced by lack of memory may take, in ticks. */
  const CLEAN_TICKS := 4

  // ----- accounting

  /** Memory taken by the first `n` buckets. */
  function Total(bs: seq<seq<Entry>>, n: nat): nat
    requires n <= |bs|
  {
    if n == 0 then 0 else Total(bs, n - 1) + Size(bs[n - 1])
  }

  lemma {:induction false} TotalUpdate(bs: seq<seq<Entry>>, h: nat, b: seq<Entry>, n: nat)
    requires n <= |bs| && h < |bs|
    ensures Total(bs[h := b], n) == Total(bs, n) + if h < n then Size(b) - Size(bs[h]) else 0
  {
    if n > 0 {
      TotalUpdate(bs, h, b, n - 1);
    }
  }

  lemma {:induction false} EmptyTotal(bs: seq<seq<Entry>>, n: nat)
    requires n <= |bs| && forall h :: 0 <= h < |bs| ==> bs[h] == []
    ensures Total(bs, n) == 0
  {
    if n > 0 {
      EmptyTotal(bs, n - 1);
    }
  }

  /** How many entries the first `n` buckets hold. */
  function Number(bs: seq<seq<Entry>>, n: nat): nat
    requires n <= |bs|
  {
    if n == 0 then 0 else Number(bs, n - 1) + |bs[n - 1]|
  }

  lemma {:induction false} NumberUpdate(bs: seq<seq<Entry>>, h: nat, b: seq<Entry>, n: nat)
    requires n <= |bs| && h < |bs|
    ensures Number(bs[h := b], n) == Number(bs, n) + if h < n then |b| - |bs[h]| else 0
  {
    if n > 0 {
      NumberUpdate(bs, h, b, n - 1);
    }
  }

  ghost predicate StatsOk(bs: seq<seq<Entry>>, counts: seq<int>, mem: int) {
    && |bs| == |counts| == HASH_SIZE && mem == Total(bs, HASH_SIZE)
    && forall h :: 0 <= h < HASH_SIZE ==> counts[h] == |bs[h]|
  }

  // ----- the order of a clean-up

  /** The bucket a clean-up visits in its turn `j`, on a 32-bit counter. */
  function Visit(start: u32, j: nat): nat {
    (start + j) % M32 % HASH_SIZE
  }

  lemma ModMultiple(r: nat, q: nat)
    ensures (q * HASH_SIZE + r) % HASH_SIZE == r % HASH_SIZE
  {
  }

  /** The 32-bit wrap-around does not disturb the round, since 1024 divides 2^32. */
  lemma VisitMod(start: u32, j: nat)
    requires j < HASH_SIZE
    ensures
      var at := start % HASH_SIZE + j;
      Visit(start, j) == if at < HASH_SIZE then at else at - HASH_SIZE
  {
    var x, q: nat, r: nat := start + j, start / HASH_SIZE, start % HASH_SIZE;
    assert x == x / M32 * M32 + x % M32;
    assert M32 == 0x40_0000 * HASH_SIZE;
    ModMultiple(x % M32, x / M32 * 0x40_0000);
    ModMultiple(r + j, q);
  }

  /** From any 32-bit start, 1024 turns visit every bucket exactly once. */
  lemma VisitsOnce(start: u32, h: nat) returns (j: nat)
    requires h < HASH_SIZE
    ensures j < HASH_SIZE && Visit(start, j) == h
    ensures forall i: nat :: i < HASH_SIZE && Visit(start, i) == h ==> i == j
  {
    var r: nat := start % HASH_SIZE;
    j := if r <= h then h - r else h - r + HASH_SIZE;
    VisitMod(start, j);
    forall i: nat | i < HASH_SIZE && Visit(start, i) == h ensures i == j {
      VisitMod(start, i);
    }
  }

  class DstBlacklist {
    const buckets: array<seq<Entry>>
    const entries: array<int>
    var memUsed: int
    var start: u32
    const hash: Hash
    /** What the table stands for. */
    ghost var timed: Timed

    ghost predicate Stats()
      reads this, buckets, entries
    {
      StatsOk(buckets[..], entries[..], memUsed)
    }

    ghost predicate Valid(now: int)
      reads this, buckets, entries
    {
      Stats() && TableOk(buckets[..], timed, hash, now)
    }

    /** Memory is below the limit, unless there is none in use. */
    ghost predicate Within(maxMem: int)
      reads this
    {
      memUsed == 0 || memUsed < maxMem
    }

    constructor (hash: Hash)
      ensures Valid(0) && memUsed == 0 && timed == map[] && fresh(buckets) && fresh(entries)
    {
      buckets := new seq<Entry>[HASH_SIZE](_ => []);
      entries := new int[HASH_SIZE](_ => 0);
      memUsed, start, timed := 0, 0, map[];
      this.hash := hash;
      new;
      EmptyTotal(buckets[..], HASH_SIZE);
    }

    /** Unlinks and frees one entry. */
    method Unlink(h: nat, i: nat)
      requires Stats() && h < HASH_SIZE && i < |buckets[h]|
      modifies this`memUsed, buckets, entries
      ensures Stats() && memUsed < old(memUsed)
      ensures buckets[..] == old(buckets[..])[h := Cut(old(buckets[h]), i)]
    {
      ghost var bs := buckets[..];
      var e := buckets[h][i];
      CutSize(buckets[h], i);
      TotalUpdate(bs, h, Cut(buckets[h], i), HASH_SIZE);
      buckets[h] := Cut(buckets[h], i);
      memUsed := memUsed - EntrySize(e);
      entries[h] := entries[h] - 1;
      assert buckets[..] == bs[h := Cut(bs[h], i)];
    }

    /** The search through one bucket, removing expired entries on its way. */
    method Search(h: nat, d: Dst, proto: byte, now: u32) returns (pos: Option<nat>)
      requires Stats() && h < HASH_SIZE
      modifies this`memUsed, buckets, entries
      ensures Stats() && memUsed <= old(memUsed)
      ensures
        var r := Sweep(old(buckets[h]), 0, d, proto, now);
        buckets[..] == old(buckets[..])[h := r.0] && pos == r.1
    {
      ghost var bs := buckets[..];
      var i := 0;
      while i < |buckets[h]|
        invariant Stats() && 0 <= i <= |buckets[h]| && memUsed <= old(memUsed)
        invariant buckets[..] == bs[h := buckets[h]]
        invariant Sweep(bs[h], 0, d, proto, now) == Sweep(buckets[h], i, d, proto, now)
        decreases |buckets[h]| - i
      {
        if Expired(buckets[h][i], now) {
          Unlink(h, i);
        } else if Matches(buckets[h][i], d, proto) {
          return Some(i);
        } else {
          i := i + 1;
        }
      }
      pos := None;
    }

    /** The blacklist flags of a destination, zero if it is not listed. For a concrete
        protocol these are the flags the timed map gives, for the wildcard those of some
        live entry of the destination, if there is one. */
    method IsBlacklisted(d: Dst, proto: byte, now: int) returns (flags: bv8)
      requires Valid(now) && InWindow(buckets[HashOf(hash, d)], timed, now)
      modifies this`memUsed, buckets, entries
      ensures Valid(now) && memUsed <= old(memUsed)
      ensures proto != PROTO_NONE ==> flags == Lookup(timed, d, proto, now)
      ensures if exists q: byte :: ProtoMatch(q, proto) && Live(timed, Key(d, q), now)
              then exists q: byte :: ProtoMatch(q, proto) && Live(timed, Key(d, q), now)
                                   && timed[Key(d, q)].flags == flags
              else flags == 0
    {
      var h := hash(d.ip, d.port);
      flags := 0;
      SweepIsFind(buckets[..], timed, hash, now, d, proto);
      ghost var bs := buckets[..];
      if buckets[h] != [] {
        var pos := Search(h, d, proto, now % M32);
        if pos.Some? {
          flags := buckets[h][pos.value].flags;
          assert BucketOk(buckets[..][h], h, timed, hash);
          assert buckets[h][pos.value] in buckets[h];
        }
      }
    }

    // ----- clean-up

    /** Purges a bucket of what has expired at time `now`, unless memory is down to `target`
        before it is through; `no` counts the entries freed. */
    method PurgeBucket(h: nat, now: u32, target: int) returns (no: nat, cut: bool)
      requires Stats() && h < HASH_SIZE
      modifies this`memUsed, buckets, entries
      ensures Stats() && memUsed <= old(memUsed)
      ensures buckets[..] == old(buckets[..])[h := buckets[h]] && Swept(old(buckets[h]), buckets[h], now)
      ensures no == |old(buckets[h])| - |buckets[h]| && (cut <==> no > 0 && memUsed <= target)
      ensures !cut ==> buckets[h] == Purge(old(buckets[h]), 0, now)
    {
      ghost var bs := buckets[..];
      var i := 0;
      no, cut := 0, false;
      while i < |buckets[h]|
        invariant Stats() && 0 <= i <= |buckets[h]| && memUsed <= old(memUsed)
        invariant buckets[..] == bs[h := buckets[h]] && Swept(bs[h], buckets[h], now)
        invariant Purge(bs[h], 0, now) == Purge(buckets[h], i, now)
        invariant no == |bs[h]| - |buckets[h]| && !(no > 0 && memUsed <= target)
        decreases |buckets[h]| - i
      {
        if Expired(buckets[h][i], now) {
          CutMembers(buckets[h], i);
          CutSize(buckets[h], i);
          Unlink(h, i);
          no := no + 1;
          if memUsed <= target {
            return no, true;
          }
        } else {
          i := i + 1;
        }
      }
    }

    /** Cleans one bucket at time `now`. */
    method CleanBucket(h: nat, now: int, target: int, ghost first: int) returns (no: nat, cut: bool)
      requires Valid(now) && h < HASH_SIZE && first <= now && InWindow(buckets[h], timed, now)
      modifies this`memUsed, buckets, entries
      ensures Valid(now) && memUsed <= old(memUsed)
      ensures buckets[..] == old(buckets[..])[h := buckets[h]] && Shrunk(old(buckets[..]), buckets[..])
      ensures no == |old(buckets[h])| - |buckets[h]| && (cut <==> no > 0 && memUsed <= target)
      ensures !cut ==> CleanAt(buckets[..], timed, h, first)
    {
      ghost var bs := buckets[..];
      no, cut := PurgeBucket(h, now % M32, target);
      SweptKeepsTable(bs, timed, hash, now, h, buckets[h]);
      SweptShrinks(bs, buckets[..], h, now % M32);
      if !cut { PurgedIsClean(bs[h], h, timed, hash, now, first); }
    }

    /** One turn of a clean-up: cleans bucket `h` at clock reading `last` if there is anything
        in it, and then looks at the time. */
    method CleanTurn(h: nat, target: int, delta: nat, timeout: u32, clock: seq<int>, last: nat)
      returns (no: nat, cut: bool, last': nat)
      requires last + 1 < |clock| && Ascending(clock) && h < HASH_SIZE
      requires Valid(clock[last] + delta) && InWindow(buckets[h], timed, clock[last] + delta)
      modifies this`memUsed, buckets, entries
      ensures last <= last' <= last + 1 && Valid(clock[last'] + delta) && memUsed <= old(memUsed)
      ensures Shrunk(old(buckets[..]), buckets[..])
      ensures no == Number(old(buckets[..]), HASH_SIZE) - Number(buckets[..], HASH_SIZE)
      ensures last' == if old(buckets[h]) == [] || (no > 0 && memUsed <= target) then last else last + 1
      ensures cut <==> (no > 0 && memUsed <= target) || (last' > last && Elapsed(clock, last') >= timeout)
      ensures !cut || last' > last ==> CleanAt(buckets[..], timed, h, clock[0] + delta)
    {
      no, cut, last' := 0, false, last;
      if buckets[h] != [] {
        ghost var bs := buckets[..];
        no, cut := CleanBucket(h, clock[last] + delta, target, clock[0] + delta);
        NumberUpdate(bs, h, buckets[h], HASH_SIZE);
        if !cut {
          TimePasses(buckets[..], timed, hash, clock[last] + delta, clock[last + 1] + delta);
          last' := last + 1;
          cut := (clock[last'] % M32 - clock[0] % M32) % M32 >= timeout;
        }
      } else {
        ShrunkSame(buckets[..]);
      }
    }

    /** The next turn of a round that began with the buckets `bs`. */
    method CleanNext(h: nat, target: int, delta: nat, timeout: u32, clock: seq<int>, last: nat,
                     ghost bs: seq<seq<Entry>>, ghost first: u32, ghost turns: nat)
      returns (no: nat, cut: bool, last': nat)
      requires last + 1 < |clock| && Ascending(clock) && h == Visit(first, turns) && Valid(clock[last] + delta)
      requires Shrunk(bs, buckets[..]) && Window(bs, timed, clock[last] + delta)
      requires RoundClean(buckets[..], timed, first, turns, clock[0] + delta)
      modifies this`memUsed, buckets, entries
      ensures last <= last' <= last + 1 && Valid(clock[last'] + delta) && memUsed <= old(memUsed)
      ensures Shrunk(bs, buckets[..]) && RoundClean(buckets[..], timed, first, turns, clock[0] + delta)
      ensures no == Number(old(buckets[..]), HASH_SIZE) - Number(buckets[..], HASH_SIZE)
      ensures cut ==> (no > 0 && memUsed <= target) || (last' > last && Elapsed(clock, last') >= timeout)
      ensures !cut || last' > last ==> RoundClean(buckets[..], timed, first, turns + 1, clock[0] + delta)
    {
      ghost var bs1 := buckets[..];
      ShrunkWindow(bs, bs1, timed, clock[last] + delta, h);
      no, cut, last' := CleanTurn(h, target, delta, timeout, clock, last);
      TurnDone(bs, bs1, buckets[..], timed, first, turns, clock[0] + delta);
    }

    /** Time ran out behind the bucket of turn `turns`, which is clean like those before it. */
    ghost predicate TimedOut(first: u32, turns: nat, delta: nat, timeout: u32, clock: seq<int>, last: nat)
      requires last < |clock|
      reads this, buckets
    {
      && 0 < last && Elapsed(clock, last) >= timeout
      && RoundClean(buckets[..], timed, first, turns + 1, clock[0] + delta)
    }

    /** Frees expired entries, starting where the last call stopped, until memory is down to
        `target`, time runs out or every bucket was visited. `clock` gives the successive
        readings of the tick counter, of which `last` is the last one looked at, one for each
        bucket at most. The first `turns` buckets of the round hold nothing that was due when
        the call began, nor does the next one if time ran out behind it, and the next call
        starts behind them; `no` entries were freed. */
    method CleanExpired(target: int, delta: nat, timeout: u32, clock: seq<int>)
      returns (no: nat, cut: bool, last: nat, ghost turns: nat)
      requires |clock| > HASH_SIZE && Ascending(clock) && Valid(clock[0] + delta)
      requires forall i :: 0 <= i < |clock| ==> Window(buckets[..], timed, clock[i] + delta)
      modifies this`memUsed, this`start, buckets, entries
      ensures last < |clock| && Valid(clock[last] + delta) && memUsed <= old(memUsed)
      ensures Shrunk(old(buckets[..]), buckets[..])
      ensures no == Number(old(buckets[..]), HASH_SIZE) - Number(buckets[..], HASH_SIZE)
      ensures turns <= HASH_SIZE && start == (old(start) + turns) % M32 && (cut <==> turns < HASH_SIZE)
      ensures RoundClean(buckets[..], timed, old(start), turns, clock[0] + delta)
      ensures last <= turns + if cut then 1 else 0
      ensures cut ==> (no > 0 && memUsed <= target) || TimedOut(old(start), turns, delta, timeout, clock, last)
      ensures !cut ==> AllClean(buckets[..], timed, clock[0] + delta)
    {
      ghost var bs := buckets[..];
      turns := 0;
      no, cut, last := 0, false, 0;
      ShrunkSame(bs);
      var first := start;
      var h, stop := first, Add32(first, HASH_SIZE);
      Turns(first, 0);
      while h != stop && !cut
        invariant turns <= HASH_SIZE && h == (first + turns) % M32 && (h == stop <==> turns == HASH_SIZE)
        invariant last <= turns + (if cut then 1 else 0) && (cut ==> turns < HASH_SIZE)
        invariant Valid(clock[last] + delta) && memUsed <= old(memUsed) && Shrunk(bs, buckets[..])
        invariant no == Number(bs, HASH_SIZE) - Number(buckets[..], HASH_SIZE)
        invariant cut ==> (no > 0 && memUsed <= target) || TimedOut(first, turns, delta, timeout, clock, last)
        invariant RoundClean(buckets[..], timed, first, turns, clock[0] + delta)
        decreases HASH_SIZE - turns, !cut
      {
        var n;
        n, cut, last := CleanNext(h % HASH_SIZE, target, delta, timeout, clock, last, bs, first, turns);
        no := no + n;
        if !cut {
          Turns(first, turns + 1);
          h := Add32(h, 1);
          turns := turns + 1;
        }
      }
      if !cut {
        AllVisited(buckets[..], timed, first, clock[0] + delta);
      }
      start := h;
    }

    // ----- listing a destination

    /** Replaces a stored entry by one with the same key. */
    method Replace(h: nat, i: nat, e': Entry, due: int, ghost now: int)
      requires Valid(now) && h < HASH_SIZE && i < |buckets[h]| && KeyOf(e') == KeyOf(buckets[h][i])
      requires e'.expire == due % M32
      modifies this`timed, buckets
      ensures Valid(now) && timed == old(timed)[KeyOf(e') := Val(e'.flags, due)]
    {
      ghost var bs := buckets[..];
      ReplaceKeepsTable(bs, timed, hash, now, h, i, e', due);
      CutSizeSame(bs[h], i, e');
      TotalUpdate(bs, h, bs[h][i := e'], HASH_SIZE);
      buckets[h] := buckets[h][i := e'];
      timed := timed[KeyOf(e') := Val(e'.flags, due)];
      assert buckets[..] == bs[h := bs[h][i := e']];
    }

    /** Merges new flags into a stored entry and prolongs it. */
    method Prolong(h: nat, i: nat, flags: bv8, due: int, ghost now: int)
      requires Valid(now) && h < HASH_SIZE && i < |buckets[h]| && IsV6(flags) == IsV6(buckets[h][i].flags)
      modifies this`timed, buckets
      ensures Valid(now)
      ensures KeyOf(old(buckets[h])[i]) in old(timed)
      ensures timed == Merge(old(timed), KeyOf(old(buckets[h])[i]), flags, due)
    {
      var e := buckets[h][i];
      MergedType(e.flags, flags);
      assert BucketOk(buckets[..][h], h, timed, hash) && e in buckets[h] && EntryOk(e, h, timed, hash);
      Replace(h, i, Merged(e, flags, due), due, now);
    }

    /** Puts a new entry at the head of its bucket. */
    method Insert(h: nat, e: Entry, due: int, ghost now: int)
      requires Valid(now) && h == HashOf(hash, DstOf(e)) && e.expire == due % M32
      requires forall f :: f in buckets[h] ==> !Matches(f, DstOf(e), e.proto)
      modifies this`timed, this`memUsed, buckets, entries
      ensures Valid(now) && memUsed == old(memUsed) + EntrySize(e)
      ensures timed == old(timed)[KeyOf(e) := Val(e.flags, due)]
    {
      ghost var bs := buckets[..];
      InsertKeepsTable(bs, timed, hash, now, h, e, due);
      SizeSame([e] + bs[h], 1, bs[h], 0);
      TotalUpdate(bs, h, [e] + bs[h], HASH_SIZE);
      memUsed := memUsed + EntrySize(e);
      buckets[h] := [e] + buckets[h];
      entries[h] := entries[h] + 1;
      timed := timed[KeyOf(e) := Val(e.flags, due)];
      assert buckets[..] == bs[h := [e] + bs[h]];
    }

    /** A clean-up that began with bucket `first` at the first clock reading went as far as it
        should: all it found expired is gone, or memory is down from `before` by an eighth, or
        time ran out at reading `last` and as many buckets are clean. */
    ghost predicate CleanedUp(before: int, first: u32, clock: seq<int>, last: nat)
      requires last < |clock|
      reads this, buckets
    {
      || AllClean(buckets[..], timed, clock[0]) || memUsed <= before / 16 * 14
      || (last > 0 && TimedOut(first, last - 1, 0, CLEAN_TICKS, clock, last))
    }

    /** Checks the memory limit, if need be after a clean-up. */
    method MakeRoom(size: nat, maxMem: int, clock: seq<int>) returns (ok: bool, last: nat)
      requires |clock| > HASH_SIZE && Ascending(clock) && Valid(clock[0])
      requires forall i :: 0 <= i < |clock| ==> Window(buckets[..], timed, clock[i])
      modifies this`memUsed, this`start, buckets, entries
      ensures last < |clock| && Valid(clock[last]) && Shrunk(old(buckets[..]), buckets[..])
      ensures memUsed <= old(memUsed) && (ok <==> memUsed + size < maxMem)
      ensures if old(memUsed) + size < maxMem then buckets[..] == old(buckets[..]) && start == old(start) && last == 0
              else CleanedUp(old(memUsed), old(start), clock, last)
    {
      last := 0;
      ShrunkSame(buckets[..]);
      ok := memUsed + size < maxMem;
      if !ok {
        ShrunkWindows(buckets[..], buckets[..], timed, clock);
        var no, cut;
        ghost var turns;
        no, cut, last, turns := CleanExpired(memUsed / 16 * 14, 0, CLEAN_TICKS, clock);
        ok := memUsed + size < maxMem;
      }
    }

    /** Looks a destination up in its bucket. */
    method Locate(d: Dst, proto: byte, now: int) returns (pos: Option<nat>)
      requires Valid(now) && InWindow(buckets[HashOf(hash, d)], timed, now)
      modifies this`memUsed, buckets, entries
      ensures Valid(now) && Found(buckets[HashOf(hash, d)], pos, timed, d, proto, now)
      ensures memUsed <= old(memUsed) && Shrunk(old(buckets[..]), buckets[..])
    {
      var h := hash(d.ip, d.port);
      ghost var bs := buckets[..];
      SweepIsFind(bs, timed, hash, now, d, proto);
      pos := Search(h, d, proto, now % M32);
      SweptShrinks(bs, buckets[..], h, now % M32);
    }

    /** Lists a destination: a live entry is merged and prolonged, otherwise a new one is
        made if there is room, if need be after a clean-up. The search looks at the clock at
        `now`, the clean-up at the readings `clock`. */
    method AddIp(errFlags: bv8, proto: byte, d: Dst, timeout: nat, maxMem: int, now: int, clock: seq<int>,
                 allocOk: bool)
      returns (ret: int, last: nat)
      requires |clock| > HASH_SIZE && Ascending(clock) && now <= clock[0] && Valid(now)
      requires Window(buckets[..], timed, now) && forall i :: 0 <= i < |clock| ==> Window(buckets[..], timed, clock[i])
      modifies this, buckets, entries
      ensures last < |clock| && Valid(clock[last])
      ensures Listed(old(timed), timed, ret, d, proto, TypedFlags(errFlags, d.v6), now + timeout, now)
      ensures (exists q: byte :: ProtoMatch(q, proto) && Live(old(timed), Key(d, q), now)) ==> ret == 0
      ensures ret == 0 || Refused(ret, old(memUsed), old(start), DstSize(d), maxMem, clock, last, allocOk)
      ensures old(memUsed) + DstSize(d) < maxMem ==> last == 0
      ensures old(Within(maxMem)) ==> Within(maxMem)
    {
      var flags, due := TypedFlags(errFlags, d.v6), now + timeout;
      var h := hash(d.ip, d.port);
      ghost var bs := buckets[..];
      ghost var t := timed;
      var pos := Locate(d, proto, now);
      ghost var left := buckets[h];
      hide TableOk, StatsOk, Window, Listed, CleanedUp, Shrunk;
      if pos.Some? {
        assert KeyOf(left[pos.value]) in t && IsV6(flags) == IsV6(left[pos.value].flags);
        hide Found;
        Prolong(h, pos.value, flags, due, now);
        FoundIsListed(left, pos.value, t, d, proto, flags, due, now);
        TimePasses(buckets[..], timed, hash, now, clock[0]);
        return 0, 0;
      }
      NoneIsListed(left, t, d, proto, flags, due, now);
      hide Found;
      ret, last := AddNew(Entry(due % M32, d.port, proto, flags, d.ip), due, maxMem, now, clock, allocOk,
                          bs, old(memUsed));
    }

    /** Why a destination is not listed: there is no room for it, not even after a clean-up
        (which starts from no more than `before`), or there is and the allocation failed. */
    ghost predicate Refused(ret: int, before: int, first: u32, size: nat, maxMem: int, clock: seq<int>, last: nat,
                            allocOk: bool)
      requires last < |clock|
      reads this, buckets
    {
      || (ret == -1 && memUsed + size >= maxMem && CleanedUp(before, first, clock, last))
      || (ret == E_OUT_OF_MEM && memUsed + size < maxMem && !allocOk)
    }

    /** Makes a new entry for a destination that has no live one. */
    method AddNew(e: Entry, due: int, maxMem: int, ghost now: int, clock: seq<int>, allocOk: bool,
                  ghost bs: seq<seq<Entry>>, ghost before: int)
      returns (ret: int, last: nat)
      requires |clock| > HASH_SIZE && Ascending(clock) && now <= clock[0] && Valid(now) && e.expire == due % M32
      requires Shrunk(bs, buckets[..]) && forall i :: 0 <= i < |clock| ==> Window(bs, timed, clock[i])
      requires forall f :: f in buckets[HashOf(hash, DstOf(e))] ==> !Matches(f, DstOf(e), e.proto)
      requires memUsed <= before
      modifies this, buckets, entries
      ensures last < |clock| && Valid(clock[last])
      ensures ret == 0 || Refused(ret, before, old(start), EntrySize(e), maxMem, clock, last, allocOk)
      ensures before + EntrySize(e) < maxMem ==> last == 0
      ensures timed == if ret == 0 then old(timed)[KeyOf(e) := Val(e.flags, due)] else old(timed)
      ensures old(Within(maxMem)) ==> Within(maxMem)
    {
      ghost var bs1 := buckets[..];
      ShrunkWindows(bs, bs1, timed, clock);
      TimePasses(bs1, timed, hash, now, clock[0]);
      var h := HashOf(hash, DstOf(e));
      var ok;
      EighthLess(memUsed, before);
      ok, last := MakeRoom(EntrySize(e), maxMem, clock);
      if !ok {
        return -1, last;
      }
      if !allocOk {
        return E_OUT_OF_MEM, last;
      }
      assert ShrunkAt(bs1, buckets[..], h);
      Insert(h, e, due, clock[last]);
      ret := 0;
    }

    /** Takes the first live match out; for a concrete protocol that is the one the timed
        map knows, for the wildcard it is exactly one live key of the destination. */
    method Delete(d: Dst, proto: byte, now: int) returns (found: bool)
      requires Valid(now) && InWindow(buckets[HashOf(hash, d)], timed, now)
      modifies this`timed, this`memUsed, buckets, entries
      ensures Valid(now) && memUsed <= old(memUsed)
      ensures proto != PROTO_NONE ==>
                var k := Find(old(timed), d, proto, now);
                found == k.Some? && timed == if k.Some? then old(timed) - {k.value} else old(timed)
      ensures found <==> exists q: byte :: ProtoMatch(q, proto) && Live(old(timed), Key(d, q), now)
      ensures if found
              then exists q: byte :: ProtoMatch(q, proto) && Live(old(timed), Key(d, q), now)
                                     && timed == old(timed) - {Key(d, q)}
              else timed == old(timed)
    {
      var h := hash(d.ip, d.port);
      SweepIsFind(buckets[..], timed, hash, now, d, proto);
      found := false;
      if buckets[h] != [] {
        var pos := Search(h, d, proto, now % M32);
        if pos.Some? {
          CutKeepsTable(buckets[..], timed, hash, now, h, pos.value);
          ghost var k := KeyOf(buckets[h][pos.value]);
          Unlink(h, pos.value);
          timed := timed - {k};
          found := true;
        }
      }
    }

    // ----- flush

    /** Removes the entries of one bucket that are not permanent, and only those. */
    method FlushBucket(h: nat)
      requires Stats() && h < HASH_SIZE
      modifies this`memUsed, buckets, entries
      ensures Stats() && memUsed <= old(memUsed)
      ensures buckets[..] == old(buckets[..])[h := buckets[h]]
      ensures Permanent(old(buckets[h]), buckets[h])
    {
      ghost var bs := buckets[..];
      var i := 0;
      while i < |buckets[h]|
        invariant Stats() && 0 <= i <= |buckets[h]| && memUsed <= old(memUsed)
        invariant buckets[..] == bs[h := buckets[h]]
        invariant (forall e :: e in buckets[h] ==> e in bs[h]) && (NoClash(bs[h]) ==> NoClash(buckets[h]))
        invariant forall e :: e in bs[h] && IsPermanent(e.flags) ==> e in buckets[h]
        invariant forall j :: 0 <= j < i ==> IsPermanent(buckets[h][j].flags)
        decreases |buckets[h]| - i
      {
        if !IsPermanent(buckets[h][i].flags) {
          CutMembers(buckets[h], i);
          Unlink(h, i);
        } else {
          i := i + 1;
        }
      }
    }

    /** Removes all entries but the permanent ones. */
    method Flush(ghost now: int)
      requires Valid(now)
      modifies this`timed, this`memUsed, buckets, entries
      ensures Valid(now) && memUsed <= old(memUsed)
      ensures Flushed(old(buckets[..]), buckets[..], HASH_SIZE)
      ensures timed == map k | k in old(timed) && IsPermanent(old(timed)[k].flags) :: old(timed)[k]
    {
      ghost var bs := buckets[..];
      var h: nat := 0;
      forall g {:trigger FlushedAt(bs, buckets[..], 0, g)} ensures FlushedAt(bs, buckets[..], 0, g) {
      }
      while h < HASH_SIZE
        invariant Stats() && 0 <= h <= HASH_SIZE && memUsed <= old(memUsed)
        invariant Flushed(bs, buckets[..], h) && timed == old(timed)
      {
        ghost var bs1 := buckets[..];
        assert FlushedAt(bs, bs1, h, h);
        FlushBucket(h);
        forall g {:trigger FlushedAt(bs, buckets[..], h + 1, g)} ensures FlushedAt(bs, buckets[..], h + 1, g) {
          assert FlushedAt(bs, bs1, h, g);
        }
        h := h + 1;
      }
      FlushKeepsTable(bs, buckets[..], timed, hash, now);
      timed := map k | k in timed && IsPermanent(timed[k].flags) :: timed[k];
    }
  }

  /** `b` holds exactly the permanent entries of `a`. */
  ghost predicate Permanent(a: seq<Entry>, b: seq<Entry>) {
    (forall e :: e in b <==> e in a && IsPermanent(e.flags)) && (NoClash(a) ==> NoClash(b))
  }

  /** A flush that has done the buckets below `h`. */
  ghost predicate FlushedAt(a: seq<seq<Entry>>, b: seq<seq<Entry>>, h: nat, g: int) {
    0 <= g < |a| && g < |b| ==> if g < h then Permanent(a[g], b[g]) else b[g] == a[g]
  }

  ghost predicate Flushed(a: seq<seq<Entry>>, b: seq<seq<Entry>>, h: nat) {
    |a| == |b| && forall g :: FlushedAt(a, b, h, g)
  }

  lemma FlushKeepsTable(a: seq<seq<Entry>>, b: seq<seq<Entry>>, t: Timed, hash: Hash, now: int)
    requires TableOk(a, t, hash, now) && Flushed(a, b, HASH_SIZE)
    ensures TableOk(b, map k | k in t && IsPermanent(t[k].flags) :: t[k], hash, now)
  {
    var t' := map k | k in t && IsPermanent(t[k].flags) :: t[k];
    forall h | 0 <= h < HASH_SIZE ensures BucketOk(b[h], h, t', hash) {
      assert BucketOk(a[h], h, t, hash) && FlushedAt(a, b, HASH_SIZE, h);
      forall e | e in b[h] ensures EntryOk(e, h, t', hash) {
        assert EntryOk(e, h, t, hash);
      }
    }
    forall k | k in t' && t'[k].due > now ensures HasKey(b[HashOf(hash, k.dst)], k) {
      var h := HashOf(hash, k.dst);
      var e :| e in a[h] && KeyOf(e) == k;
      assert BucketOk(a[h], h, t, hash) && EntryOk(e, h, t, hash) && FlushedAt(a, b, HASH_SIZE, h);
      assert e in b[h];
    }
  }

  lemma EighthLess(a: int, b: int)
    requires a <= b
    ensures a / 16 * 14 <= b / 16 * 14
  {
  }

  function DstSize(d: Dst): nat {
    if d.v6 then ENTRY_SIZE + 12 else ENTRY_SIZE
  }

  /** How listing a destination changes the timed map: as `Add` says for a concrete protocol;
      for the wildcard some live entry of the destination is merged, if there is one. */
  ghost predicate Listed(a: Timed, b: Timed, ret: int, d: Dst, proto: byte, flags: bv8, due: int, now: int) {
    if ret != 0 then b == a
    else if proto != PROTO_NONE then b == Add(a, d, proto, flags, due, now)
    else
      || (exists q: byte :: Live(a, Key(d, q), now) && b == Merge(a, Key(d, q), flags, due))
      || (b == a[Key(d, proto) := Val(flags, due)] && forall q: byte :: !Live(a, Key(d, q), now))
  }

  lemma FoundIsListed(left: seq<Entry>, i: nat, t: Timed, d: Dst, proto: byte, flags: bv8, due: int, now: int)
    requires i < |left| && Found(left, Some(i), t, d, proto, now) && KeyOf(left[i]) in t
    ensures Listed(t, Merge(t, KeyOf(left[i]), flags, due), 0, d, proto, flags, due, now)
  {
  }

  lemma NoneIsListed(left: seq<Entry>, t: Timed, d: Dst, proto: byte, flags: bv8, due: int, now: int)
    requires Found(left, None, t, d, proto, now)
    ensures forall e :: e in left ==> !Matches(e, d, proto)
    ensures forall q: byte :: ProtoMatch(q, proto) ==> !Live(t, Key(d, q), now)
    ensures Listed(t, t[Key(d, proto) := Val(flags, due)], 0, d, proto, flags, due, now)
    ensures forall ret :: ret != 0 ==> Listed(t, t, ret, d, proto, flags, due, now)
  {
  }

  lemma {:induction false} ReplaceSize(list: seq<Entry>, i: nat, e: Entry, j: nat)
    requires i < |list| && EntrySize(e) == EntrySize(list[i])
    ensures SizeFrom(list[i := e], j) == SizeFrom(list, j)
    decreases |list| - j
  {
    if j < |list| {
      ReplaceSize(list, i, e, j + 1);
    }
  }

  lemma CutSizeSame(list: seq<Entry>, i: nat, e: Entry)
    requires i < |list| && KeyOf(e) == KeyOf(list[i])
    ensures Size(list[i := e]) == Size(list)
  {
    ReplaceSize(list, i, e, 0);
  }

  lemma SweptShrinks(a: seq<seq<Entry>>, b: seq<seq<Entry>>, h: nat, now: u32)
    requires h < |a| && |b| == |a| && b == a[h := b[h]] && Swept(a[h], b[h], now)
    ensures Shrunk(a, b)
  {
    forall g {:trigger ShrunkAt(a, b, g)} ensures ShrunkAt(a, b, g) {
    }
  }

  lemma ShrunkWindows(a: seq<seq<Entry>>, b: seq<seq<Entry>>, t: Timed, clock: seq<int>)
    requires Shrunk(a, b) && forall i :: 0 <= i < |clock| ==> Window(a, t, clock[i])
    ensures forall i :: 0 <= i < |clock| ==> Window(b, t, clock[i] + 0)
  {
    forall i | 0 <= i < |clock| ensures Window(b, t, clock[i] + 0) {
      assert Window(a, t, clock[i]);
      forall h | 0 <= h < |b| ensures InWindow(b[h], t, clock[i]) {
        ShrunkWindow(a, b, t, clock[i], h);
      }
    }
  }

  ghost predicate Ascending(clock: seq<int>) {
    forall i, j :: 0 <= i <= j < |clock| ==> clock[i] <= clock[j]
  }

  /** All entries of a table are in the window of a clock reading. */
  ghost predicate Window(bs: seq<seq<Entry>>, t: Timed, now: int) {
    forall h :: 0 <= h < |bs| ==> InWindow(bs[h], t, now)
  }

  /** Bucket `h` holds nothing that was due at `now`. */
  ghost predicate CleanAt(bs: seq<seq<Entry>>, t: Timed, h: int, now: int) {
    0 <= h < |bs| ==> forall e :: e in bs[h] ==> KeyOf(e) in t && t[KeyOf(e)].due > now
  }

  ghost predicate AllClean(bs: seq<seq<Entry>>, t: Timed, now: int) {
    forall h :: CleanAt(bs, t, h, now)
  }

  /** The first `j` buckets of a round are clean. */
  ghost predicate RoundClean(bs: seq<seq<Entry>>, t: Timed, start: u32, j: nat, now: int) {
    forall i :: 0 <= i < j ==> CleanAt(bs, t, Visit(start, i), now)
  }

  lemma RoundKept(a: seq<seq<Entry>>, b: seq<seq<Entry>>, t: Timed, start: u32, j: nat, now: int)
    requires RoundClean(a, t, start, j, now) && Shrunk(a, b)
    ensures RoundClean(b, t, start, j, now)
  {
    forall i | 0 <= i < j ensures CleanAt(b, t, Visit(start, i), now) {
      assert CleanAt(a, t, Visit(start, i), now) && ShrunkAt(a, b, Visit(start, i));
    }
  }

  lemma TurnDone(a: seq<seq<Entry>>, b: seq<seq<Entry>>, c: seq<seq<Entry>>, t: Timed, start: u32, j: nat, now: int)
    requires Shrunk(a, b) && Shrunk(b, c) && RoundClean(b, t, start, j, now)
    ensures Shrunk(a, c) && RoundClean(c, t, start, j, now)
    ensures CleanAt(c, t, Visit(start, j), now) ==> RoundClean(c, t, start, j + 1, now)
  {
    ShrunkTwice(a, b, c);
    RoundKept(b, c, t, start, j, now);
  }

  /** How long ago, on the wrapping counter, the first clock reading was. */
  function Elapsed(clock: seq<int>, i: nat): u32
    requires i < |clock|
  {
    (clock[i] % M32 - clock[0] % M32) % M32
  }

  /** The difference of the wrapped readings is the time that has passed, if that is less than
      the range. */
  lemma ElapsedIs(clock: seq<int>, i: nat)
    requires i < |clock| && 0 <= clock[i] - clock[0] < M32
    ensures Elapsed(clock, i) == clock[i] - clock[0]
  {
    SubMod32(clock[i], clock[0]);
  }

  lemma PurgedIsClean(b: seq<Entry>, h: nat, t: Timed, hash: Hash, now: int, first: int)
    requires BucketOk(b, h, t, hash) && InWindow(b, t, now) && first <= now
    ensures forall e :: e in Purge(b, 0, now % M32) ==> KeyOf(e) in t && t[KeyOf(e)].due > first
  {
    PurgeRemoves(b, 0, now % M32);
    forall e | e in Purge(b, 0, now % M32) ensures KeyOf(e) in t && t[KeyOf(e)].due > first {
      assert EntryOk(e, h, t, hash);
      ExpiredIsDue(e, t[KeyOf(e)].due, now);
    }
  }

  ghost predicate ShrunkAt(a: seq<seq<Entry>>, b: seq<seq<Entry>>, h: int) {
    0 <= h < |a| && h < |b| ==> forall e :: e in b[h] ==> e in a[h]
  }

  /** Entries only went away. */
  ghost predicate Shrunk(a: seq<seq<Entry>>, b: seq<seq<Entry>>) {
    |a| == |b| && forall h :: ShrunkAt(a, b, h)
  }

  lemma ShrunkSame(a: seq<seq<Entry>>)
    ensures Shrunk(a, a)
  {
    forall h {:trigger ShrunkAt(a, a, h)} ensures ShrunkAt(a, a, h) {
    }
  }

  lemma ShrunkTwice(a: seq<seq<Entry>>, b: seq<seq<Entry>>, c: seq<seq<Entry>>)
    requires Shrunk(a, b) && Shrunk(b, c)
    ensures Shrunk(a, c)
  {
    forall h {:trigger ShrunkAt(a, c, h)} ensures ShrunkAt(a, c, h) {
      assert ShrunkAt(a, b, h) && ShrunkAt(b, c, h);
    }
  }

  lemma ShrunkWindow(a: seq<seq<Entry>>, b: seq<seq<Entry>>, t: Timed, now: int, h: nat)
    requires Shrunk(a, b) && h < |a| && InWindow(a[h], t, now)
    ensures InWindow(b[h], t, now)
  {
    assert ShrunkAt(a, b, h);
  }

  /** The counter after `j` turns, and when it meets its end. */
  lemma Turns(start: u32, j: nat)
    requires j <= HASH_SIZE
    ensures j > 0 ==> Add32((start + (j - 1)) % M32, 1) == (start + j) % M32
    ensures (start + j) % M32 == Add32(start, HASH_SIZE) <==> j == HASH_SIZE
  {
    if j > 0 {
      AddMod32(start + (j - 1), 1);
    }
    EqualUnwrapped(start + j, start + HASH_SIZE);
  }

  lemma AllVisited(bs: seq<seq<Entry>>, t: Timed, start: u32, now: int)
    requires |bs| == HASH_SIZE
    requires RoundClean(bs, t, start, HASH_SIZE, now)
    ensures AllClean(bs, t, now)
  {
    forall h {:trigger CleanAt(bs, t, h, now)} ensures CleanAt(bs, t, h, now) {
      if 0 <= h < HASH_SIZE {
        var i := VisitsOnce(start, h);
        assert CleanAt(bs, t, Visit(start, i), now);
      }
    }
  }
}
