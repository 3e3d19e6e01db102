/** The destination blacklist: lists of entries that expire lazily on a wrapping clock,
    and the timed map they stand for. */
module Blacklist {
  import opened Options
  import opened Words

  const HASH_SIZE := 1024
  const PROTO_NONE := 0

  /** `sizeof(struct dst_blst_entry)` on a 64-bit machine. */
  const ENTRY_SIZE := 24

  const BLST_IS_IPV6: bv8 := 1
  const BLST_PERMANENT: bv8 := 0x80

  /** A destination without its protocol. */
  datatype Dst = Dst(v6: bool, ip: seq<byte>, port: u16)

  datatype Entry = Entry(expire: u32, port: u16, proto: byte, flags: bv8, ip: seq<byte>)

  /** What an entry is about. */
  datatype Key = Key(dst: Dst, proto: byte)

  /** The bucket number; any function of address and port into the table will do. */
  type Hash = f: (seq<byte>, u16) -> nat | forall ip, port :: f(ip, port) < HASH_SIZE
    witness (ip: seq<byte>, port: u16) => 0

  predicate IsPermanent(flags: bv8) {
    flags & BLST_PERMANENT != 0
  }

  predicate IsV6(flags: bv8) {
    flags & BLST_IS_IPV6 == BLST_IS_IPV6
  }

  function DstOf(e: Entry): Dst {
    Dst(IsV6(e.flags), e.ip, e.port)
  }

  function KeyOf(e: Entry): Key {
    Key(DstOf(e), e.proto)
  }

  /** Protocols match if they are the same or one of them is the wildcard. */
  predicate ProtoMatch(a: byte, b: byte) {
    a == PROTO_NONE || b == PROTO_NONE || a == b
  }

  predicate Matches(e: Entry, d: Dst, proto: byte) {
    DstOf(e) == d && ProtoMatch(e.proto, proto)
  }

  /** The signed 32-bit test of the source. */
  predicate Expired(e: Entry, now: u32) {
    Signed32((now - e.expire) % M32) >= 0
  }

  function EntrySize(e: Entry): nat {
    if IsV6(e.flags) then ENTRY_SIZE + 12 else ENTRY_SIZE
  }

  // ----- one bucket

  function Cut(list: seq<Entry>, i: nat): seq<Entry>
    requires i < |list|
  {
    list[..i] + list[i + 1..]
  }

  /** The search of `_dst_blacklist_lst_find` from position `i` on: drops expired entries on
      its way and stops at the first live match. */
  function Sweep(list: seq<Entry>, i: nat, d: Dst, proto: byte, now: u32): (r: (seq<Entry>, Option<nat>))
    ensures r.1.Some? ==> r.1.value < |r.0|
    decreases |list| - i
  {
    if i >= |list| then (list, None)
    else if Expired(list[i], now) then Sweep(Cut(list, i), i, d, proto, now)
    else if Matches(list[i], d, proto) then (list, Some(i))
    else Sweep(list, i + 1, d, proto, now)
  }

  /** All expired entries gone, as a sweep over the whole list leaves it. */
  function Purge(list: seq<Entry>, i: nat, now: u32): seq<Entry>
    decreases |list| - i
  {
    if i >= |list| then list
    else if Expired(list[i], now) then Purge(Cut(list, i), i, now)
    else Purge(list, i + 1, now)
  }

  /** No two entries of a list match each other. */
  ghost predicate NoClash(list: seq<Entry>) {
    forall i, j :: 0 <= i < j < |list| ==> !Matches(list[i], DstOf(list[j]), list[j].proto)
  }

  /** `b` is `a` without some entries that had expired. */
  ghost predicate Swept(a: seq<Entry>, b: seq<Entry>, now: u32) {
    && (forall e :: e in b ==> e in a)
    && (forall e :: e in a && !Expired(e, now) ==> e in b)
    && (NoClash(a) ==> NoClash(b))
    && Size(b) <= Size(a) && |b| <= |a|
  }

  function Size(list: seq<Entry>): nat {
    SizeFrom(list, 0)
  }

  /** Memory taken by the entries from position `i` on. */
  function SizeFrom(list: seq<Entry>, i: nat): nat
    decreases |list| - i
  {
    if i >= |list| then 0 else EntrySize(list[i]) + SizeFrom(list, i + 1)
  }

  function SixFrom(list: seq<Entry>, i: nat): nat
    decreases |list| - i
  {
    if i >= |list| then 0 else (if DstOf(list[i]).v6 then 1 else 0) + SixFrom(list, i + 1)
  }

  /** Every entry takes 24 bytes, and one with an IPv6 address 12 more. */
  lemma {:induction false} SizeCounts(list: seq<Entry>, i: nat)
    requires i <= |list|
    ensures SizeFrom(list, i) == 24 * (|list| - i) + 12 * SixFrom(list, i)
    decreases |list| - i
  {
    if i < |list| { SizeCounts(list, i + 1); }
  }

  lemma {:induction false} SizeSame(a: seq<Entry>, i: nat, b: seq<Entry>, j: nat)
    requires i <= |a| && j <= |b| && a[i..] == b[j..]
    ensures SizeFrom(a, i) == SizeFrom(b, j)
    decreases |a| - i
  {
    if i < |a| {
      assert a[i] == a[i..][0] == b[j..][0] == b[j];
      assert a[i + 1..] == a[i..][1..] == b[j..][1..] == b[j + 1..];
      SizeSame(a, i + 1, b, j + 1);
    }
  }

  /** `c` is `list` with the entry at `i` taken out. */
  lemma {:induction false} CutSizeFrom(list: seq<Entry>, c: seq<Entry>, i: nat, j: nat)
    requires j <= i < |list| && |c| == |list| - 1 && c[..i] == list[..i] && c[i..] == list[i + 1..]
    ensures SizeFrom(list, j) == SizeFrom(c, j) + EntrySize(list[i])
    decreases i - j
  {
    if j == i {
      SizeSame(c, i, list, i + 1);
    } else {
      assert c[j] == c[..i][j] == list[..i][j] == list[j];
      CutSizeFrom(list, c, i, j + 1);
    }
  }

  lemma CutSize(list: seq<Entry>, i: nat)
    requires i < |list|
    ensures Size(list) == Size(Cut(list, i)) + EntrySize(list[i])
  {
    CutSizeFrom(list, Cut(list, i), i, 0);
  }

  lemma CutMembers(list: seq<Entry>, i: nat)
    requires i < |list|
    ensures forall e :: e in Cut(list, i) ==> e in list
    ensures forall e :: e in list && e != list[i] ==> e in Cut(list, i)
    ensures NoClash(list) ==> NoClash(Cut(list, i))
  {
    var c := Cut(list, i);
    forall e | e in list && e != list[i] ensures e in c {
      var j :| 0 <= j < |list| && list[j] == e;
      assert c[if j < i then j else j - 1] == e;
    }
  }

  /** A search removes only expired entries; if it finds something, that is live and
      matches; if not, everything left is live and nothing left matches. */
  lemma {:induction false} SweepFinds(list: seq<Entry>, i: nat, d: Dst, proto: byte, now: u32)
    requires i <= |list| && forall j :: 0 <= j < i ==> !Expired(list[j], now) && !Matches(list[j], d, proto)
    ensures
      var (left, pos) := Sweep(list, i, d, proto, now);
      && Swept(list, left, now)
      && match pos
         case Some(k) => !Expired(left[k], now) && Matches(left[k], d, proto)
         case None => forall e :: e in left ==> !Expired(e, now) && !Matches(e, d, proto)
    decreases |list| - i
  {
    if i < |list| {
      if Expired(list[i], now) {
        CutMembers(list, i);
        CutSize(list, i);
        SweepFinds(Cut(list, i), i, d, proto, now);
      } else if !Matches(list[i], d, proto) {
        SweepFinds(list, i + 1, d, proto, now);
      }
    }
  }

  /** Purging leaves exactly the entries that have not expired. */
  lemma {:induction false} PurgeRemoves(list: seq<Entry>, i: nat, now: u32)
    requires i <= |list| && forall j :: 0 <= j < i ==> !Expired(list[j], now)
    ensures Swept(list, Purge(list, i, now), now)
    ensures forall e :: e in Purge(list, i, now) <==> e in list && !Expired(e, now)
    decreases |list| - i
  {
    if i < |list| {
      if Expired(list[i], now) {
        CutMembers(list, i);
        CutSize(list, i);
        PurgeRemoves(Cut(list, i), i, now);
      } else {
        PurgeRemoves(list, i + 1, now);
      }
    }
  }

  // ----- the timed map

  /** What is known about a destination, and until when (on an unwrapped clock). */
  datatype Val = Val(flags: bv8, due: int)

  type Timed = map<Key, Val>

  predicate Live(t: Timed, k: Key, now: int) {
    k in t && t[k].due > now
  }

  /** The entry that speaks for a destination and a concrete protocol. */
  function Find(t: Timed, d: Dst, proto: byte, now: int): Option<Key> {
    if Live(t, Key(d, PROTO_NONE), now) then Some(Key(d, PROTO_NONE))
    else if Live(t, Key(d, proto), now) then Some(Key(d, proto))
    else None
  }

  /** The blacklist flags of a destination, zero if it is not listed. */
  function Lookup(t: Timed, d: Dst, proto: byte, now: int): bv8 {
    var k := Find(t, d, proto, now);
    if k.Some? then t[k.value].flags else 0
  }

  /** A live entry is merged and prolonged, anything else starts afresh. */
  function Add(t: Timed, d: Dst, proto: byte, flags: bv8, due: int, now: int): Timed {
    var k := Find(t, d, proto, now);
    if k.Some? then Merge(t, k.value, flags, due) else t[Key(d, proto) := Val(flags, due)]
  }

  function Merge(t: Timed, k: Key, flags: bv8, due: int): Timed
    requires k in t
  {
    t[k := Val(t[k].flags | flags, due)]
  }

  // ----- the table against the timed map

  function HashOf(hash: Hash, d: Dst): nat {
    hash(d.ip, d.port)
  }

  /** An entry in its bucket, in step with the map. */
  ghost predicate EntryOk(e: Entry, h: nat, t: Timed, hash: Hash) {
    && HashOf(hash, DstOf(e)) == h && KeyOf(e) in t
    && t[KeyOf(e)].flags == e.flags && t[KeyOf(e)].due % M32 == e.expire
  }

  ghost predicate BucketOk(b: seq<Entry>, h: nat, t: Timed, hash: Hash) {
    NoClash(b) && forall e :: e in b ==> EntryOk(e, h, t, hash)
  }

  ghost predicate HasKey(b: seq<Entry>, k: Key) {
    exists e :: e in b && KeyOf(e) == k
  }

  /** Tick differences stay below half the range of the clock. */
  ghost predicate InWindow(b: seq<Entry>, t: Timed, now: int) {
    forall e :: e in b && KeyOf(e) in t ==> -HALF32 <= now - t[KeyOf(e)].due < HALF32
  }

  /** The table holds every live entry of the map, in its bucket, and nothing the map does
      not know; expired entries may be there or not. */
  ghost predicate TableOk(bs: seq<seq<Entry>>, t: Timed, hash: Hash, now: int) {
    && |bs| == HASH_SIZE
    && (forall h :: 0 <= h < |bs| ==> BucketOk(bs[h], h, t, hash))
    && (forall k :: k in t && t[k].due > now ==> HasKey(bs[HashOf(hash, k.dst)], k))
  }

  lemma ExpiredIsDue(e: Entry, due: int, now: int)
    requires due % M32 == e.expire && -HALF32 <= now - due < HALF32
    ensures Expired(e, now % M32) <==> due <= now
  {
    SubMod32(now, due);
    if now < due {
      Mod32Shift(now - due, 1);
    }
  }

  /** Time may pass. */
  lemma TimePasses(bs: seq<seq<Entry>>, t: Timed, hash: Hash, now: int, later: int)
    requires TableOk(bs, t, hash, now) && now <= later
    ensures TableOk(bs, t, hash, later)
  {
  }

  /** Dropping expired entries from a bucket changes nothing the map knows. */
  lemma SweptKeepsTable(bs: seq<seq<Entry>>, t: Timed, hash: Hash, now: int, h: nat, left: seq<Entry>)
    requires TableOk(bs, t, hash, now) && h < |bs| && InWindow(bs[h], t, now)
    requires Swept(bs[h], left, now % M32)
    ensures TableOk(bs[h := left], t, hash, now)
  {
    var bs' := bs[h := left];
    assert BucketOk(bs[h], h, t, hash);
    forall k | k in t && t[k].due > now ensures HasKey(bs'[HashOf(hash, k.dst)], k) {
      var g := HashOf(hash, k.dst);
      var e :| e in bs[g] && KeyOf(e) == k;
      assert BucketOk(bs[g], g, t, hash);
      if g == h {
        ExpiredIsDue(e, t[k].due, now);
        assert e in left;
      }
    }
  }

  /** Two entries of one bucket with one destination and matching protocols are the same. */
  lemma OneMatch(b: seq<Entry>, e: Entry, f: Entry)
    requires NoClash(b) && e in b && f in b && DstOf(e) == DstOf(f) && ProtoMatch(e.proto, f.proto)
    ensures e == f
  {
    var i :| 0 <= i < |b| && b[i] == e;
    var j :| 0 <= j < |b| && b[j] == f;
  }

  /** The outcome of a search in terms of the map. */
  ghost predicate Found(left: seq<Entry>, pos: Option<nat>, t: Timed, d: Dst, proto: byte, now: int) {
    match pos
    case Some(k) =>
      && k < |left| && Matches(left[k], d, proto) && Live(t, KeyOf(left[k]), now)
      && (proto != PROTO_NONE ==> Find(t, d, proto, now) == Some(KeyOf(left[k])))
    case None =>
      && (forall e :: e in left ==> !Matches(e, d, proto))
      && (forall q: byte :: ProtoMatch(q, proto) ==> !Live(t, Key(d, q), now))
  }

  /** The lazy search in the bucket of a destination finds exactly what the timed map says,
      and leaves the table in step with it. */
  lemma SweepIsFind(bs: seq<seq<Entry>>, t: Timed, hash: Hash, now: int, d: Dst, proto: byte)
    requires TableOk(bs, t, hash, now) && InWindow(bs[HashOf(hash, d)], t, now)
    ensures
      var h := HashOf(hash, d);
      var (left, pos) := Sweep(bs[h], 0, d, proto, now % M32);
      && Swept(bs[h], left, now % M32) && TableOk(bs[h := left], t, hash, now)
      && Found(left, pos, t, d, proto, now)
  {
    var h := HashOf(hash, d);
    var (left, pos) := Sweep(bs[h], 0, d, proto, now % M32);
    SweepFinds(bs[h], 0, d, proto, now % M32);
    SweptKeepsTable(bs, t, hash, now, h, left);
    assert BucketOk(bs[h := left][h], h, t, hash);
    if pos.Some? {
      var e := left[pos.value];
      assert e in left && EntryOk(e, h, t, hash);
      ExpiredIsDue(e, t[KeyOf(e)].due, now);
      FoundOne(bs[h := left], t, hash, now, d, proto, e);
    } else {
      forall q: byte | ProtoMatch(q, proto) ensures !Live(t, Key(d, q), now) {
        assert Live(t, Key(d, q), now) ==> HasKey(bs[h := left][h], Key(d, q));
      }
    }
  }

  lemma FoundOne(bs: seq<seq<Entry>>, t: Timed, hash: Hash, now: int, d: Dst, proto: byte, e: Entry)
    requires TableOk(bs, t, hash, now) && e in bs[HashOf(hash, d)] && Matches(e, d, proto) && Live(t, KeyOf(e), now)
    ensures proto != PROTO_NONE ==> Find(t, d, proto, now) == Some(KeyOf(e))
  {
    var b := bs[HashOf(hash, d)];
    assert BucketOk(b, HashOf(hash, d), t, hash);
    if proto != PROTO_NONE && Live(t, Key(d, PROTO_NONE), now) {
      assert HasKey(b, Key(d, PROTO_NONE));
      var f :| f in b && KeyOf(f) == Key(d, PROTO_NONE);
      OneMatch(b, e, f);
    }
  }

  /** Without the window: the test takes an entry for expired in the half of every 2^32 ticks
      that begins with its due time. */
  lemma ExpiredInTurns(e: Entry, due: int, now: int)
    requires due % M32 == e.expire
    ensures Expired(e, now % M32) <==> (now - due) % M32 < HALF32
  {
    SubMod32(now, due);
  }

  /** For one: an entry due at tick 100 that nothing has dropped for 2^31 ticks is found again. */
  lemma ExpiredComesBack()
    ensures var e := Entry(100, 5060, 17, 2, [10, 0, 0, 1]); var now := 100 + HALF32;
      && Sweep([e], 0, DstOf(e), 17, (now - 1) % M32) == ([], None)
      && Sweep([e], 0, DstOf(e), 17, now % M32) == ([e], Some(0))
  {
    var e := Entry(100, 5060, 17, 2, [10, 0, 0, 1]);
    ExpiredInTurns(e, 100, 99 + HALF32);
    ExpiredInTurns(e, 100, 100 + HALF32);
    assert Cut([e], 0) == [];
  }

  // ----- permanent entries

  /** The flag that marks an entry as permanent does not keep it: a clean-up at `now` leaves
      an entry exactly if `now` is before its due time, whatever its flags. */
  lemma PurgeIgnoresFlags(list: seq<Entry>, e: Entry, due: int, now: int)
    requires e in list && e.expire == due % M32 && -HALF32 <= now - due < HALF32
    ensures e in Purge(list, 0, now % M32) <==> now < due
  {
    PurgeRemoves(list, 0, now % M32);
    ExpiredIsDue(e, due, now);
  }

  /** At most one live key speaks for a destination and a concrete protocol. */
  lemma OneLive(bs: seq<seq<Entry>>, t: Timed, hash: Hash, now: int, d: Dst, proto: byte)
    requires TableOk(bs, t, hash, now) && proto != PROTO_NONE
    ensures !(Live(t, Key(d, PROTO_NONE), now) && Live(t, Key(d, proto), now))
  {
    var h := HashOf(hash, d);
    if Live(t, Key(d, PROTO_NONE), now) && Live(t, Key(d, proto), now) {
      assert BucketOk(bs[h], h, t, hash);
      assert HasKey(bs[h], Key(d, PROTO_NONE)) && HasKey(bs[h], Key(d, proto));
      var e :| e in bs[h] && KeyOf(e) == Key(d, PROTO_NONE);
      var f :| f in bs[h] && KeyOf(f) == Key(d, proto);
      OneMatch(bs[h], e, f);
    }
  }

  /** What is listed is found, with its merged flags, exactly until its due time. */
  lemma ListedUntilDue(t: Timed, d: Dst, proto: byte, flags: bv8, due: int, now: int, later: int)
    requires proto != PROTO_NONE && now <= later
    requires !(Live(t, Key(d, PROTO_NONE), now) && Live(t, Key(d, proto), now))
    ensures var t' := Add(t, d, proto, flags, due, now);
      if later < due then
        Find(t', d, proto, later).Some? &&
        Lookup(t', d, proto, later) ==
          match Find(t, d, proto, now) case None => flags case Some(k) => t[k].flags | flags
      else Find(t', d, proto, later) == None && Lookup(t', d, proto, later) == 0
  {
    var k := Find(t, d, proto, now);
    if k == Some(Key(d, PROTO_NONE)) {
      assert !Live(t, Key(d, proto), later);
    } else {
      assert !Live(t, Key(d, PROTO_NONE), later);
    }
  }

  /** A destination listed as permanent is found, and found permanent, exactly until its due
      time, like any other. */
  lemma PermanentUntilDue(bs: seq<seq<Entry>>, t: Timed, hash: Hash, d: Dst, proto: byte, flags: bv8, due: int,
                          now: int, later: int)
    requires TableOk(bs, t, hash, now) && proto != PROTO_NONE && IsPermanent(flags) && now <= later
    ensures var t' := Add(t, d, proto, flags, due, now);
      && (Find(t', d, proto, later).Some? <==> later < due)
      && (IsPermanent(Lookup(t', d, proto, later)) <==> later < due)
  {
    OneLive(bs, t, hash, now, d, proto);
    ListedUntilDue(t, d, proto, flags, due, now, later);
    var k := Find(t, d, proto, now);
    if k.Some? { MergedPermanent(t[k.value].flags, flags); }
  }

  lemma MergedPermanent(a: bv8, b: bv8)
    requires IsPermanent(b)
    ensures IsPermanent(a | b)
  {
  }

  /** The entries that have not expired. */
  function Alive(list: seq<Entry>, now: u32): seq<Entry> {
    if list == [] then [] else (if Expired(list[0], now) then [] else [list[0]]) + Alive(list[1..], now)
  }

  /** The outcome of a search over what stands behind `done`. */
  function Behind(done: seq<Entry>, r: (seq<Entry>, Option<nat>)): (seq<Entry>, Option<nat>) {
    (done + r.0, if r.1.None? then None else Some(|done| + r.1.value))
  }

  lemma {:induction false} SweepBehind(done: seq<Entry>, rest: seq<Entry>, i: nat, d: Dst, proto: byte, now: u32)
    requires i <= |rest|
    ensures Sweep(done + rest, |done| + i, d, proto, now) == Behind(done, Sweep(rest, i, d, proto, now))
    decreases |rest| - i
  {
    if i < |rest| {
      assert (done + rest)[|done| + i] == rest[i];
      if Expired(rest[i], now) {
        assert Cut(done + rest, |done| + i) == done + Cut(rest, i);
        SweepBehind(done, Cut(rest, i), i, d, proto, now);
      } else if !Matches(rest[i], d, proto) {
        SweepBehind(done, rest, i + 1, d, proto, now);
      }
    }
  }

  lemma SweepHead(x: Entry, tail: seq<Entry>, d: Dst, proto: byte, now: u32)
    ensures Sweep([x] + tail, 0, d, proto, now) ==
            if Expired(x, now) then Sweep(tail, 0, d, proto, now)
            else if Matches(x, d, proto) then ([x] + tail, Some(0))
            else Behind([x], Sweep(tail, 0, d, proto, now))
  {
    assert Cut([x] + tail, 0) == tail;
    SweepBehind([x], tail, 0, d, proto, now);
  }

  /** The search comes to entry `n` if there is no live match before it, and has then dropped
      exactly the expired ones. */
  lemma {:induction false} SweepComesTo(list: seq<Entry>, n: nat, d: Dst, proto: byte, now: u32)
    requires n <= |list| && forall i :: 0 <= i < n ==> Expired(list[i], now) || !Matches(list[i], d, proto)
    ensures Sweep(list, 0, d, proto, now) == Behind(Alive(list[..n], now), Sweep(list[n..], 0, d, proto, now))
    decreases n
  {
    hide Sweep;
    if n == 0 {
      assert list[0..] == list && list[..0] == [];
      var r := Sweep(list, 0, d, proto, now);
      assert [] + r.0 == r.0;
    } else {
      var x, tail := list[0], list[1..];
      SweepComesTo(tail, n - 1, d, proto, now);
      assert list[..n][1..] == tail[..n - 1] && list[n..] == tail[n - 1..] && [x] + tail == list;
      SweepHead(x, tail, d, proto, now);
      var l, r := Alive(tail[..n - 1], now), Sweep(list[n..], 0, d, proto, now);
      assert Alive(list[..n], now) == if Expired(x, now) then l else [x] + l;
      assert [x] + (l + r.0) == ([x] + l) + r.0;
    }
  }

  /** The same for the table: a search that comes to a stored entry drops it, and goes on behind
      it, exactly if `now` is its due time or later, whatever its flags. */
  lemma SweepIgnoresFlags(list: seq<Entry>, n: nat, due: int, d: Dst, proto: byte, now: int)
    requires n < |list| && list[n].expire == due % M32 && -HALF32 <= now - due < HALF32
    requires forall i :: 0 <= i < n ==> Expired(list[i], now % M32) || !Matches(list[i], d, proto)
    ensures
      var rest := Sweep(list[n + 1..], 0, d, proto, now % M32);
      Sweep(list, 0, d, proto, now % M32) ==
        Behind(Alive(list[..n], now % M32),
               if due <= now then rest
               else if Matches(list[n], d, proto) then (list[n..], Some(0))
               else Behind([list[n]], rest))
  {
    ExpiredIsDue(list[n], due, now);
    SweepComesTo(list, n, d, proto, now % M32);
    var x, tail := list[n], list[n + 1..];
    assert list[n..] == [x] + tail;
    SweepHead(x, tail, d, proto, now % M32);
    hide Sweep;
  }

  /** For one: a permanent entry due at tick 100 is dropped by a lookup at tick 100. */
  lemma PermanentExpires()
    ensures var e := Entry(100, 5060, 17, BLST_PERMANENT, [10, 0, 0, 1]);
      IsPermanent(e.flags) && Sweep([e], 0, DstOf(e), 17, 100) == ([], None) && Purge([e], 0, 100) == []
  {
    var e := Entry(100, 5060, 17, BLST_PERMANENT, [10, 0, 0, 1]);
    SweepIgnoresFlags([e], 0, 100, DstOf(e), 17, 100);
    PurgeIgnoresFlags([e], e, 100, 100);
    assert Cut([e], 0) == [];
  }

  // ----- changes

  /** The error flags of an entry carry its address type in bit 0; the others are as given. */
  function TypedFlags(flags: bv8, v6: bool): (f: bv8)
    ensures IsV6(f) == v6 && f | 1 == flags | 1
  {
    if v6 then flags | BLST_IS_IPV6 else flags & 0xfe
  }

  /** What becomes of an entry that is listed again. */
  function Merged(e: Entry, flags: bv8, due: int): Entry {
    e.(flags := e.flags | flags, expire := due % M32)
  }

  /** Replacing an entry by another with the same key changes that key's value only. */
  lemma ReplaceKeepsTable(bs: seq<seq<Entry>>, t: Timed, hash: Hash, now: int, h: nat, i: nat, e': Entry, due: int)
    requires TableOk(bs, t, hash, now) && h < |bs| && i < |bs[h]|
    requires KeyOf(e') == KeyOf(bs[h][i]) && e'.expire == due % M32
    ensures TableOk(bs[h := bs[h][i := e']], t[KeyOf(e') := Val(e'.flags, due)], hash, now)
  {
    assert BucketOk(bs[h], h, t, hash) && bs[h][i] in bs[h] && EntryOk(bs[h][i], h, t, hash);
    var t' := t[KeyOf(e') := Val(e'.flags, due)];
    MergeBucket(bs[h], h, t, t', hash, i, e');
    forall g | 0 <= g < |bs| && g != h ensures BucketOk(bs[g], g, t', hash) {
      assert BucketOk(bs[g], g, t, hash);
      forall f | f in bs[g] ensures EntryOk(f, g, t', hash) {
        assert EntryOk(f, g, t, hash);
      }
    }
    MergeKeepsKeys(bs, t, hash, now, h, i, e', due);
  }

  lemma MergedType(a: bv8, b: bv8)
    requires IsV6(a) == IsV6(b)
    ensures IsV6(a | b) == IsV6(a)
  {
  }

  lemma MergeBucket(b: seq<Entry>, h: nat, t: Timed, t': Timed, hash: Hash, i: nat, e': Entry)
    requires BucketOk(b, h, t, hash) && i < |b| && KeyOf(e') == KeyOf(b[i]) && EntryOk(e', h, t', hash)
    requires forall k :: k in t && k != KeyOf(e') ==> k in t' && t'[k] == t[k]
    ensures BucketOk(b[i := e'], h, t', hash)
  {
    var b' := b[i := e'];
    assert forall j :: 0 <= j < |b| ==> KeyOf(b'[j]) == KeyOf(b[j]);
    forall f | f in b' ensures EntryOk(f, h, t', hash) {
      var j :| 0 <= j < |b'| && b'[j] == f;
      if j != i {
        assert b[j] in b && EntryOk(b[j], h, t, hash);
        assert KeyOf(b[j]) != KeyOf(b[i]) by {
          assert if i < j then !Matches(b[i], DstOf(b[j]), b[j].proto) else !Matches(b[j], DstOf(b[i]), b[i].proto);
        }
      }
    }
    forall j, k | 0 <= j < k < |b'| ensures !Matches(b'[j], DstOf(b'[k]), b'[k].proto) {
      assert !Matches(b[j], DstOf(b[k]), b[k].proto);
      assert KeyOf(b'[j]) == KeyOf(b[j]) && KeyOf(b'[k]) == KeyOf(b[k]);
    }
  }

  lemma MergeKeepsKeys(bs: seq<seq<Entry>>, t: Timed, hash: Hash, now: int, h: nat, i: nat, e': Entry, due: int)
    requires TableOk(bs, t, hash, now) && h < |bs| && i < |bs[h]| && KeyOf(e') == KeyOf(bs[h][i])
    ensures forall k :: k in t && (t[k].due > now || k == KeyOf(e')) ==>
              HasKey(bs[h := bs[h][i := e']][HashOf(hash, k.dst)], k)
  {
    var b' := bs[h][i := e'];
    assert BucketOk(bs[h], h, t, hash);
    assert bs[h][i] in bs[h] && EntryOk(bs[h][i], h, t, hash);
    assert b'[i] in b';
    forall k | k in t && t[k].due > now && k != KeyOf(e') ensures HasKey(bs[h := b'][HashOf(hash, k.dst)], k) {
      var g := HashOf(hash, k.dst);
      var f :| f in bs[g] && KeyOf(f) == k;
      if g == h {
        var j :| 0 <= j < |bs[h]| && bs[h][j] == f;
        assert b'[j] in b';
      }
    }
  }

  /** Putting a new entry at the head of a bucket in which nothing matches it. */
  lemma InsertKeepsTable(bs: seq<seq<Entry>>, t: Timed, hash: Hash, now: int, h: nat, e: Entry, due: int)
    requires TableOk(bs, t, hash, now) && h == HashOf(hash, DstOf(e)) && e.expire == due % M32
    requires forall f :: f in bs[h] ==> !Matches(f, DstOf(e), e.proto)
    ensures TableOk(bs[h := [e] + bs[h]], t[KeyOf(e) := Val(e.flags, due)], hash, now)
  {
    var b', t' := [e] + bs[h], t[KeyOf(e) := Val(e.flags, due)];
    assert BucketOk(bs[h], h, t, hash);
    assert NoClash(b') by {
      forall i, j | 0 <= i < j < |b'| ensures !Matches(b'[i], DstOf(b'[j]), b'[j].proto) {
        assert b'[j] == bs[h][j - 1] && bs[h][j - 1] in bs[h];
        assert i > 0 ==> b'[i] == bs[h][i - 1];
      }
    }
    forall g | 0 <= g < |bs| ensures forall f :: f in bs[g] ==> EntryOk(f, g, t', hash) {
      assert BucketOk(bs[g], g, t, hash);
      forall f | f in bs[g] ensures EntryOk(f, g, t', hash) {
        assert EntryOk(f, g, t, hash);
        assert KeyOf(f) == KeyOf(e) ==> g == h;
      }
    }
    forall k | k in t' && t'[k].due > now ensures HasKey(bs[h := b'][HashOf(hash, k.dst)], k) {
      if k == KeyOf(e) {
        assert b'[0] in b';
      } else {
        var f :| f in bs[HashOf(hash, k.dst)] && KeyOf(f) == k;
        assert f in bs[h := b'][HashOf(hash, k.dst)];
      }
    }
  }

  /** Taking one entry out removes its key and no other. */
  lemma CutKeepsTable(bs: seq<seq<Entry>>, t: Timed, hash: Hash, now: int, h: nat, i: nat)
    requires TableOk(bs, t, hash, now) && h < |bs| && i < |bs[h]|
    ensures TableOk(bs[h := Cut(bs[h], i)], t - {KeyOf(bs[h][i])}, hash, now)
  {
    var b, e := bs[h], bs[h][i];
    var b', t' := Cut(b, i), t - {KeyOf(e)};
    CutMembers(b, i);
    assert BucketOk(b, h, t, hash) && e in b;
    forall f | f in b' ensures EntryOk(f, h, t', hash) {
      var j :| 0 <= j < |b'| && b'[j] == f;
      var j' := if j < i then j else j + 1;
      assert b'[j] == b[j'] && f in b && EntryOk(f, h, t, hash);
      assert j' < i ==> !Matches(b[j'], DstOf(b[i]), b[i].proto);
      assert i < j' ==> !Matches(b[i], DstOf(b[j']), b[j'].proto);
    }
    forall g | 0 <= g < |bs| && g != h ensures BucketOk(bs[g], g, t', hash) {
      assert BucketOk(bs[g], g, t, hash);
      forall f | f in bs[g] ensures EntryOk(f, g, t', hash) {
        assert EntryOk(f, g, t, hash);
      }
    }
    forall k | k in t' && t'[k].due > now ensures HasKey(bs[h := b'][HashOf(hash, k.dst)], k) {
      var f :| f in bs[HashOf(hash, k.dst)] && KeyOf(f) == k;
      assert f in bs[h := b'][HashOf(hash, k.dst)];
    }
  }
}
