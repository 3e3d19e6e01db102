/** The table of RTP ports: the configured range made even, its ports in random order, and
    the search for the next pair of ports that can be bound. */
module PortTable {
  import opened Options
  import opened Words

  /** The even ports from `lo` on. */
  function Ports(lo: int, n: nat): seq<int> {
    if n == 0 then [] else Ports(lo, n - 1) + [lo + 2 * (n - 1)]
  }

  lemma {:induction false} PortsOnce(lo: int, n: nat, p: int)
    ensures multiset(Ports(lo, n))[p] == if lo <= p < lo + 2 * n && (p - lo) % 2 == 0 then 1 else 0
  {
    if n > 0 { PortsOnce(lo, n - 1, p); }
  }

  /** The slot tried at the `i`-th attempt. */
  function Slot(last: nat, len: nat, i: nat): nat
    requires len > 0
  {
    (last + i) % len
  }

  /** The attempts visit different slots, never the last one used, and every other one. */
  lemma SlotsOnce(last: nat, len: nat, s: nat)
    requires last < len && s < len
    ensures s != last ==> exists i :: 1 <= i < len && Slot(last, len, i) == s
    ensures forall i, j :: 1 <= i < j < len ==> Slot(last, len, i) != Slot(last, len, j)
    ensures forall i :: 1 <= i < len ==> Slot(last, len, i) != last
  {
    forall i | 0 <= i < len ensures Slot(last, len, i) == if last + i < len then last + i else last + i - len {
      SlotIs(last, len, i);
    }
    if s > last { assert Slot(last, len, s - last) == s; }
    if s < last { assert Slot(last, len, s + len - last) == s; }
  }

  lemma SlotIs(last: nat, len: nat, i: nat)
    requires last < len && i < len
    ensures Slot(last, len, i) == if last + i < len then last + i else last + i - len
  {
  }

  /** The even port and the one after it lie in the range. */
  predicate PairIn(lo: int, hi: int, p: int) {
    p % 2 == 0 && lo <= p && p + 1 <= hi
  }

  ghost predicate HasPair(lo: int, hi: int) {
    exists p :: PairIn(lo, hi, p)
  }

  /** The limits of a configured range once they are made even. */
  function Low(lo: int): int {
    if lo % 2 != 0 then lo + 1 else lo
  }

  function High(hi: int): int {
    if hi % 2 != 0 then hi - 1 else hi - 2
  }

  /** The ports of a configured range, in some order. */
  ghost predicate RangeTable(table: seq<u16>, lo: int, hi: int) {
    Low(lo) <= High(hi) && multiset(table) == multiset(Ports(Low(lo), (High(hi) - Low(lo)) / 2 + 1))
  }

  /** What trying to bind a port pair gives: done, a fatal error, or the port is in use. */
  datatype Bind = Bound | Fatal | InUse

  class PortPool {
    var portMin: int
    var portMax: int
    const table: array<u16>
    var len: nat
    var idx: nat

    constructor (lo: int, hi: int)
      ensures portMin == lo && portMax == hi && table.Length == 65536 && fresh(table)
    {
      portMin, portMax, len, idx := lo, hi, 0, 0;
      table := new u16[65536](_ => 0);
    }

    /** The limits are even and leave room for the RTCP port. */
    ghost predicate Normal()
      reads this
    {
      0 < portMin <= portMax < 65535 && portMin % 2 == 0 && portMax % 2 == 0 && table.Length == 65536
    }

    ghost predicate Valid()
      reads this, table
    {
      && Normal() && len == (portMax - portMin) / 2 + 1 && idx < len <= table.Length
      && multiset(table[..len]) == multiset(Ports(portMin, len))
    }

    /** The part of `init_config` that adjusts the port range. It succeeds exactly if the
        configured range holds a pair of an even port and the next one, all of positive,
        16-bit value. */
    method Normalise() returns (ok: bool)
      requires table.Length == 65536
      modifies this`portMin, this`portMax
      ensures portMin == Low(old(portMin)) && portMax == High(old(portMax)) && (ok ==> Normal())
      ensures ok ==> forall p :: PairIn(old(portMin), old(portMax), p) <==> portMin <= p <= portMax && p % 2 == 0
      ensures ok <==> old(portMin) >= 1 && old(portMax) <= 65536 && HasPair(old(portMin), old(portMax))
    {
      ghost var lo, hi := portMin, portMax;
      ghost var first := if lo % 2 == 0 then lo else lo + 1;
      assert HasPair(lo, hi) <==> PairIn(lo, hi, first);
      if portMin % 2 != 0 { portMin := portMin + 1; }
      if portMax % 2 != 0 { portMax := portMax - 1; } else { portMax := portMax - 2; }
      if portMin <= 0 || portMin > 65535 { return false; }
      if portMax <= 0 || portMax > 65535 { return false; }
      if portMin > portMax { return false; }
      return true;
    }

    /** `init_port_table`; `random` gives the random number drawn at each turn. */
    method InitTable(random: nat -> nat)
      requires Normal()
      modifies this`len, this`idx, table
      ensures Valid() && idx == len - 1
    {
      len := (portMax - portMin) / 2 + 1;
      FillTable();
      var i := 0;
      while i < len
        invariant 0 < len <= table.Length && i <= len && multiset(table[..len]) == multiset(Ports(portMin, len))
        invariant len == (portMax - portMin) / 2 + 1
      {
        var j := random(i) % len;
        Swap(table, i, j, len);
        i := i + 1;
      }
      idx := len - 1;
    }

    method FillTable()
      requires Normal() && len == (portMax - portMin) / 2 + 1
      modifies table
      ensures table[..len] == Ports(portMin, len)
    {
      var i, portnum: int := 0, portMin;
      while i < len
        invariant i <= len && portnum == (portMin + 2 * i) % M16
        invariant table[..i] == Ports(portMin, i)
      {
        table[i] := portnum;
        portnum := (portnum + 2) % M16;
        i := i + 1;
        assert table[..i] == table[..i - 1] + [table[i - 1]];
      }
    }

    /** `create_listener`: gives out the first slot after the last one used, in cyclic order,
        whose port is not in use; `k` is the number of the attempt that ended the search. */
    method CreateListener(bind: u16 -> Bind) returns (port: Option<u16>, ghost k: nat)
      requires Valid()
      modifies this`idx
      ensures Valid() && EndsAt(table[..len], old(idx), bind, k)
      ensures port.Some? <==> k < len && bind(table[Slot(old(idx), len, k)]) == Bound
      ensures if port.Some? then idx == Slot(old(idx), len, k) && port.value == table[idx] else idx == old(idx)
    {
      var i := 1;
      while i < len
        invariant Valid() && idx == old(idx) && 1 <= i <= len
        invariant forall j :: 1 <= j < i ==> bind(table[..len][Slot(idx, len, j)]) == InUse
      {
        var s := (idx + i) % len;
        var p := table[s];
        assert table[..len][Slot(idx, len, i)] == p;
        var r := bind(p);
        if r == Bound {
          idx := s;
          return Some(p), i;
        }
        if r == Fatal { return None, i; }
        i := i + 1;
      }
      return None, len;
    }
  }

  /** All attempts before the `k`-th find their port in use, and the `k`-th does not or is
      one too many. */
  ghost predicate EndsAt(table: seq<u16>, last: nat, bind: u16 -> Bind, k: nat)
    requires |table| > 0
  {
    && 1 <= k <= |table|
    && (forall i :: 1 <= i < k ==> bind(table[Slot(last, |table|, i)]) == InUse)
    && (k < |table| ==> bind(table[Slot(last, |table|, k)]) != InUse)
  }

  /** If nothing fails fatally, the search succeeds exactly if some slot other than the last
      one used can be bound; with a single slot it never does. */
  lemma FindsIfAny(table: seq<u16>, last: nat, bind: u16 -> Bind, k: nat)
    requires last < |table| && EndsAt(table, last, bind, k) && forall p :: bind(p) != Fatal
    ensures k < |table| <==> exists s :: 0 <= s < |table| && s != last && bind(table[s]) == Bound
  {
    SlotsOnce(last, |table|, last);
    if k < |table| {
      assert bind(table[Slot(last, |table|, k)]) == Bound;
    } else if s :| 0 <= s < |table| && s != last && bind(table[s]) == Bound {
      SlotsOnce(last, |table|, s);
    }
  }

  lemma {:induction false} PortsLength(lo: int, n: nat)
    ensures |Ports(lo, n)| == n
  {
    if n > 0 { PortsLength(lo, n - 1); }
  }

  lemma TableLength(table: seq<u16>, lo: int, hi: int)
    requires RangeTable(table, lo, hi)
    ensures |table| == (High(hi) - Low(lo)) / 2 + 1
  {
    PortsLength(Low(lo), (High(hi) - Low(lo)) / 2 + 1);
    assert |multiset(table)| == |table|;
  }

  /** Even if every port is free, a listener is found only if the configured range holds two
      port pairs: a range with a single pair never yields one. */
  lemma TwoPairsNeeded(table: seq<u16>, lo: int, hi: int, last: nat, bind: u16 -> Bind, k: nat)
    requires RangeTable(table, lo, hi) && last < |table| && EndsAt(table, last, bind, k) && forall p :: bind(p) == Bound
    ensures k < |table| <==> exists p, q :: PairIn(lo, hi, p) && PairIn(lo, hi, q) && p != q
  {
    TableLength(table, lo, hi);
    FindsIfAny(table, last, bind, k);
    assert PairIn(lo, hi, Low(lo));
    if |table| > 1 {
      assert PairIn(lo, hi, Low(lo) + 2);
      var s := if last == 0 then 1 else 0;
      assert bind(table[s]) == Bound;
    }
  }

  /** For one: the range 35000-35001 holds a pair, is accepted, and yields no listener. */
  lemma SinglePairExample(table: seq<u16>, last: nat, bind: u16 -> Bind, k: nat)
    requires RangeTable(table, 35000, 35001) && last < |table| && EndsAt(table, last, bind, k)
    ensures PairIn(35000, 35001, 35000) && Low(35000) == High(35001) == 35000
    ensures |table| == 1 && k == |table|
  {
    TableLength(table, 35000, 35001);
  }

  /** Any order of the ports lists each even port of the range once, and no other. */
  lemma TableIsRange(table: seq<int>, lo: int, hi: int, p: int)
    requires lo % 2 == 0 && hi % 2 == 0 && lo <= hi && multiset(table) == multiset(Ports(lo, (hi - lo) / 2 + 1))
    ensures multiset(table)[p] == if lo <= p <= hi && p % 2 == 0 then 1 else 0
    ensures p in table <==> lo <= p <= hi && p % 2 == 0
  {
    PortsOnce(lo, (hi - lo) / 2 + 1, p);
    RangeOfPorts(lo, hi, p);
    assert p in table <==> p in multiset(table);
  }

  lemma RangeOfPorts(lo: int, hi: int, p: int)
    requires lo % 2 == 0 && hi % 2 == 0
    ensures lo <= p < lo + 2 * ((hi - lo) / 2 + 1) && (p - lo) % 2 == 0 <==> lo <= p <= hi && p % 2 == 0
  {
    var a, b := lo / 2, hi / 2;
    assert lo == 2 * a && hi == 2 * b && (hi - lo) / 2 == b - a;
  }

  method Swap(a: array<u16>, i: nat, j: nat, n: nat)
    requires i < n <= a.Length && j < n
    modifies a
    ensures multiset(a[..n]) == old(multiset(a[..n]))
  {
    a[i], a[j] := a[j], a[i];
  }
}
