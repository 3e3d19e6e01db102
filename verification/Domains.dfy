/** Grouping domain names into virtual domains: names in order of their number of labels,
    each added to every virtual domain it is under, or else starting a new one. */
module Domains {

  function EndsWith(s: string, t: string): bool {
    |t| <= |s| && s[|s| - |t|..] == t
  }

  /** `Domain.match`: the name is a subdomain of the domain. */
  predicate Match(domain: string, name: string) {
    EndsWith(name, "." + domain)
  }

  function Dots(s: string, i: nat): nat
    requires i <= |s|
    decreases |s| - i
  {
    if i == |s| then 0 else (if s[i] == '.' then 1 else 0) + Dots(s, i + 1)
  }

  /** The number of parts that splitting at the dots gives; `domain_name_cmp` compares these. */
  function Labels(s: string): nat {
    Dots(s, 0) + 1
  }

  /** The parts put together again with dots. */
  function Dotted(parts: seq<string>): string
    requires parts != []
  {
    if |parts| == 1 then parts[0] else parts[0] + "." + Dotted(parts[1..])
  }

  lemma {:induction false} DotsAhead(a: string, b: string, i: nat)
    requires i <= |a| && '.' !in a
    ensures Dots(a + b, i) == Dots(b, 0)
    decreases |a| - i
  {
    if i < |a| {
      assert (a + b)[i] == a[i] && a[i] in a;
      DotsAhead(a, b, i + 1);
    } else {
      DotsSame(a + b, |a|, b, 0);
    }
  }

  lemma {:induction false} DotsSame(s: string, i: nat, t: string, j: nat)
    requires i <= |s| && j <= |t| && s[i..] == t[j..]
    ensures Dots(s, i) == Dots(t, j)
    decreases |s| - i
  {
    if i < |s| {
      assert s[i] == s[i..][0] == t[j..][0] == t[j];
      assert s[i + 1..] == s[i..][1..] == t[j..][1..] == t[j + 1..];
      DotsSame(s, i + 1, t, j + 1);
    }
  }

  /** A name of so many labels has that many. */
  lemma {:induction false} LabelsCounted(parts: seq<string>)
    requires parts != [] && forall k :: 0 <= k < |parts| ==> '.' !in parts[k]
    ensures Labels(Dotted(parts)) == |parts|
  {
    if |parts| == 1 {
      assert parts[0] + "" == parts[0];
      DotsAhead(parts[0], "", 0);
    } else {
      var rest := Dotted(parts[1..]);
      LabelsCounted(parts[1..]);
      assert parts[0] + "." + rest == parts[0] + ("." + rest);
      DotsAhead(parts[0], "." + rest, 0);
      DotsSame("." + rest, 1, rest, 0);
    }
  }

  /** Sorted by label count; names with the same count are in any order. */
  ghost predicate SortedByLabels(l: seq<string>) {
    forall i, j :: 0 <= i < j < |l| ==> Labels(l[i]) <= Labels(l[j])
  }

  ghost predicate DistinctNames(l: seq<string>) {
    forall i, j :: 0 <= i < j < |l| ==> l[i] != l[j]
  }

  // ----- what the loops compute

  datatype Group = Group(head: string, aliases: seq<string>)

  function AddName(g: Group, name: string): Group {
    if Match(g.head, name) then g.(aliases := g.aliases + [name]) else g
  }

  predicate Matched(gs: seq<Group>, name: string, n: nat)
    requires n <= |gs|
  {
    exists k :: 0 <= k < n && Match(gs[k].head, name)
  }

  function Place(gs: seq<Group>, name: string): seq<Group> {
    if Matched(gs, name, |gs|) then seq(|gs|, k requires 0 <= k < |gs| => AddName(gs[k], name))
    else gs + [Group(name, [])]
  }

  function Grouped(l: seq<string>, n: nat): seq<Group>
    requires n <= |l|
  {
    if n == 0 then [] else Place(Grouped(l, n - 1), l[n - 1])
  }

  // ----- subdomains

  lemma MatchMeans(d: string, n: string)
    ensures Match(d, n) <==> |d| < |n| && n[|n| - |d| - 1] == '.' && n[|n| - |d|..] == d
  {
    var t := "." + d;
    if |t| <= |n| {
      assert t == [t[0]] + t[1..] && t[1..] == d;
      assert n[|n| - |t|..] == [n[|n| - |d| - 1]] + n[|n| - |d|..];
    }
  }

  lemma {:induction false} DotsOfSuffix(s: string, t: string, i: nat)
    requires |t| <= |s| && s[|s| - |t|..] == t && i <= |t|
    ensures Dots(s, |s| - |t| + i) == Dots(t, i)
    decreases |t| - i
  {
    if i < |t| {
      assert s[|s| - |t|..][i] == t[i];
      DotsOfSuffix(s, t, i + 1);
    }
  }

  lemma {:induction false} DotsShrink(s: string, i: nat, j: nat)
    requires i <= j <= |s|
    ensures Dots(s, i) >= Dots(s, j)
    decreases j - i
  {
    if i < j { DotsShrink(s, i + 1, j); }
  }

  /** A subdomain has more labels, so it comes later in the sorted list. */
  lemma MoreLabels(d: string, n: string)
    requires Match(d, n)
    ensures Labels(d) < Labels(n)
  {
    MatchMeans(d, n);
    DotsOfSuffix(n, d, 0);
    DotsShrink(n, 0, |n| - |d| - 1);
  }

  lemma MatchTransitive(e: string, d: string, n: string)
    requires Match(e, d) && Match(d, n)
    ensures Match(e, n)
  {
    MatchMeans(e, d);
    MatchMeans(d, n);
    MatchMeans(e, n);
    assert n[|n| - |d|..][|d| - |e|..] == n[|n| - |e|..];
    assert n[|n| - |d|..][|d| - |e| - 1] == n[|n| - |e| - 1];
  }

  /** Two different domains a name is under are one under the other. */
  lemma MatchesNest(d: string, e: string, n: string)
    requires Match(d, n) && Match(e, n) && d != e
    ensures Match(d, e) || Match(e, d)
  {
    MatchMeans(d, n);
    MatchMeans(e, n);
    if |d| < |e| {
      SuffixMatches(d, e, n);
    } else if |e| < |d| {
      SuffixMatches(e, d, n);
    }
  }

  lemma SuffixMatches(d: string, e: string, n: string)
    requires Match(d, n) && |d| < |e| <= |n| && n[|n| - |e|..] == e
    ensures Match(d, e)
  {
    MatchMeans(d, n);
    MatchMeans(d, e);
    assert n[|n| - |e|..][|e| - |d|..] == n[|n| - |d|..];
    assert n[|n| - |e|..][|e| - |d| - 1] == n[|n| - |d| - 1];
  }

  // ----- the groups

  /** No listed name is a proper label suffix of this one. */
  ghost predicate Top(l: seq<string>, h: string) {
    h in l && forall e :: e in l ==> !Match(e, h)
  }

  /** The names below `h` among the first `n`, in list order. */
  function Below(l: seq<string>, n: nat, h: string): seq<string>
    requires n <= |l|
  {
    if n == 0 then [] else Below(l, n - 1, h) + if Match(h, l[n - 1]) then [l[n - 1]] else []
  }

  ghost predicate GroupAt(l: seq<string>, gs: seq<Group>, k: nat) {
    k < |gs| ==> Top(l, gs[k].head) && gs[k].aliases == Below(l, |l|, gs[k].head)
  }

  ghost predicate HeadOf(gs: seq<Group>, h: string) {
    exists k :: 0 <= k < |gs| && gs[k].head == h
  }

  /** One group for each top name, holding exactly the names below it. */
  ghost predicate Partition(l: seq<string>, gs: seq<Group>) {
    && (forall k: nat :: GroupAt(l, gs, k))
    && (forall i, j :: 0 <= i < j < |gs| ==> gs[i].head != gs[j].head)
    && (forall h :: Top(l, h) ==> HeadOf(gs, h))
  }

  /** Every name is a top name or below one. */
  lemma {:induction false} FindTop(l: seq<string>, n: string) returns (h: string)
    requires n in l
    ensures Top(l, h) && (h == n || Match(h, n))
    decreases |n|
  {
    if e :| e in l && Match(e, n) {
      MatchMeans(e, n);
      h := FindTop(l, e);
      if h != e { MatchTransitive(h, e, n); }
    } else {
      h := n;
    }
  }

  lemma TopsDoNotShare(l: seq<string>, h: string, g: string, n: string)
    requires Top(l, h) && Top(l, g) && (h == n || Match(h, n)) && (g == n || Match(g, n))
    ensures h == g
  {
    if h != n && g != n && h != g { MatchesNest(h, g, n); }
  }

  lemma {:induction false} BelowPrefix(l: seq<string>, x: string, n: nat, h: string)
    requires n <= |l|
    ensures Below(l + [x], n, h) == Below(l, n, h)
  {
    if n > 0 { BelowPrefix(l, x, n - 1, h); }
  }

  lemma {:induction false} NothingBelow(l: seq<string>, n: nat, h: string)
    requires n <= |l| && forall i :: 0 <= i < n ==> Labels(l[i]) <= Labels(h)
    ensures Below(l, n, h) == []
  {
    if n > 0 {
      NothingBelow(l, n - 1, h);
      if Match(h, l[n - 1]) { MoreLabels(h, l[n - 1]); }
    }
  }

  lemma BelowAppend(l: seq<string>, x: string, h: string)
    ensures Below(l + [x], |l| + 1, h) == Below(l, |l|, h) + if Match(h, x) then [x] else []
  {
    BelowPrefix(l, x, |l|, h);
  }

  /** A name with at least as many labels changes no earlier name's standing. */
  lemma TopAppend(l: seq<string>, x: string, h: string)
    requires h in l && Labels(h) <= Labels(x)
    ensures Top(l + [x], h) <==> Top(l, h)
  {
    if Match(x, h) { MoreLabels(x, h); }
    assert forall e :: e in l + [x] <==> e in l || e == x;
  }

  lemma TopNew(l: seq<string>, gs: seq<Group>, x: string)
    requires Partition(l, gs) && x !in l
    ensures Top(l + [x], x) <==> !Matched(gs, x, |gs|)
  {
    assert forall e :: e in l + [x] <==> e in l || e == x;
    MatchMeans(x, x);
    if Matched(gs, x, |gs|) {
      var k :| 0 <= k < |gs| && Match(gs[k].head, x);
      assert GroupAt(l, gs, k);
    } else if e :| e in l && Match(e, x) {
      var h := FindTop(l, e);
      if h != e { MatchTransitive(h, e, x); }
    }
  }

  lemma PlaceKeeps(l: seq<string>, gs: seq<Group>, x: string)
    requires Partition(l, gs) && x !in l && forall h :: h in l ==> Labels(h) <= Labels(x)
    ensures Partition(l + [x], Place(gs, x))
  {
    var m, out := l + [x], Place(gs, x);
    TopNew(l, gs, x);
    forall k: nat {:trigger GroupAt(m, out, k)} ensures GroupAt(m, out, k) {
      assert GroupAt(l, gs, k);
      if k < |gs| {
        TopAppend(l, x, gs[k].head);
        BelowAppend(l, x, gs[k].head);
      } else if k == |gs| && k < |out| {
        BelowAppend(l, x, x);
        MatchMeans(x, x);
        NothingBelow(l, |l|, x);
      }
    }
    forall h | Top(m, h) ensures HeadOf(out, h) {
      if h in l {
        TopAppend(l, x, h);
        assert HeadOf(gs, h);
        var k :| 0 <= k < |gs| && gs[k].head == h;
        assert out[k].head == h;
      } else {
        assert h == x && out[|gs|].head == x;
      }
    }
    forall i, j | 0 <= i < j < |out| ensures out[i].head != out[j].head {
      assert GroupAt(l, gs, i);
    }
  }

  /** Whatever order the sort gives names of the same label count, the loops build one group
      for each name that is under no other, holding all the names below it in list order. */
  lemma {:induction false} GroupedIsPartition(l: seq<string>, n: nat)
    requires n <= |l| && SortedByLabels(l) && DistinctNames(l)
    ensures Partition(l[..n], Grouped(l, n))
  {
    if n > 0 {
      GroupedIsPartition(l, n - 1);
      PlaceKeeps(l[..n - 1], Grouped(l, n - 1), l[n - 1]);
      assert l[..n] == l[..n - 1] + [l[n - 1]];
    }
  }

  lemma {:induction false} BelowMembers(l: seq<string>, n: nat, h: string, x: string)
    requires n <= |l|
    ensures x in Below(l, n, h) <==> x in l[..n] && Match(h, x)
  {
    if n > 0 {
      BelowMembers(l, n - 1, h, x);
      assert l[..n] == l[..n - 1] + [l[n - 1]];
    }
  }

  lemma {:induction false} BelowDistinct(l: seq<string>, n: nat, h: string)
    requires n <= |l| && DistinctNames(l)
    ensures DistinctNames(Below(l, n, h))
  {
    if n > 0 {
      BelowDistinct(l, n - 1, h);
      BelowMembers(l, n - 1, h, l[n - 1]);
    }
  }

  ghost predicate InGroup(g: Group, x: string) {
    x == g.head || x in g.aliases
  }

  /** The shortest listed label suffix of the name, or the name itself. */
  ghost predicate ShortestSuffix(l: seq<string>, x: string, h: string) {
    && h in l && (h == x || Match(h, x))
    && forall e :: e in l && (e == x || Match(e, x)) ==> |h| <= |e|
  }

  /** Every listed name lands in exactly one group, once, and that group is named after the
      name's shortest listed label suffix. */
  lemma EachNameOnce(l: seq<string>, x: string) returns (k: nat)
    requires SortedByLabels(l) && DistinctNames(l) && x in l
    ensures var gs := Grouped(l, |l|);
      && k < |gs| && InGroup(gs[k], x) && ShortestSuffix(l, x, gs[k].head)
      && DistinctNames([gs[k].head] + gs[k].aliases)
      && forall j :: 0 <= j < |gs| && InGroup(gs[j], x) ==> j == k
  {
    var gs := Grouped(l, |l|);
    GroupedIsPartition(l, |l|);
    assert l[..|l|] == l;
    var h := FindTop(l, x);
    assert HeadOf(gs, h);
    k :| 0 <= k < |gs| && gs[k].head == h;
    assert GroupAt(l, gs, k);
    BelowMembers(l, |l|, h, x);
    BelowDistinct(l, |l|, h);
    BelowMembers(l, |l|, h, h);
    MatchMeans(h, h);
    TopIsShortest(l, x, h);
    forall j | 0 <= j < |gs| && InGroup(gs[j], x) ensures j == k {
      assert GroupAt(l, gs, j);
      BelowMembers(l, |l|, gs[j].head, x);
      TopsDoNotShare(l, h, gs[j].head, x);
    }
  }

  lemma TopIsShortest(l: seq<string>, x: string, h: string)
    requires Top(l, h) && (h == x || Match(h, x))
    ensures ShortestSuffix(l, x, h)
  {
    MatchMeans(h, x);
    forall e | e in l && (e == x || Match(e, x)) ensures |h| <= |e| {
      MatchMeans(e, x);
      if e != h && e != x && h != x { MatchesNest(e, h, x); MatchMeans(h, e); }
    }
  }

  /** No virtual domain is a subdomain of another, and nothing but listed names is stored. */
  lemma HeadsApart(l: seq<string>, i: nat, j: nat)
    requires SortedByLabels(l) && DistinctNames(l) && i < |Grouped(l, |l|)| && j < |Grouped(l, |l|)|
    ensures !Match(Grouped(l, |l|)[i].head, Grouped(l, |l|)[j].head)
    ensures forall x :: InGroup(Grouped(l, |l|)[i], x) ==> x in l
  {
    var gs := Grouped(l, |l|);
    GroupedIsPartition(l, |l|);
    assert l[..|l|] == l;
    assert GroupAt(l, gs, i) && GroupAt(l, gs, j);
    forall x | InGroup(gs[i], x) ensures x in l { BelowMembers(l, |l|, gs[i].head, x); }
  }

  // ----- the loops as code

  class Domain {
    const domain: string
    var aliases: seq<string>

    constructor (domain: string)
      ensures this.domain == domain && aliases == []
    {
      this.domain := domain;
      aliases := [];
    }

    method Add(alias: string)
      modifies this
      ensures aliases == old(aliases) + [alias]
    {
      aliases := aliases + [alias];
    }

    ghost function Contents(): Group
      reads this
    {
      Group(domain, aliases)
    }
  }

  ghost predicate Shows(domains: seq<Domain>, gs: seq<Group>)
    reads domains
  {
    && |domains| == |gs|
    && (forall i, j :: 0 <= i < j < |domains| ==> domains[i] != domains[j])
    && forall k :: 0 <= k < |gs| ==> domains[k].Contents() == gs[k]
  }

  /** One turn of the outer loop; the inner loop goes on after a match. */
  method PlaceName(domains: seq<Domain>, name: string, ghost gs: seq<Group>) returns (r: seq<Domain>)
    requires Shows(domains, gs)
    modifies domains
    ensures Shows(r, Place(gs, name))
    ensures |domains| <= |r| && forall k :: 0 <= k < |r| ==> if k < |domains| then r[k] == domains[k] else fresh(r[k])
  {
    var found := false;
    for k := 0 to |domains|
      invariant found <==> Matched(gs, name, k)
      invariant forall i :: 0 <= i < k ==> domains[i].Contents() == AddName(gs[i], name)
      invariant forall i :: k <= i < |gs| ==> domains[i].Contents() == gs[i]
    {
      assert domains[k].Contents() == gs[k];
      if Match(domains[k].domain, name) {
        domains[k].Add(name);
        found := true;
      }
    }
    r := domains;
    if !found {
      var d := new Domain(name);
      r := domains + [d];
    }
  }

  /** The sorted names, one after the other. */
  method ConvertDomains(l: seq<string>) returns (domains: seq<Domain>)
    ensures (forall k :: 0 <= k < |domains| ==> fresh(domains[k])) && Shows(domains, Grouped(l, |l|))
  {
    domains := [];
    for n := 0 to |l|
      invariant (forall k :: 0 <= k < |domains| ==> fresh(domains[k])) && Shows(domains, Grouped(l, n))
    {
      domains := PlaceName(domains, l[n], Grouped(l, n));
    }
  }
}
