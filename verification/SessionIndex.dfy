/** The hash index over RTP sessions: chained buckets against a plain list of the live
    sessions in the order of their creation. */
module SessionIndex {
  import opened Options
  import opened SessionTable
  import opened Chains

  const BUCKETS := 256

  /** The bucket number of a call-id; any function into the table will do. */
  type Hash = f: string -> nat | forall s :: f(s) < BUCKETS witness s => 0

  ghost predicate AllIn(order: seq<Id>, store: Store) {
    forall i :: 0 <= i < |order| ==> order[i] in store
  }

  /** The sessions of `order` that hash to bucket `h`. */
  ghost function Chain(order: seq<Id>, store: Store, hash: Hash, h: nat): seq<Id>
    requires AllIn(order, store)
  {
    if order == [] then [] else
    var n := |order| - 1;
    var rest := Chain(order[..n], store, hash, h);
    if hash(store[order[n]].callId) == h then rest + [order[n]] else rest
  }

  /** The sessions of `order` with this call-id. */
  function Sel(order: seq<Id>, store: Store, callId: string): seq<Id>
    requires AllIn(order, store)
  {
    if order == [] then [] else
    var n := |order| - 1;
    var rest := Sel(order[..n], store, callId);
    if store[order[n]].callId == callId then rest + [order[n]] else rest
  }

  ghost predicate BucketAt(store: Store, links: map<Id, Link>, heads: seq<Option<Id>>, order: seq<Id>,
                           hash: Hash, h: nat)
    requires AllIn(order, store)
  {
    h < |heads| ==> Chains.Linked(Chain(order, store, hash, h), heads[h], links)
  }

  /** The index agrees with the list. */
  ghost predicate IndexInv(store: Store, links: map<Id, Link>, heads: seq<Option<Id>>, order: seq<Id>, hash: Hash) {
    && |heads| == BUCKETS && AllIn(order, store) && Distinct(order)
    && (forall id :: id in store && store[id].rtcp.Some? ==> id in order)
    && (forall i :: 0 <= i < |order| ==> store[order[i]].rtcp.Some?)
    && (forall h :: BucketAt(store, links, heads, order, hash, h))
  }

  // ----- chains as sub-lists

  lemma {:induction false} ChainMembers(order: seq<Id>, store: Store, hash: Hash, h: nat)
    requires AllIn(order, store)
    ensures
      var c := Chain(order, store, hash, h);
      && AllIn(c, store) && (forall i :: 0 <= i < |c| ==> c[i] in order && hash(store[c[i]].callId) == h)
      && (forall i :: 0 <= i < |order| && hash(store[order[i]].callId) == h ==> order[i] in c)
      && (Distinct(order) ==> Distinct(c))
  {
    if order != [] {
      var n := |order| - 1;
      ChainMembers(order[..n], store, hash, h);
      assert order == order[..n] + [order[n]];
    }
  }

  /** Call-ids with the same bucket are found in its chain, in the same order. */
  lemma {:induction false} SelOfChain(order: seq<Id>, store: Store, hash: Hash, callId: string)
    requires AllIn(order, store)
    ensures
      var c := Chain(order, store, hash, hash(callId));
      AllIn(c, store) && Sel(c, store, callId) == Sel(order, store, callId)
  {
    ChainMembers(order, store, hash, hash(callId));
    if order != [] {
      var n := |order| - 1;
      SelOfChain(order[..n], store, hash, callId);
      ChainMembers(order[..n], store, hash, hash(callId));
      var c, c' := Chain(order, store, hash, hash(callId)), Chain(order[..n], store, hash, hash(callId));
      if c != c' {
        assert c[..|c| - 1] == c';
      }
    }
  }

  lemma {:induction false} SelConcat(a: seq<Id>, b: seq<Id>, store: Store, callId: string)
    requires AllIn(a, store) && AllIn(b, store)
    ensures AllIn(a + b, store) && Sel(a + b, store, callId) == Sel(a, store, callId) + Sel(b, store, callId)
  {
    if b == [] {
      assert a + b == a;
    } else {
      var n := |b| - 1;
      SelConcat(a, b[..n], store, callId);
      assert (a + b)[..|a + b| - 1] == a + b[..n];
    }
  }

  /** Chains only look at call-ids. */
  lemma {:induction false} SameCallIds(order: seq<Id>, a: Store, b: Store, hash: Hash, h: nat)
    requires AllIn(order, a) && AllIn(order, b)
    requires forall i :: 0 <= i < |order| ==> a[order[i]].callId == b[order[i]].callId
    ensures Chain(order, a, hash, h) == Chain(order, b, hash, h)
  {
    if order != [] {
      SameCallIds(order[..|order| - 1], a, b, hash, h);
    }
  }

  // ----- append and removal

  lemma ChainLast(order: seq<Id>, store: Store, hash: Hash, h: nat)
    requires AllIn(order, store) && order != []
    ensures
      var n := |order| - 1;
      && AllIn(order[..n], store)
      && Chain(order, store, hash, h) ==
         Chain(order[..n], store, hash, h) + if hash(store[order[n]].callId) == h then [order[n]] else []
  {
  }

  /** Removing a session from the list removes it from its own chain and no other. */
  lemma {:induction false} ChainWithout(order: seq<Id>, store: Store, hash: Hash, h: nat, i: nat) returns (k: nat)
    requires AllIn(order, store) && Distinct(order) && i < |order|
    ensures AllIn(Without(order, i), store)
    ensures
      var c := Chain(order, store, hash, h);
      if hash(store[order[i]].callId) == h
      then k < |c| && c[k] == order[i] && Chain(Without(order, i), store, hash, h) == Without(c, k)
      else Chain(Without(order, i), store, hash, h) == c
    decreases |order|
  {
    var n := |order| - 1;
    var c, c' := Chain(order, store, hash, h), Chain(order[..n], store, hash, h);
    if i == n {
      assert Without(order, i) == order[..n];
      k := |c'|;
      if hash(store[order[i]].callId) == h {
        assert Without(c, k) == c';
      }
    } else {
      k := ChainWithout(order[..n], store, hash, h, i);
      var w := Without(order, i);
      assert w[..|w| - 1] == Without(order[..n], i) && w[|w| - 1] == order[n];
      ChainLast(w, store, hash, h);
      if hash(store[order[i]].callId) == h && hash(store[order[n]].callId) == h {
        assert Without(c, k) == Without(c', k) + [order[n]];
      }
    }
  }

  // ----- the whole index

  /** The sessions of `a` are in `b` with the same call-ids and kinds. */
  ghost predicate SameNames(a: Store, b: Store) {
    forall id :: id in a ==> id in b && a[id].callId == b[id].callId && (a[id].rtcp.Some? <==> b[id].rtcp.Some?)
  }

  lemma NamesKeepIndex(a: Store, b: Store, links: map<Id, Link>, heads: seq<Option<Id>>, order: seq<Id>, hash: Hash)
    requires IndexInv(a, links, heads, order, hash) && SameNames(a, b)
    requires forall id :: id in b && b[id].rtcp.Some? ==> id in a
    ensures IndexInv(b, links, heads, order, hash)
  {
    forall h {:trigger BucketAt(b, links, heads, order, hash, h)} ensures BucketAt(b, links, heads, order, hash, h) {
      assert BucketAt(a, links, heads, order, hash, h);
      SameCallIds(order, a, b, hash, h);
    }
  }

  /** A new session goes to the end of the list and to the end of its chain. */
  lemma AppendKeepsIndex(a: Store, b: Store, links: map<Id, Link>, heads: seq<Option<Id>>, order: seq<Id>,
                         hash: Hash, id: Id)
    requires IndexInv(a, links, heads, order, hash) && SameNames(a, b)
    requires id !in a && id in b && b[id].rtcp.Some?
    requires forall x :: x in b && b[x].rtcp.Some? ==> x in a || x == id
    ensures
      var h := hash(b[id].callId);
      var c := Chain(order, a, hash, h);
      IndexInv(b, LinkLast(links, c, id), if c == [] then heads[h := Some(id)] else heads, order + [id], hash)
  {
    var h0 := hash(b[id].callId);
    var c0 := Chain(order, a, hash, h0);
    var links' := LinkLast(links, c0, id);
    var heads' := if c0 == [] then heads[h0 := Some(id)] else heads;
    forall h: nat {:trigger BucketAt(b, links', heads', order + [id], hash, h)}
      ensures BucketAt(b, links', heads', order + [id], hash, h)
    {
      if h < |heads| {
        AppendBucket(a, b, links, heads, order, hash, id, h);
      }
    }
  }

  lemma AppendBucket(a: Store, b: Store, links: map<Id, Link>, heads: seq<Option<Id>>, order: seq<Id>,
                     hash: Hash, id: Id, h: nat)
    requires IndexInv(a, links, heads, order, hash) && SameNames(a, b) && id !in a && id in b && h < |heads|
    ensures
      var h0 := hash(b[id].callId);
      var c0 := Chain(order, a, hash, h0);
      && AllIn(order + [id], b)
      && BucketAt(b, LinkLast(links, c0, id), if c0 == [] then heads[h0 := Some(id)] else heads, order + [id], hash, h)
  {
    var h0 := hash(b[id].callId);
    var c, c0 := Chain(order, a, hash, h), Chain(order, a, hash, h0);
    assert BucketAt(a, links, heads, order, hash, h);
    ChainMembers(order, a, hash, h);
    ChainMembers(order, a, hash, h0);
    AppendChain(order, a, b, hash, id, h);
    if h == h0 {
      AppendLinked(c, heads[h], links, id);
    } else {
      AppendOther(c, c0, heads[h], links, a, hash, h, h0, id);
    }
  }

  lemma AppendChain(order: seq<Id>, a: Store, b: Store, hash: Hash, id: Id, h: nat)
    requires AllIn(order, a) && SameNames(a, b) && id in b
    ensures AllIn(order + [id], b)
    ensures Chain(order + [id], b, hash, h) ==
            if hash(b[id].callId) == h then Chain(order, a, hash, h) + [id] else Chain(order, a, hash, h)
  {
    SameCallIds(order, a, b, hash, h);
    assert (order + [id])[..|order|] == order;
  }

  lemma AppendOther(c: seq<Id>, c0: seq<Id>, head: Option<Id>, links: map<Id, Link>, a: Store,
                    hash: Hash, h: nat, h0: nat, id: Id)
    requires Chains.Linked(c, head, links) && AllIn(c, a) && AllIn(c0, a) && id !in a && h != h0
    requires forall i :: 0 <= i < |c| ==> hash(a[c[i]].callId) == h
    requires forall i :: 0 <= i < |c0| ==> hash(a[c0[i]].callId) == h0
    ensures Chains.Linked(c, head, LinkLast(links, c0, id))
  {
    forall i | 0 <= i < |c| ensures c[i] in LinkLast(links, c0, id) && LinkLast(links, c0, id)[c[i]] == links[c[i]] {
      assert c[i] in links && c[i] in a;
      if c0 != [] {
        assert hash(a[c0[|c0| - 1]].callId) == h0;
      }
    }
    OtherLinked(c, head, links, LinkLast(links, c0, id));
  }

  predicate NeighboursIn(links: map<Id, Link>, id: Id)
    requires id in links
  {
    && (links[id].prev.Some? ==> links[id].prev.value in links && links[id].prev.value != id)
    && (links[id].next.Some? ==> links[id].next.value in links && links[id].next != links[id].prev)
  }

  /** The head of the bucket after `hash_table_remove`. */
  function HeadsWithout(links: map<Id, Link>, heads: seq<Option<Id>>, h: nat, id: Id): (heads': seq<Option<Id>>)
    requires id in links
    ensures |heads'| == |heads|
  {
    if links[id].prev.None? && h < |heads| then heads[h := links[id].next] else heads
  }

  /** A removed session leaves the list and its chain; if it has no predecessor it is the
      head of its bucket. */
  lemma RemoveKeepsIndex(a: Store, b: Store, links: map<Id, Link>, heads: seq<Option<Id>>, order: seq<Id>,
                         hash: Hash, i: nat)
    requires IndexInv(a, links, heads, order, hash) && SameNames(b, a) && i < |order|
    requires forall x :: x in a && a[x].rtcp.Some? && x != order[i] ==> x in b
    requires order[i] !in b
    ensures order[i] in links
    ensures links[order[i]].prev.None? ==> heads[hash(a[order[i]].callId)] == Some(order[i])
    ensures NeighboursIn(links, order[i])
    ensures
      var h := hash(a[order[i]].callId);
      IndexInv(b, Unlink(links, order[i]), HeadsWithout(links, heads, h, order[i]), Without(order, i), hash)
  {
    var id := order[i];
    var h0 := hash(a[id].callId);
    RemoveOwn(a, links, heads, order, hash, i);
    var order' := Without(order, i);
    WithoutList(order, i);
    forall j | 0 <= j < |order'| ensures order'[j] in b && b[order'[j]].rtcp.Some? {
      assert order'[j] in order;
    }
    forall h: nat {:trigger BucketAt(b, Unlink(links, id), HeadsWithout(links, heads, h0, id), order', hash, h)}
      ensures BucketAt(b, Unlink(links, id), HeadsWithout(links, heads, h0, id), order', hash, h)
    {
      if h < |heads| {
        RemoveBucket(a, b, links, heads, order, hash, i, h);
      }
    }
  }

  lemma WithoutList(s: seq<Id>, i: nat)
    requires Distinct(s) && i < |s|
    ensures Distinct(Without(s, i))
    ensures forall x :: x in s && x != s[i] ==> x in Without(s, i)
    ensures forall x :: x in Without(s, i) ==> x in s && x != s[i]
  {
    var w := Without(s, i);
    forall x | x in s && x != s[i] ensures x in w {
      var j :| 0 <= j < |s| && s[j] == x;
      assert w[if j < i then j else j - 1] == x;
    }
    forall x | x in w ensures x in s && x != s[i] {
      var j :| 0 <= j < |w| && w[j] == x;
      assert w[j] == s[if j < i then j else j + 1];
    }
  }

  lemma RemoveOwn(a: Store, links: map<Id, Link>, heads: seq<Option<Id>>, order: seq<Id>, hash: Hash, i: nat)
    requires IndexInv(a, links, heads, order, hash) && i < |order|
    ensures order[i] in links && NeighboursIn(links, order[i]) && AllIn(Without(order, i), a)
    ensures
      var h := hash(a[order[i]].callId);
      && (links[order[i]].prev.None? ==> heads[h] == Some(order[i]))
      && Chains.Linked(Chain(Without(order, i), a, hash, h), HeadsWithout(links, heads, h, order[i])[h],
                       Unlink(links, order[i]))
  {
    var h := hash(a[order[i]].callId);
    assert BucketAt(a, links, heads, order, hash, h);
    ChainMembers(order, a, hash, h);
    var k := ChainWithout(order, a, hash, h, i);
    RemoveLinked(Chain(order, a, hash, h), heads[h], links, k);
    assert LinkAt(Chain(order, a, hash, h), links, k);
  }

  lemma RemoveOther(a: Store, links: map<Id, Link>, heads: seq<Option<Id>>, order: seq<Id>, hash: Hash, i: nat, h: nat)
    requires IndexInv(a, links, heads, order, hash) && i < |order| && h < |heads|
    requires h != hash(a[order[i]].callId) && order[i] in links
    ensures AllIn(Without(order, i), a)
    ensures Chains.Linked(Chain(Without(order, i), a, hash, h), heads[h], Unlink(links, order[i]))
  {
    var id := order[i];
    var h0 := hash(a[id].callId);
    assert BucketAt(a, links, heads, order, hash, h) && BucketAt(a, links, heads, order, hash, h0);
    var c, c0 := Chain(order, a, hash, h), Chain(order, a, hash, h0);
    ChainMembers(order, a, hash, h);
    ChainMembers(order, a, hash, h0);
    var _ := ChainWithout(order, a, hash, h, i);
    var k0 := ChainWithout(order, a, hash, h0, i);
    assert LinkAt(c0, links, k0);
    forall j | 0 <= j < |c| ensures c[j] in Unlink(links, id) && Unlink(links, id)[c[j]] == links[c[j]] {
      assert LinkAt(c, links, j);
      NotNeighbour(c, c0, k0, a, hash, h, h0, j);
    }
    OtherLinked(c, heads[h], links, Unlink(links, id));
  }

  lemma RemoveBucket(a: Store, b: Store, links: map<Id, Link>, heads: seq<Option<Id>>, order: seq<Id>,
                     hash: Hash, i: nat, h: nat)
    requires IndexInv(a, links, heads, order, hash) && SameNames(b, a) && i < |order| && h < |heads|
    requires forall x :: x in a && a[x].rtcp.Some? && x != order[i] ==> x in b
    requires order[i] in links
    ensures AllIn(Without(order, i), b)
    ensures BucketAt(b, Unlink(links, order[i]), HeadsWithout(links, heads, hash(a[order[i]].callId), order[i]),
                     Without(order, i), hash, h)
  {
    WithoutList(order, i);
    var order' := Without(order, i);
    forall j | 0 <= j < |order'| ensures order'[j] in b {
      assert order'[j] in order;
    }
    if h == hash(a[order[i]].callId) {
      RemoveOwn(a, links, heads, order, hash, i);
    } else {
      RemoveOther(a, links, heads, order, hash, i, h);
    }
    SameCallIds(order', b, a, hash, h);
  }

  lemma NotNeighbour(c: seq<Id>, c0: seq<Id>, k0: nat, a: Store, hash: Hash, h: nat, h0: nat, j: nat)
    requires AllIn(c, a) && AllIn(c0, a) && j < |c| && k0 < |c0| && h != h0
    requires forall i :: 0 <= i < |c| ==> hash(a[c[i]].callId) == h
    requires forall i :: 0 <= i < |c0| ==> hash(a[c0[i]].callId) == h0
    ensures Before(c0, k0) != Some(c[j]) && After(c0, k0 + 1) != Some(c[j]) && c[j] != c0[k0]
  {
  }

  // ----- look-ups

  lemma {:induction false} SelMembers(order: seq<Id>, store: Store, callId: string)
    requires AllIn(order, store)
    ensures forall x :: x in Sel(order, store, callId) ==> x in order && x in store && store[x].callId == callId
  {
    if order != [] {
      SelMembers(order[..|order| - 1], store, callId);
    }
  }

  /** What a look-up finds is a live RTP session. */
  lemma SelIsRtp(store: Store, links: map<Id, Link>, heads: seq<Option<Id>>, order: seq<Id>, hash: Hash,
                 callId: string, i: nat)
    requires IndexInv(store, links, heads, order, hash) && i < |Sel(order, store, callId)|
    ensures var id := Sel(order, store, callId)[i]; id in order && id in store && store[id].rtcp.Some?
    ensures forall x :: x in order ==> x in store.Keys
  {
    SelMembers(order, store, callId);
    var id := Sel(order, store, callId)[i];
    assert id in Sel(order, store, callId);
  }

  lemma {:induction false} SelDistinct(order: seq<Id>, store: Store, callId: string)
    requires AllIn(order, store) && Distinct(order)
    ensures Distinct(Sel(order, store, callId))
  {
    if order != [] {
      SelDistinct(order[..|order| - 1], store, callId);
      SelMembers(order[..|order| - 1], store, callId);
    }
  }

  /** The matches before, at and after a position that matches. */
  lemma SelStep(c: seq<Id>, store: Store, callId: string, k: nat)
    requires AllIn(c, store) && k < |c| && store[c[k]].callId == callId
    ensures
      var n := |Sel(c[..k], store, callId)|;
      && n < |Sel(c, store, callId)| && Sel(c, store, callId)[n] == c[k]
      && |Sel(c[..k + 1], store, callId)| == n + 1
  {
    assert c[..k + 1][..k] == c[..k];
    assert c == c[..k + 1] + c[k + 1..];
    SelConcat(c[..k + 1], c[k + 1..], store, callId);
  }

  /** Where match number `i` is in the chain. */
  lemma {:induction false} PlaceInChain(c: seq<Id>, store: Store, callId: string, i: nat) returns (k: nat)
    requires AllIn(c, store) && i < |Sel(c, store, callId)|
    ensures k < |c| && c[k] == Sel(c, store, callId)[i] && store[c[k]].callId == callId
    ensures |Sel(c[..k], store, callId)| == i
    decreases |c|
  {
    var n := |c| - 1;
    if i < |Sel(c[..n], store, callId)| {
      k := PlaceInChain(c[..n], store, callId, i);
      assert c[..n][..k] == c[..k];
    } else {
      k := n;
    }
  }

  // ----- survivors

  /** The sessions of a list that are among these. */
  ghost function Alive(order: seq<Id>, ids: set<Id>): seq<Id> {
    if order == [] then [] else
    var n := |order| - 1;
    if order[n] in ids then Alive(order[..n], ids) + [order[n]] else Alive(order[..n], ids)
  }

  lemma {:induction false} AliveAll(order: seq<Id>, ids: set<Id>)
    requires forall x :: x in order ==> x in ids
    ensures Alive(order, ids) == order
  {
    if order != [] {
      AliveAll(order[..|order| - 1], ids);
    }
  }

  lemma {:induction false} AliveTwice(order: seq<Id>, a: set<Id>, b: set<Id>)
    requires b <= a
    ensures Alive(Alive(order, a), b) == Alive(order, b)
  {
    if order != [] {
      var n := |order| - 1;
      AliveTwice(order[..n], a, b);
      var c := Alive(order, a);
      if order[n] in a {
        assert c[..|c| - 1] == Alive(order[..n], a);
      }
    }
  }

  /** Dropping one session from a list of distinct ones is keeping the others. */
  lemma {:induction false} AliveWithout(order: seq<Id>, ids: set<Id>, i: nat)
    requires Distinct(order) && i < |order|
    requires forall x :: x in order ==> (x in ids <==> x != order[i])
    ensures Alive(order, ids) == Without(order, i)
    decreases |order|
  {
    var n := |order| - 1;
    if i == n {
      AliveAll(order[..n], ids);
      assert Without(order, i) == order[..n];
    } else {
      AliveWithout(order[..n], ids, i);
      assert Without(order, i) == Without(order[..n], i) + [order[n]];
    }
  }

  lemma {:induction false} AliveConcat(a: seq<Id>, b: seq<Id>, ids: set<Id>)
    ensures Alive(a + b, ids) == Alive(a, ids) + Alive(b, ids)
  {
    if b == [] {
      assert a + b == a;
    } else {
      AliveConcat(a, b[..|b| - 1], ids);
      assert (a + b)[..|a + b| - 1] == a + b[..|b| - 1];
    }
  }

  /** The matches among the survivors are the survivors among the matches. */
  lemma {:induction false} SelAlive(order: seq<Id>, a: Store, b: Store, callId: string)
    requires AllIn(order, a) && forall id :: id in a && id in b ==> a[id].callId == b[id].callId
    ensures AllIn(Alive(order, b.Keys), b)
    ensures Sel(Alive(order, b.Keys), b, callId) == Alive(Sel(order, a, callId), b.Keys)
  {
    if order != [] {
      var n := |order| - 1;
      SelAlive(order[..n], a, b, callId);
      var c, m := Alive(order, b.Keys), Sel(order, a, callId);
      if order[n] in b {
        assert c[..|c| - 1] == Alive(order[..n], b.Keys);
      }
      if a[order[n]].callId == callId {
        assert m[..|m| - 1] == Sel(order[..n], a, callId);
      }
    }
  }
}
