/** Doubly linked chains: elements are numbered, and their pointers live in a map. */
module Chains {
  import opened Options

  type Id = nat

  /** The pointers of one element. */
  datatype Link = Link(prev: Option<Id>, next: Option<Id>)

  ghost predicate Distinct(s: seq<Id>) {
    forall i, j :: 0 <= i < j < |s| ==> s[i] != s[j]
  }

  function Before(c: seq<Id>, i: nat): Option<Id>
    requires i <= |c|
  {
    if i == 0 then None else Some(c[i - 1])
  }

  function After(c: seq<Id>, i: nat): Option<Id>
    requires i <= |c|
  {
    if i == |c| then None else Some(c[i])
  }

  ghost predicate LinkAt(c: seq<Id>, links: map<Id, Link>, i: int) {
    0 <= i < |c| ==> c[i] in links && links[c[i]] == Link(Before(c, i), After(c, i + 1))
  }

  /** The pointers spell out this chain. */
  ghost predicate Linked(c: seq<Id>, head: Option<Id>, links: map<Id, Link>) {
    && head == After(c, 0)
    && (forall i :: 0 <= i < |c| ==> c[i] in links)
    && (forall i :: LinkAt(c, links, i))
  }

  /** Links an element behind the last one. */
  function LinkLast(links: map<Id, Link>, c: seq<Id>, id: Id): map<Id, Link> {
    if c == [] then links[id := Link(None, None)]
    else
      var last := c[|c| - 1];
      var links1 := if last in links then links[last := links[last].(next := Some(id))] else links;
      links1[id := Link(Some(last), None)]
  }

  lemma AppendLinked(c: seq<Id>, head: Option<Id>, links: map<Id, Link>, id: Id)
    requires Linked(c, head, links) && Distinct(c) && id !in c
    ensures Linked(c + [id], if c == [] then Some(id) else head, LinkLast(links, c, id))
  {
    var links' := LinkLast(links, c, id);
    assert LinkAt(c, links, |c| - 1);
    forall i {:trigger LinkAt(c + [id], links', i)} ensures LinkAt(c + [id], links', i) {
      assert LinkAt(c, links, i);
    }
  }

  lemma OtherLinked(c: seq<Id>, head: Option<Id>, links: map<Id, Link>, links': map<Id, Link>)
    requires Linked(c, head, links)
    requires forall i :: 0 <= i < |c| ==> c[i] in links' && links'[c[i]] == links[c[i]]
    ensures Linked(c, head, links')
  {
    forall i {:trigger LinkAt(c, links', i)} ensures LinkAt(c, links', i) {
      assert LinkAt(c, links, i);
    }
  }

  function Without(s: seq<Id>, i: nat): seq<Id>
    requires i < |s|
  {
    s[..i] + s[i + 1..]
  }

  /** Links the neighbours of an element to each other. */
  function Unlink(links: map<Id, Link>, id: Id): map<Id, Link>
    requires id in links
  {
    var l := links[id];
    var links1 := if l.prev.Some? && l.prev.value in links
                  then links[l.prev.value := links[l.prev.value].(next := l.next)] else links;
    if l.next.Some? && l.next.value in links1
    then links1[l.next.value := links1[l.next.value].(prev := l.prev)] else links1
  }

  lemma RemoveLinked(c: seq<Id>, head: Option<Id>, links: map<Id, Link>, i: nat)
    requires Linked(c, head, links) && Distinct(c) && i < |c|
    ensures Linked(Without(c, i), if i == 0 then links[c[i]].next else head, Unlink(links, c[i]))
    ensures i == 0 <==> links[c[i]].prev.None?
  {
    var c', links' := Without(c, i), Unlink(links, c[i]);
    assert LinkAt(c, links, i - 1) && LinkAt(c, links, i) && LinkAt(c, links, i + 1);
    forall j {:trigger LinkAt(c', links', j)} ensures LinkAt(c', links', j) {
      RemoveLinkAt(c, links, i, j);
    }
  }

  lemma RemoveLinkAt(c: seq<Id>, links: map<Id, Link>, i: nat, j: int)
    requires Distinct(c) && i < |c| && c[i] in links
    requires LinkAt(c, links, i - 1) && LinkAt(c, links, i) && LinkAt(c, links, i + 1)
    requires LinkAt(c, links, j) && LinkAt(c, links, j + 1)
    ensures LinkAt(Without(c, i), Unlink(links, c[i]), j)
  {
    var c' := Without(c, i);
    if 0 <= j < |c'| {
      var k := if j < i then j else j + 1;
      assert c'[j] == c[k];
      assert j > 0 ==> c'[j - 1] == if j - 1 < i then c[j - 1] else c[j];
      assert j + 1 < |c'| ==> c'[j + 1] == if j + 1 < i then c[j + 1] else c[j + 2];
      assert k != i;
    }
  }

  // ----- insertion

  /** Links an element in at position `k`. */
  function LinkIn(links: map<Id, Link>, c: seq<Id>, k: nat, id: Id): map<Id, Link>
    requires k <= |c|
  {
    var before, after := Before(c, k), After(c, k);
    var links1 := links[id := Link(before, after)];
    var links2 := if after.Some? && after.value in links1
                  then links1[after.value := links1[after.value].(prev := Some(id))] else links1;
    if before.Some? && before.value in links2
    then links2[before.value := links2[before.value].(next := Some(id))] else links2
  }

  function WithIn(s: seq<Id>, k: nat, id: Id): seq<Id>
    requires k <= |s|
  {
    s[..k] + [id] + s[k..]
  }

  lemma InsertLinked(c: seq<Id>, head: Option<Id>, links: map<Id, Link>, k: nat, id: Id)
    requires Linked(c, head, links) && Distinct(c) && k <= |c| && id !in c
    ensures Linked(WithIn(c, k, id), if k == 0 then Some(id) else head, LinkIn(links, c, k, id))
    ensures Distinct(WithIn(c, k, id))
  {
    var c', links' := WithIn(c, k, id), LinkIn(links, c, k, id);
    assert LinkAt(c, links, k - 1) && LinkAt(c, links, k);
    forall j {:trigger LinkAt(c', links', j)} ensures LinkAt(c', links', j) {
      assert LinkAt(c, links, j) && LinkAt(c, links, j - 1);
      InsertLinkAt(c, links, k, id, j);
    }
  }

  lemma InsertLinkAt(c: seq<Id>, links: map<Id, Link>, k: nat, id: Id, j: int)
    requires Distinct(c) && k <= |c| && id !in c
    requires LinkAt(c, links, k - 1) && LinkAt(c, links, k) && LinkAt(c, links, j) && LinkAt(c, links, j - 1)
    ensures LinkAt(WithIn(c, k, id), LinkIn(links, c, k, id), j)
  {
    var c' := WithIn(c, k, id);
    if 0 <= j < |c'| {
      assert c'[j] == if j < k then c[j] else if j == k then id else c[j - 1];
      assert j > 0 ==> c'[j - 1] == if j - 1 < k then c[j - 1] else if j - 1 == k then id else c[j - 2];
      assert j + 1 < |c'| ==> c'[j + 1] == if j + 1 < k then c[j + 1] else if j + 1 == k then id else c[j];
    }
  }
}
