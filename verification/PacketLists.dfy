/** The lists of the re-packetizer on numbered packets: who owns which, what linking, unlinking
    and freeing do to them, and how far an aggregation got. */
module PacketLists {
  import opened Options
  import opened Words
  import opened Chains
  import opened Codec
  import opened ResizerSpec

  // ----- who owns which packet

  ghost predicate HoldsAt(packets: map<Id, Packet>, ids: seq<Id>, vs: seq<Packet>, i: int) {
    0 <= i < |ids| && i < |vs| ==> ids[i] in packets && packets[ids[i]] == vs[i]
  }

  /** The packets of a list have these values. */
  ghost predicate Holds(packets: map<Id, Packet>, ids: seq<Id>, vs: seq<Packet>) {
    |vs| == |ids| && forall i :: HoldsAt(packets, ids, vs, i)
  }

  ghost predicate PoolAt(fl: seq<Id>, links: map<Id, Link>, i: int) {
    0 <= i < |fl| ==> fl[i] in links && links[fl[i]].next == After(fl, i + 1)
  }

  /** The free packets, chained by their next pointers. */
  ghost predicate Pooled(fl: seq<Id>, links: map<Id, Link>) {
    forall i :: PoolAt(fl, links, i)
  }

  /** No packet is in two places. */
  ghost predicate Disjoint(ids: seq<Id>, fl: seq<Id>) {
    Distinct(ids) && Distinct(fl) && forall x :: x in ids ==> x !in fl
  }

  /** What free packets hold does not matter. */
  ghost predicate Blank(fl: seq<Id>, packets: map<Id, Packet>) {
    forall x :: x in fl ==> x !in packets
  }

  // ----- changes to one packet

  /** Changing packets elsewhere leaves a list alone. */
  lemma HoldsElsewhere(packets: map<Id, Packet>, ids: seq<Id>, vs: seq<Packet>, packets': map<Id, Packet>)
    requires Holds(packets, ids, vs)
    requires forall x :: x in ids && x in packets ==> x in packets' && packets'[x] == packets[x]
    ensures Holds(packets', ids, vs)
  {
    forall i {:trigger HoldsAt(packets', ids, vs, i)} ensures HoldsAt(packets', ids, vs, i) {
      assert HoldsAt(packets, ids, vs, i);
      if 0 <= i < |ids| { assert ids[i] in ids; }
    }
  }

  lemma HoldsHead(packets: map<Id, Packet>, ids: seq<Id>, vs: seq<Packet>, v: Packet)
    requires Holds(packets, ids, vs) && ids != [] && Distinct(ids)
    ensures Holds(packets[ids[0] := v], ids, vs[0 := v])
  {
    var p := packets[ids[0] := v];
    forall i {:trigger HoldsAt(p, ids, vs[0 := v], i)} ensures HoldsAt(p, ids, vs[0 := v], i) {
      assert HoldsAt(packets, ids, vs, i);
    }
  }

  lemma HoldsTail(packets: map<Id, Packet>, ids: seq<Id>, vs: seq<Packet>)
    requires Holds(packets, ids, vs) && ids != []
    ensures ids[0] in packets && packets[ids[0]] == vs[0] && Holds(packets, ids[1..], vs[1..])
  {
    assert HoldsAt(packets, ids, vs, 0);
    forall i {:trigger HoldsAt(packets, ids[1..], vs[1..], i)} ensures HoldsAt(packets, ids[1..], vs[1..], i) {
      assert HoldsAt(packets, ids, vs, i + 1);
    }
  }

  lemma HoldsInsert(packets: map<Id, Packet>, ids: seq<Id>, vs: seq<Packet>, id: Id, v: Packet, k: nat)
    requires Holds(packets, ids, vs) && id !in ids && k <= |ids| && id in packets && packets[id] == v
    ensures Holds(packets, WithIn(ids, k, id), vs[..k] + [v] + vs[k..])
  {
    var ids', vs' := WithIn(ids, k, id), vs[..k] + [v] + vs[k..];
    forall i {:trigger HoldsAt(packets, ids', vs', i)} ensures HoldsAt(packets, ids', vs', i) {
      assert HoldsAt(packets, ids, vs, i) && HoldsAt(packets, ids, vs, i - 1);
    }
  }

  lemma PoolElsewhere(fl: seq<Id>, links: map<Id, Link>, links': map<Id, Link>)
    requires Pooled(fl, links)
    requires forall x :: x in fl && x in links ==> x in links' && links'[x] == links[x]
    ensures Pooled(fl, links')
  {
    forall i {:trigger PoolAt(fl, links', i)} ensures PoolAt(fl, links', i) {
      assert PoolAt(fl, links, i);
      if 0 <= i < |fl| { assert fl[i] in fl; }
    }
  }

  lemma PoolTail(fl: seq<Id>, links: map<Id, Link>)
    requires Pooled(fl, links) && fl != []
    ensures fl[0] in links && links[fl[0]].next == After(fl, 1) == After(fl[1..], 0)
    ensures Pooled(fl[1..], links)
  {
    assert PoolAt(fl, links, 0);
    forall i {:trigger PoolAt(fl[1..], links, i)} ensures PoolAt(fl[1..], links, i) {
      assert PoolAt(fl, links, i + 1);
    }
  }

  lemma DisjointTail(ids: seq<Id>, fl: seq<Id>)
    requires Disjoint(ids, fl) && fl != []
    ensures Disjoint(ids, fl[1..]) && fl[0] !in fl[1..] && fl[0] !in ids && fl[0] in fl
  {
  }

  lemma PoolPush(fl: seq<Id>, links: map<Id, Link>, id: Id)
    requires Pooled(fl, links) && id !in fl
    ensures Pooled([id] + fl, links[id := Link(None, After(fl, 0))])
  {
    var links', fl' := links[id := Link(None, After(fl, 0))], [id] + fl;
    forall i {:trigger PoolAt(fl', links', i)} ensures PoolAt(fl', links', i) {
      assert PoolAt(fl, links, i - 1);
      if 0 < i < |fl'| { assert fl[i - 1] in fl; }
    }
  }

  lemma ChainElsewhere(ids: seq<Id>, links: map<Id, Link>, id: Id, l: Link)
    requires Linked(ids, After(ids, 0), links) && id !in ids
    ensures Linked(ids, After(ids, 0), links[id := l])
  {
    OtherLinked(ids, After(ids, 0), links, links[id := l]);
  }

  /** What linking a packet in relies on, and what it gives. */
  lemma LinkReady(c: seq<Id>, links: map<Id, Link>, k: nat, id: Id)
    requires Linked(c, After(c, 0), links) && Distinct(c) && k <= |c| && id !in c
    ensures k > 0 ==> (k == |c| <==> Before(c, k) == Before(c, |c|))
    ensures (k > 0 ==> c[k - 1] in links && links[c[k - 1]].next == After(c, k)) && (k < |c| ==> c[k] in links)
    ensures Linked(WithIn(c, k, id), After(WithIn(c, k, id), 0), LinkIn(links, c, k, id))
    ensures Distinct(WithIn(c, k, id)) && |WithIn(c, k, id)| == |c| + 1
    ensures After(WithIn(c, k, id), 0) == if k == 0 then Some(id) else After(c, 0)
    ensures Before(WithIn(c, k, id), |c| + 1) == if k == |c| then Some(id) else Before(c, |c|)
    ensures forall x :: x in WithIn(c, k, id) <==> x in c || x == id
    ensures forall x :: x !in c && x != id && x in links ==>
              x in LinkIn(links, c, k, id) && LinkIn(links, c, k, id)[x] == links[x]
  {
    InsertLinked(c, After(c, 0), links, k, id);
    var j: int := k;
    assert LinkAt(c, links, j - 1) && LinkAt(c, links, j);
  }

  lemma DetachReady(c: seq<Id>, links: map<Id, Link>, fl: seq<Id>)
    requires Linked(c, After(c, 0), links) && Disjoint(c, fl) && c != []
    ensures c[0] in links && links[c[0]] == Link(None, After(c, 1)) && After(c, 1) == After(c[1..], 0)
    ensures |c| > 1 ==> c[1] in links && c[1] !in fl
    ensures Linked(c[1..], After(c[1..], 0), Unlink(links, c[0]))
    ensures Unlink(links, c[0]) == if |c| == 1 then links else links[c[1] := links[c[1]].(prev := None)]
    ensures Disjoint(c[1..], fl) && c[0] !in c[1..] && c[0] !in fl && c[0] in c
    ensures Before(c[1..], |c[1..]|) == if |c| == 1 then None else Before(c, |c|)
  {
    RemoveLinked(c, After(c, 0), links, 0);
    assert LinkAt(c, links, 0) && LinkAt(c, links, 1) && c[1..] == Without(c, 0);
  }

  lemma PartFits(p: Packet, min: nat)
    requires Queued(p) && 0 < min < p.nsamples
    ensures var c := ChunkOf(p, min); c.Part? ==> c.bytes <= |p.payload| <= p.size
  {
    ChunkKeepsFraming(p.pt, p.payload, min);
  }

  // ----- an aggregation, turn by turn

  ghost function OrEmpty(bytes: Option<seq<byte>>): seq<byte> {
    if bytes.Some? then bytes.value else []
  }

  lemma OwnedPush(ids: seq<Id>, fl: seq<Id>, id: Id)
    ensures Owned(ids, [id] + fl) == Owned(ids, fl) + multiset{id}
  {
  }

  /** The packets in queue and pool, and those in hand. */
  ghost function Owned(ids: seq<Id>, fl: seq<Id>): multiset<Id> {
    multiset(ids) + multiset(fl)
  }

  lemma Consed(x: Id, s: seq<Id>)
    ensures multiset([x] + s) == multiset{x} + multiset(s)
  {
  }

  lemma {:induction false} FreedIs(ids: seq<Id>, n: nat)
    requires 0 < n <= |ids|
    ensures multiset{ids[0]} + multiset(Freed(ids, n)) + multiset(ids[n..]) == multiset(ids)
  {
    var x, head := ids[n - 1], multiset{ids[0]};
    assert ids[n - 1..] == [x] + ids[n..];
    Consed(x, ids[n..]);
    if n == 1 {
      assert ids == ids[0..];
    } else {
      var f := Freed(ids, n - 1);
      assert Freed(ids, n) == [x] + f;
      FreedIs(ids, n - 1);
      Consed(x, f);
      hide Freed;
      Regroup(head, multiset{x}, multiset(f), multiset(ids[n..]));
    }
  }

  lemma Regroup(h: multiset<Id>, x: multiset<Id>, a: multiset<Id>, b: multiset<Id>)
    ensures h + (x + a) + b == h + a + (x + b)
  {
  }

  lemma SliceStep(q: seq<Packet>, ids: seq<Id>, fl: seq<Id>, i: nat)
    requires 0 < i < |q| == |ids|
    ensures q[i..][1..] == q[i + 1..] && ids[i..][1..] == ids[i + 1..] && ids[i..][0] == ids[i] && q[i..][0] == q[i]
    ensures [ids[i]] + (Freed(ids, i) + fl) == Freed(ids, i + 1) + fl
  {
  }

  lemma GetIs(r: ResizerSpec.Resizer, refTs: u32, spare: Option<nat>)
    requires AllQueued(r.queue) && r.outputNsamples > 0
    ensures Get(r, refTs, spare) ==
            if r.queue == [] || MustWait(r, refTs) then (None, r)
            else Numbered(r, Take(r.queue, Target(r.outputNsamples, r.queue[0].pt), spare))
  {
  }

  lemma TakeTurn(q: seq<Packet>, target: int, spare: Option<nat>)
    requires AllQueued(q) && q != [] && target > 0
    ensures var t := Start(q[0], target, spare); var r := Take(q, target, spare);
      && (t.Stop? ==> r == None)
      && (t.UseAll? ==> t.out.nsamples >= 0)
      && (t.UseAll? ==> r == Some(if t.more then Aggregate(t.out, q, 1, target) else Taken(t.out, 1, None)))
      && (t.UseHead? ==> r == Some(Taken(t.out, 0, Some(t.rest))))
  {
  }

  lemma {:induction false} AggregateTurn(ret: Packet, q: seq<Packet>, i: nat, target: int)
    requires AllQueued(q) && i < |q| && 0 <= ret.nsamples < target
    ensures var t := Extend(ret, q[i], target); var r := Aggregate(ret, q, i, target);
      && (t.Stop? ==> r == Taken(ret, i, None))
      && (t.UseAll? ==> t.out.nsamples >= 0)
      && (t.UseAll? ==> r == if t.more then Aggregate(t.out, q, i + 1, target) else Taken(t.out, i + 1, None))
      && (t.UseHead? ==> r == Taken(t.out, i, Some(t.rest)))
  {
  }

  lemma {:induction false} AggregateDone(ret: Packet, q: seq<Packet>, i: nat, target: int)
    requires AllQueued(q) && i <= |q| && 0 <= ret.nsamples && (ret.nsamples >= target || i == |q|)
    ensures Aggregate(ret, q, i, target) == Taken(ret, i, None)
  {
  }

  /** The packets an output used up after the first, the last one on top. */
  function Freed(ids: seq<Id>, n: nat): seq<Id>
    requires n <= |ids|
  {
    if n <= 1 then [] else [ids[n - 1]] + Freed(ids, n - 1)
  }
}
