/** The proxy's session state with the operations that change it in place. */
module SessionProxy {
  import opened Options
  import opened SessionTable
  import opened SessionPass
  import opened SessionDelete
  import Chains
  import Index = SessionIndex

  type Link = Chains.Link

  class Cfg {
    /** The sessions, by pointer, and their chain pointers. */
    var store: Store
    var links: map<Id, Link>
    /** The table of polled descriptors; slot 0 is the control socket. */
    const slots: array<Slot>
    var nsessions: nat
    const heads: array<Option<Id>>
    var sessionsActive: int
    const hash: Index.Hash
    /** The live RTP sessions in the order of their creation. */
    ghost var order: seq<Id>

    ghost predicate IndexOk()
      reads this, heads
    {
      && Index.AllIn(order, store) && Index.IndexInv(store, links, heads[..], order, hash)
      && sessionsActive == |order|
    }

    ghost predicate TableOk(w: nat, r: nat)
      reads this, slots
    {
      1 <= nsessions <= slots.Length && Inv(store, slots[..nsessions], w, r)
    }

    ghost predicate Valid()
      reads this, slots, heads
    {
      TableOk(1, 1) && IndexOk()
    }

    constructor (capacity: nat, hash: Index.Hash)
      requires capacity > 0
      ensures Valid() && store == map[] && order == [] && nsessions == 1
      ensures fresh(slots) && fresh(heads) && slots.Length == capacity && this.hash == hash
    {
      store, links, nsessions, sessionsActive, order := map[], map[], 1, 0, [];
      this.hash := hash;
      slots := new Slot[capacity](_ => HOLE);
      heads := new Option<Id>[Index.BUCKETS](_ => None);
      new;
      forall k {:trigger SlotAt(store, slots[..nsessions], 1, 1, k)}
        ensures SlotAt(store, slots[..nsessions], 1, 1, k)
      {
      }
      forall h {:trigger Index.BucketAt(store, links, heads[..], order, hash, h)}
        ensures Index.BucketAt(store, links, heads[..], order, hash, h)
      {
        forall i {:trigger Chains.LinkAt([], links, i)} ensures Chains.LinkAt([], links, i) {
        }
      }
    }

    // ----- the hash index

    /** Puts a new session at the end of its chain. */
    method HashAppend(id: Id, ghost before: Store)
      requires Index.IndexInv(before, links, heads[..], order, hash)
      requires id in store && store[id].rtcp.Some? && id !in before && Index.SameNames(before, store)
      requires forall x :: x in store && store[x].rtcp.Some? ==> x in before || x == id
      modifies this`links, this`order, heads
      ensures Index.IndexInv(store, links, heads[..], order, hash)
      ensures order == old(order) + [id]
    {
      var h := hash(store[id].callId);
      ghost var c := Index.Chain(order, before, hash, h);
      Index.AppendKeepsIndex(before, store, links, heads[..], order, hash, id);
      assert Index.BucketAt(before, links, heads[..], order, hash, h);
      var tsp := heads[h];
      order := order + [id];
      if tsp.None? {
        heads[h] := Some(id);
        links := links[id := Chains.Link(None, None)];
      } else {
        var last := LastInChain(tsp.value, c);
        links := links[last := links[last].(next := Some(id))];
        links := links[id := Chains.Link(Some(last), None)];
      }
    }

    /** Follows a chain to its end. */
    method LastInChain(first: Id, ghost c: seq<Id>) returns (last: Id)
      requires Chains.Linked(c, Some(first), links)
      ensures c != [] && last == c[|c| - 1] && last in links
    {
      last := first;
      ghost var i := 0;
      assert Chains.LinkAt(c, links, 0);
      while links[last].next.Some?
        invariant i < |c| && last == c[i] && Chains.LinkAt(c, links, i)
        decreases |c| - i
      {
        assert Chains.LinkAt(c, links, i + 1);
        last := links[last].next.value;
        i := i + 1;
      }
    }

    /** Takes a session out of its chain. The assertion on the bucket head never fails. */
    method HashRemove(id: Id, ghost after: Store, ghost i: nat)
      requires Index.IndexInv(store, links, heads[..], order, hash)
      requires i < |order| && order[i] == id && id !in after && Index.SameNames(after, store)
      requires forall x :: x in store && store[x].rtcp.Some? && x != id ==> x in after
      modifies this`links, this`order, heads
      ensures Index.IndexInv(after, links, heads[..], order, hash)
      ensures order == Chains.Without(old(order), i)
    {
      Index.RemoveKeepsIndex(store, after, links, heads[..], order, hash, i);
      order := Chains.Without(order, i);
      var l := links[id];
      if l.prev.Some? {
        links := links[l.prev.value := links[l.prev.value].(next := l.next)];
      } else {
        var h := hash(store[id].callId);
        assert heads[h] == Some(id);
        heads[h] := l.next;
      }
      if l.next.Some? {
        links := links[l.next.value := links[l.next.value].(prev := l.prev)];
      }
    }

    /** The sessions with a call-id, in the order of their creation. */
    ghost function Matches(callId: string): seq<Id>
      requires Index.AllIn(order, store)
      reads this
    {
      Index.Sel(order, store, callId)
    }

    /** The first session with this call-id. */
    method FindFirst(callId: string) returns (sp: Option<Id>)
      requires IndexOk()
      ensures sp == Chains.After(Matches(callId), 0)
    {
      var h := hash(callId);
      ghost var c := Index.Chain(order, store, hash, h);
      assert Index.BucketAt(store, links, heads[..], order, hash, h);
      Index.SelOfChain(order, store, hash, callId);
      sp := Scan(heads[h], callId, c, 0);
      assert c[..0] == [];
    }

    /** The next session with the same call-id; `sp` is number `i` of them. */
    method FindNext(sp: Id, ghost i: nat) returns (next: Option<Id>)
      requires IndexOk() && sp in store && i < |Matches(store[sp].callId)| && Matches(store[sp].callId)[i] == sp
      ensures next == Chains.After(Matches(store[sp].callId), i + 1)
    {
      var callId := store[sp].callId;
      ghost var h := hash(callId);
      ghost var c := Index.Chain(order, store, hash, h);
      assert Index.BucketAt(store, links, heads[..], order, hash, h);
      Index.SelOfChain(order, store, hash, callId);
      ghost var m := Index.PlaceInChain(c, store, callId, i);
      assert Chains.LinkAt(c, links, m);
      next := Scan(links[sp].next, callId, c, m + 1);
      Index.SelStep(c, store, callId, m);
    }

    /** Walks a chain from position `m` on to the next session with this call-id. */
    method Scan(start: Option<Id>, callId: string, ghost c: seq<Id>, ghost m: nat) returns (sp: Option<Id>)
      requires Index.AllIn(c, store) && m <= |c| && start == Chains.After(c, m)
      requires (forall i :: 0 <= i < |c| ==> c[i] in links) && (forall i :: Chains.LinkAt(c, links, i))
      ensures
        var skipped := |Index.Sel(c[..m], store, callId)|;
        skipped <= |Index.Sel(c, store, callId)| && sp == Chains.After(Index.Sel(c, store, callId), skipped)
    {
      sp := start;
      ghost var k := m;
      while sp.Some? && store[sp.value].callId != callId
        invariant m <= k <= |c| && sp == Chains.After(c, k)
        invariant Index.Sel(c[..k], store, callId) == Index.Sel(c[..m], store, callId)
        decreases |c| - k
      {
        assert Chains.LinkAt(c, links, k);
        assert c[..k + 1][..k] == c[..k];
        sp := links[sp.value].next;
        k := k + 1;
      }
      if sp.None? {
        assert c[..k] == c;
      } else {
        Index.SelStep(c, store, callId, k);
      }
    }

    /** Iterating from the first to the last match visits exactly the live sessions with
        this call-id, in the order of their creation. */
    method FindAll(callId: string) returns (found: seq<Id>)
      requires IndexOk()
      ensures found == Matches(callId)
    {
      found := [];
      var sp := FindFirst(callId);
      Index.SelMembers(order, store, callId);
      ghost var all := Matches(callId);
      while sp.Some?
        invariant |found| <= |all| && found == all[..|found|]
        invariant sp == Chains.After(all, |found|)
        decreases |all| - |found|
      {
        assert sp.value in all;
        var next := FindNext(sp.value, |found|);
        found := found + [sp.value];
        sp := next;
      }
    }

    // ----- the table

    /** Frees the slot of a leg. The assertions on the slot never fail. */
    method CloseLeg(s: Session, id: Id, leg: bool)
      requires nsessions <= slots.Length
      requires Open(s, leg) ==>
                 0 <= s.sidx.At(leg) < nsessions && slots[s.sidx.At(leg)] == Slot(Some(id), s.fds.At(leg))
      modifies slots
      ensures slots[..nsessions] == ClearLeg(old(slots[..nsessions]), s, leg)
    {
      if s.fds.At(leg) != NO_FD {
        var k := s.sidx.At(leg);
        assert slots[k].session == Some(id);
        assert slots[k].fd == s.fds.At(leg);
        slots[k] := HOLE;
      }
    }

    /** Frees all slots of an RTP session and of its twin. */
    method ClosePair(id: Id, t: Id, ghost w: nat, ghost r: nat)
      requires TableOk(w, r) && id in store && store[id].rtcp == Some(t) && t in store
      modifies slots
      ensures slots[..nsessions] == ClearPair(old(slots[..nsessions]), store[id], store[t])
    {
      ghost var sl := slots[..nsessions];
      assert PairedAt(store, id) && PairedAt(store, t);
      assert LinkedAt(store, sl, w, r, id, false) && LinkedAt(store, sl, w, r, id, true);
      assert LinkedAt(store, sl, w, r, t, false) && LinkedAt(store, sl, w, r, t, true);
      CloseLeg(store[id], id, false);
      ghost var sl1 := slots[..nsessions];
      assert sl1 == ClearLeg(sl, store[id], false);
      CloseLeg(store[t], t, false);
      ghost var sl2 := slots[..nsessions];
      assert sl2 == ClearLeg(sl1, store[t], false);
      CloseLeg(store[id], id, true);
      ghost var sl3 := slots[..nsessions];
      assert sl3 == ClearLeg(sl2, store[id], true);
      CloseLeg(store[t], t, true);
    }

    /** Removes an RTP session with its twin, from the table and from the index. Only legs
        the current pass has not moved yet may be removed. */
    method RemoveSession(id: Id, ghost w: nat, ghost r: nat)
      requires TableOk(w, r) && IndexOk() && id in store && store[id].rtcp.Some? && r <= store[id].sidx.l0
      modifies this`store, this`links, this`order, this`sessionsActive, slots, heads
      ensures
        var t := old(store[id]).rtcp.value;
        && t in old(store) && store == old(store) - {id, t}
        && slots[..nsessions] == ClearPair(old(slots[..nsessions]), old(store[id]), old(store)[t])
      ensures TableOk(w, r) && IndexOk()
      ensures order == Index.Alive(old(order), store.Keys)
    {
      hide Inv, Index.IndexInv, Index.Alive, ClearPair;
      var t := store[id].rtcp.value;
      RemoveKeepsInv(store, slots[..nsessions], w, r, id);
      ghost var after := store - {id, t};
      ghost var i := RemoveReady(store, after, slots[..nsessions], w, r, links, heads[..], order, hash, id);
      ClosePair(id, t, w, r);
      HashRemove(id, after, i);
      store := store - {id, t};
      sessionsActive := sessionsActive - 1;
    }

    /** Gives an open leg the next slot. */
    method AppendSession(id: Id, leg: bool)
      requires id in store && 1 <= nsessions <= slots.Length
      requires Open(store[id], leg) ==> nsessions < slots.Length
      modifies this`store, this`nsessions, slots
      ensures
        var s := old(store)[id];
        if Open(s, leg) then
          && nsessions == old(nsessions) + 1
          && slots[..nsessions] == old(slots[..nsessions]) + [Slot(Some(id), s.fds.At(leg))]
          && store == old(store)[id := s.(sidx := s.sidx.Set(leg, old(nsessions)))]
        else
          && nsessions == old(nsessions) && slots[..nsessions] == old(slots[..nsessions])
          && store == old(store)[id := s.(sidx := s.sidx.Set(leg, -1))]
    {
      var s := store[id];
      if s.fds.At(leg) != NO_FD {
        slots[nsessions] := Slot(Some(id), s.fds.At(leg));
        store := store[id := s.(sidx := s.sidx.Set(leg, nsessions))];
        nsessions := nsessions + 1;
      } else {
        store := store[id := s.(sidx := s.sidx.Set(leg, -1))];
      }
    }

    /** Creates an RTP session and its RTCP twin, each with its first leg open. The pointers
        are unused memory and the descriptors come fresh from the operating system. */
    method CreateSession(id: Id, t: Id, callId: string, tag: string, weak: bool, fd0: int, fd1: int, maxTtl: int)
      requires Valid() && id !in store && t !in store && id != t && fd0 >= 0 && fd1 >= 0
      requires nsessions + 2 <= slots.Length
      modifies this, slots, heads
      ensures Valid()
      ensures order == old(order) + [id] && nsessions == old(nsessions) + 2
      ensures slots[..nsessions] == old(slots[..nsessions]) + [Slot(Some(id), fd0), Slot(Some(t), fd1)]
      ensures store == CreateStore(old(store), old(nsessions), id, t, NewSession(callId, tag, weak, maxTtl), fd0, fd1)
    {
      ghost var before, n, sl := store, nsessions, slots[..nsessions];
      var proto := NewSession(callId, tag, weak, maxTtl);
      CreateKeepsInv(store, sl, id, t, proto, fd0, fd1);
      OpenFirstLegs(id, t, proto, fd0, fd1);
      HashAppend(id, before);
      sessionsActive := sessionsActive + 1;
    }

    /** Fills in the two new sessions and appends their legs. */
    method OpenFirstLegs(id: Id, t: Id, proto: Session, fd0: int, fd1: int)
      requires id != t && fd0 >= 0 && fd1 >= 0 && 1 <= nsessions && nsessions + 2 <= slots.Length
      modifies this`store, this`nsessions, slots
      ensures nsessions == old(nsessions) + 2
      ensures slots[..nsessions] == old(slots[..nsessions]) + [Slot(Some(id), fd0), Slot(Some(t), fd1)]
      ensures store == CreateStore(old(store), old(nsessions), id, t, proto, fd0, fd1)
    {
      var spa := proto.(fds := Legs(fd0, NO_FD), rtcp := Some(t), rtp := None);
      var spb := proto.(fds := Legs(fd1, NO_FD), rtcp := None, rtp := Some(id),
                        ttl := Legs(-1, -1), strong := false, weak0 := false);
      store := store[id := spa][t := spb];
      AppendLegs(id);
      AppendLegs(t);
    }

    /** Appends the legs of a session whose second leg is not open. */
    method AppendLegs(id: Id)
      requires id in store && Open(store[id], false) && !Open(store[id], true)
      requires 1 <= nsessions < slots.Length
      modifies this`store, this`nsessions, slots
      ensures nsessions == old(nsessions) + 1
      ensures slots[..nsessions] == old(slots[..nsessions]) + [Slot(Some(id), old(store)[id].fds.l0)]
      ensures store == old(store)[id := old(store)[id].(sidx := Legs(old(nsessions), -1))]
    {
      AppendSession(id, false);
      AppendSession(id, true);
    }

    /** Opens the second leg of both sessions of a pair and appends them. */
    method OpenSecondLegs(id: Id, t: Id, fd0: int, fd1: int)
      requires id in store && t in store && id != t && fd0 >= 0 && fd1 >= 0
      requires 1 <= nsessions && nsessions + 2 <= slots.Length
      modifies this`store, this`nsessions, slots
      ensures nsessions == old(nsessions) + 2
      ensures slots[..nsessions] == old(slots[..nsessions]) + [Slot(Some(id), fd0), Slot(Some(t), fd1)]
      ensures store == CompleteStore(old(store), old(nsessions), id, t, fd0, fd1)
    {
      ghost var store0, n := store, nsessions;
      var spa := store[id].(fds := store[id].fds.Set(true, fd0), complete := true);
      var spb := store[t].(fds := store[t].fds.Set(true, fd1), complete := true);
      store := store[id := spa][t := spb];
      AppendSession(id, true);
      AppendSession(t, true);
      UpdatedTwice(store0, id, t, spa, spb, spa.(sidx := spa.sidx.Set(true, n)),
                   spb.(sidx := spb.sidx.Set(true, n + 1)));
    }

    /** Opens the second leg of a session and of its twin, which completes them. */
    method CompleteSession(id: Id, fd0: int, fd1: int)
      requires Valid() && id in store && store[id].rtcp.Some? && !Open(store[id], true) && fd0 >= 0 && fd1 >= 0
      requires forall x :: x in store ==> store[x].fds.l0 != fd0 && store[x].fds.l0 != fd1
      requires nsessions + 2 <= slots.Length
      modifies this`store, this`nsessions, slots
      ensures Valid() && order == old(order) && nsessions == old(nsessions) + 2
      ensures
        var t := old(store)[id].rtcp.value;
        && t in old(store) && store == CompleteStore(old(store), old(nsessions), id, t, fd0, fd1)
        && slots[..nsessions] == old(slots[..nsessions]) + [Slot(Some(id), fd0), Slot(Some(t), fd1)]
    {
      hide Inv, Index.IndexInv;
      TwinOf(store, slots[..nsessions], id);
      var t := store[id].rtcp.value;
      CompleteKeepsInv(store, slots[..nsessions], id, fd0, fd1);
      ghost var after := CompleteStore(store, nsessions, id, t, fd0, fd1);
      CompletedNames(store, nsessions, id, t, fd0, fd1);
      hide CompleteStore;
      Index.NamesKeepIndex(store, after, links, heads[..], order, hash);
      OpenSecondLegs(id, t, fd0, fd1);
    }

    /** Restarts the session timer and notes who asked to keep the session. */
    method RefreshSession(id: Id, leg: bool, update: bool, weak: bool, mode: TtlMode, maxTtl: int)
      requires Valid() && id in store
      modifies this`store
      ensures Valid()
      ensures store == old(store)[id := Refreshed(old(store)[id], leg, update, weak, mode, maxTtl)]
    {
      hide Inv, Index.IndexInv;
      ghost var after := store[id := Refreshed(store[id], leg, update, weak, mode, maxTtl)];
      ShapeKeepsInv(store, after, slots[..nsessions], 1, 1);
      Keep(store[id := Refreshed(store[id], leg, update, weak, mode, maxTtl)]);
    }

    // ----- deletion

    /** Deletes the sessions of a call whose tags match and that nobody else keeps. */
    method HandleDelete(callId: string, from: string, to: Option<string>, weak: bool) returns (r: int)
      requires Valid()
      modifies this, slots, heads
      ensures Valid() && nsessions == old(nsessions)
      ensures
        var (after, ndeleted) := DeleteFrom(old(Matches(callId)), 0, old(store), from, to, weak);
        store == after && r == if ndeleted == 0 then -1 else 0
      ensures Deleted(old(Matches(callId)), old(store), store, from, to, weak)
      ensures
        var ms := old(Matches(callId));
        r == if exists j :: 0 <= j < |ms| && Meant(old(store), ms[j], from, to) then 0 else -1
      ensures order == Index.Alive(old(order), store.Keys)
    {
      hide Inv, Index.IndexInv, Index.Sel, DeleteFrom, Deleted, Meant;
      ghost var ms := Matches(callId);
      MatchesApart(store, slots[..nsessions], links, heads[..], order, hash, callId);
      DeleteDone(ms, store, from, to, weak);
      DeleteFails(ms, 0, store, from, to, weak);
      ghost var stores, outcomes;
      var ndeleted;
      ndeleted, stores, outcomes := DeleteLoop(callId, from, to, weak);
      TraceIsDelete(ms, stores, outcomes, from, to, weak, 0);
      r := if ndeleted == 0 then -1 else 0;
    }

    /** The loop over the sessions of a call, with the stores and outcomes it goes through. */
    method DeleteLoop(callId: string, from: string, to: Option<string>, weak: bool)
      returns (ndeleted: nat, ghost stores: seq<Store>, ghost outcomes: seq<Outcome>)
      requires Valid()
      modifies this`store, this`links, this`order, this`sessionsActive, slots, heads
      ensures Valid() && order == Index.Alive(old(order), store.Keys)
      ensures DeleteTrace(old(Matches(callId)), stores, outcomes, from, to, weak)
      ensures Ended(old(Matches(callId)), outcomes)
      ensures stores[0] == old(store) && stores[|outcomes|] == store && ndeleted == Hits(outcomes, 0)
    {
      hide Inv, Index.IndexInv, DeleteStep;
      ghost var ms, m, k: nat, i: nat := Matches(callId), Matches(callId), 0, 0;
      var spa := FindFirst(callId);
      ndeleted, stores, outcomes := 0, [store], [];
      Index.AliveAll(order, store.Keys);
      while spa.Some?
        invariant Valid() && m == Matches(callId) && k == |outcomes| <= |ms| && spa == Chains.After(ms, k)
        invariant spa.Some? ==> At(ms, k, m, i)
        invariant DeleteTrace(ms, stores, outcomes, from, to, weak) && stores[0] == old(store) && stores[k] == store
        invariant ndeleted == Hits(outcomes, 0) && (k > 0 ==> outcomes[k - 1] != Removed(true))
        invariant order == Index.Alive(old(order), store.Keys)
        decreases |ms| - k
      {
        ghost var keys := store.Keys;
        var outcome;
        spa, outcome, i, m := DeleteTurn(spa.value, from, to, weak, callId, ms, k, m, i);
        Index.AliveTwice(old(order), keys, store.Keys);
        TraceNext(ms, stores, outcomes, store, outcome, from, to, weak);
        stores, outcomes, k := stores + [store], outcomes + [outcome], k + 1;
        if !outcome.Passed? { ndeleted := ndeleted + 1; }
        if outcome == Removed(true) { return; }
      }
    }

    /** One turn of the deletion loop: looks forward before anything is removed. */
    method DeleteTurn(id: Id, from: string, to: Option<string>, weak: bool,
                      ghost callId: string, ghost ms: seq<Id>, ghost k: nat, ghost m: seq<Id>, ghost i: nat)
      returns (next: Option<Id>, outcome: Outcome, ghost i': nat, ghost m': seq<Id>)
      requires Valid() && m == Matches(callId) && At(ms, k, m, i) && ms[k] == id
      modifies this`store, this`links, this`order, this`sessionsActive, slots, heads
      ensures Valid() && m' == Matches(callId)
      ensures next == Chains.After(ms, k + 1) && (next.Some? ==> At(ms, k + 1, m', i'))
      ensures (store, outcome) == DeleteStep(old(store), id, from, to, weak)
      ensures store.Keys <= old(store).Keys && order == Index.Alive(old(order), store.Keys)
    {
      Index.SelMembers(order, store, callId);
      assert id in m;
      next := FindNext(id, i);
      outcome := DeleteAt(id, from, to, weak, callId, i);
      m' := Matches(callId);
      i' := if outcome.Removed? then i else i + 1;
      NextMatch(m, m', ms, k, i, i');
    }

    /** What a delete request does to match number `i` of a call-id. */
    method DeleteAt(id: Id, from: string, to: Option<string>, weak: bool, ghost callId: string, ghost i: nat)
      returns (outcome: Outcome)
      requires Valid() && i < |Matches(callId)| && Matches(callId)[i] == id
      modifies this`store, this`links, this`order, this`sessionsActive, slots, heads
      ensures Valid()
      ensures (store, outcome) == DeleteStep(old(store), id, from, to, weak)
      ensures store.Keys <= old(store).Keys && order == Index.Alive(old(order), store.Keys)
      ensures Matches(callId) ==
              if outcome.Removed? then Chains.Without(old(Matches(callId)), i) else old(Matches(callId))
    {
      hide Inv, Index.IndexInv, Index.Alive, Index.Sel;
      Index.SelIsRtp(store, links, heads[..], order, hash, callId, i);
      Index.AliveAll(order, store.Keys);
      var hit := DeleteMatch(store[id], from, to);
      if hit.None? {
        return Passed;
      }
      var s := ClearFlag(store[id], hit.value.0, weak);
      SetFlags(id, s, callId);
      if s.strong || s.weak0 || s.weak1 {
        return Spared;
      }
      DeleteOne(id, callId, i);
      return Removed(hit.value.1 != 2);
    }

    /** Changes the keep flags of a session. */
    method SetFlags(id: Id, s: Session, ghost callId: string)
      requires Valid() && id in store && s == store[id].(strong := s.strong, weak0 := s.weak0, weak1 := s.weak1)
      modifies this`store
      ensures Valid() && store == old(store)[id := s] && store.Keys == old(store).Keys
      ensures Matches(callId) == old(Matches(callId))
    {
      ghost var after := store[id := s];
      ShapeKeepsInv(store, after, slots[..nsessions], 1, 1);
      Index.SelAlive(order, store, after, callId);
      Index.AliveAll(order, after.Keys);
      Index.SelMembers(order, store, callId);
      Index.AliveAll(Matches(callId), after.Keys);
      Keep(store[id := s]);
    }

    /** Removes match number `i` of a call-id; the other matches stay. */
    method DeleteOne(id: Id, ghost callId: string, ghost i: nat)
      requires Valid() && id in store && i < |Matches(callId)| && Matches(callId)[i] == id
      modifies this`store, this`links, this`order, this`sessionsActive, slots, heads
      ensures Valid()
      ensures old(store)[id].rtcp.Some? && store == old(store) - {id, old(store)[id].rtcp.value}
      ensures Matches(callId) == Chains.Without(old(Matches(callId)), i)
      ensures order == Index.Alive(old(order), store.Keys)
    {
      ghost var m, order0 := Matches(callId), order;
      Index.SelMembers(order, store, callId);
      assert id in m;
      assert PairedAt(store, id) && LinkedAt(store, slots[..nsessions], 1, 1, id, false);
      RemoveSession(id, 1, 1);
      Index.SelAlive(order0, old(store), store, callId);
      MatchesWithout(order0, old(store), store, callId, i);
    }

    // ----- one pass over the table

    /** What holds while a pass runs: how far it got, and that the index lists exactly the
        sessions that are left, in their old order. */
    ghost predicate Passing(p: Pass, order0: seq<Id>, w: nat, r: nat, a: nat)
      reads this, slots, heads
    {
      && nsessions <= slots.Length && PassInv(p, store, slots[..nsessions], w, r, a)
      && IndexOk() && order == Index.Alive(order0, store.Keys)
    }

    /** The alarm tick of the session whose leg 0 is in slot `r`. */
    method TickSlot(r: nat, tick: bool, ghost w: nat, ghost p: Pass, ghost order0: seq<Id>)
      requires r < nsessions && tick == p.tick && Passing(p, order0, w, r, r)
      modifies this`store, this`links, this`order, this`sessionsActive, slots, heads
      ensures Passing(p, order0, w, r, r + 1)
    {
      hide Inv, PassInv, Index.IndexInv, Index.Alive, ClearPair;
      ghost var sl := slots[..nsessions];
      PassSlot(p, store, sl, w, r, r);
      var sp := slots[r].session;
      if tick && sp.Some? && store[sp.value].rtcp.Some? && store[sp.value].sidx.l0 == r {
        var s := store[sp.value];
        if GetTtl(s) == 0 {
          Expire(p, store, sl, w, r);
          RemoveSession(sp.value, w, r);
          Index.AliveTwice(order0, old(store).Keys, store.Keys);
        } else {
          Decrement(p, store, sl, w, r);
          Keep(store[sp.value := s.(ttl := Legs(Dec(s.ttl.l0), Dec(s.ttl.l1)))]);
        }
      } else {
        NoTick(p, store, sl, w, r);
      }
    }

    /** Writes back sessions whose names did not change. */
    method Keep(store': Store)
      requires IndexOk() && store'.Keys == store.Keys
      requires Index.SameNames(store, store')
      modifies this`store
      ensures store == store' && IndexOk()
    {
      Index.NamesKeepIndex(store, store', links, heads[..], order, hash);
      store := store';
    }

    /** Compacts slot `r` to slot `w`, or passes over it if it is a hole. */
    method HandleSlot(r: nat, w: nat, traffic: set<int>, maxTtl: int, ghost p: Pass, ghost order0: seq<Id>)
      returns (w': nat)
      requires r < nsessions && traffic == p.traffic && maxTtl == p.maxTtl && Passing(p, order0, w, r, r + 1)
      modifies this`store, slots
      ensures w <= w' && Passing(p, order0, w', r + 1, r + 1)
    {
      hide Inv, PassInv, Index.IndexInv, Index.Alive;
      PassSlot(p, store, slots[..nsessions], w, r, r + 1);
      if slots[r].fd == NO_FD {
        Skip(p, store, slots[..nsessions], w, r);
        return w;
      }
      var leg := FindLeg(r, w);
      MoveSlot(r, w, leg, traffic, maxTtl, p, order0);
      return w + 1;
    }

    /** Finds the leg a slot belongs to by its descriptor; there always is one. */
    method FindLeg(r: nat, ghost w: nat) returns (leg: bool)
      requires TableOk(w, r) && r < nsessions && slots[r].fd != NO_FD
      ensures slots[r] != HOLE && Holds(store, slots[r], r, leg)
    {
      ghost var sl := slots[..nsessions];
      assert SlotAt(store, sl, w, r, r);
      var s := store[slots[r].session.value];
      leg := false;
      if slots[r].fd != s.fds.l0 {
        leg := true;
      }
      assert slots[r].fd == s.fds.At(leg);
      LegOfSlot(store, sl, w, r, leg);
    }

    /** Moves a leg down and refreshes the lifetime of its session if it relayed a packet. */
    method MoveSlot(r: nat, w: nat, leg: bool, traffic: set<int>, maxTtl: int, ghost p: Pass, ghost order0: seq<Id>)
      requires r < nsessions && traffic == p.traffic && maxTtl == p.maxTtl && Passing(p, order0, w, r, r + 1)
      requires slots[r] != HOLE && Holds(store, slots[r], r, leg)
      modifies this`store, slots
      ensures Passing(p, order0, w + 1, r + 1, r + 1)
    {
      hide Inv, PassInv, Index.IndexInv, Index.Alive, Moved;
      ghost var sl := slots[..nsessions];
      var slot := slots[r];
      PassSlot(p, store, sl, w, r, r + 1);
      Move(p, store, sl, w, r, leg);
      MovedNames(store, slot, leg, w, traffic, maxTtl);
      if w < r {
        slots[w] := slot;
      }
      assert slots[..nsessions] == sl[w := slot];
      Keep(Moved(store, slot, leg, w, traffic, maxTtl));
    }

    /** Ticks and handles one slot. */
    method VisitSlot(r: nat, w: nat, tick: bool, traffic: set<int>, maxTtl: int, ghost p: Pass, ghost order0: seq<Id>)
      returns (w': nat)
      requires tick == p.tick && traffic == p.traffic && maxTtl == p.maxTtl
      requires r < nsessions && Passing(p, order0, w, r, r)
      modifies this`store, this`links, this`order, this`sessionsActive, slots, heads
      ensures Passing(p, order0, w', r + 1, r + 1)
    {
      TickSlot(r, tick, w, p, order0);
      w' := HandleSlot(r, w, traffic, maxTtl, p, order0);
    }

    /** The scan over all slots; returns the number of slots still in use. */
    method ScanSlots(tick: bool, traffic: set<int>, maxTtl: int, ghost p: Pass, ghost order0: seq<Id>)
      returns (w: nat)
      requires tick == p.tick && traffic == p.traffic && maxTtl == p.maxTtl
      requires 1 <= nsessions && Passing(p, order0, 1, 1, 1)
      modifies this`store, this`links, this`order, this`sessionsActive, slots, heads
      ensures Passing(p, order0, w, nsessions, nsessions)
    {
      w := 1;
      var r := 1;
      while r < nsessions
        invariant 1 <= r <= nsessions
        invariant Passing(p, order0, w, r, r)
      {
        w := VisitSlot(r, w, tick, traffic, maxTtl, p, order0);
        r := r + 1;
      }
    }

    /** One pass: sessions that timed out are gone, all others stay in the table in their
        old order without holes, and each lifetime was decremented exactly once per alarm
        or restored by traffic. */
    method ProcessRtp(tick: bool, traffic: set<int>, maxTtl: int)
      requires Valid()
      modifies this, slots, heads
      ensures Valid()
      ensures
        var p := Pass(old(store), old(slots[..nsessions]), tick, traffic, maxTtl);
        store == PassStore(p) && slots[1..nsessions] == Kept(p, old(nsessions))
      ensures order == Index.Alive(old(order), store.Keys)
    {
      ghost var p := Pass(store, slots[..nsessions], tick, traffic, maxTtl);
      PassStart(p);
      Index.AliveAll(order, store.Keys);
      var n := ScanSlots(tick, traffic, maxTtl, p, order);
      Trim(n, p, old(order));
    }

    /** Cuts off the stale tail of the table. */
    method Trim(n: nat, ghost p: Pass, ghost order0: seq<Id>)
      requires Passing(p, order0, n, nsessions, nsessions)
      modifies this`nsessions
      ensures Valid() && store == PassStore(p) && slots[1..nsessions] == Kept(p, |p.sl|)
    {
      ghost var sl := slots[..nsessions];
      PassEnd(p, store, sl, n);
      nsessions := n;
      assert slots[..nsessions] == sl[..nsessions];
      assert slots[1..nsessions] == sl[1..nsessions];
    }
  }

  lemma CompletedNames(store: Store, n: nat, id: Id, t: Id, fd0: int, fd1: int)
    requires id in store && t in store
    ensures Index.SameNames(store, CompleteStore(store, n, id, t, fd0, fd1))
    ensures CompleteStore(store, n, id, t, fd0, fd1).Keys == store.Keys
  {
  }

  lemma TwinOf(store: Store, sl: seq<Slot>, id: Id)
    requires Inv(store, sl, 1, 1) && id in store && store[id].rtcp.Some?
    ensures store[id].rtcp.value in store && store[id].rtcp.value != id
  {
    assert PairedAt(store, id);
  }

  lemma UpdatedTwice(store: Store, id: Id, t: Id, a: Session, b: Session, a': Session, b': Session)
    requires id != t
    ensures store[id := a][t := b][id := a'][t := b'] == store[id := a'][t := b']
  {
  }

  /** What removing a pair relies on: the twin is no RTP session, and the list without the
      session lists the sessions that are left. */
  lemma RemoveReady(store: Store, after: Store, sl: seq<Slot>, w: nat, r: nat, links: map<Id, Link>,
                    heads: seq<Option<Id>>, order: seq<Id>, hash: Index.Hash, id: Id) returns (i: nat)
    requires Inv(store, sl, w, r) && Index.IndexInv(store, links, heads, order, hash)
    requires id in store && store[id].rtcp.Some? && after == store - {id, store[id].rtcp.value}
    ensures store[id].rtcp.value in store && i < |order| && order[i] == id && id !in after
    ensures Index.SameNames(after, store) && Index.AllIn(Chains.Without(order, i), after)
    ensures forall x :: x in store && store[x].rtcp.Some? && x != id ==> x in after
    ensures Index.Alive(order, after.Keys) == Chains.Without(order, i)
    ensures |Chains.Without(order, i)| == |order| - 1
  {
    assert PairedAt(store, id) && PairedAt(store, store[id].rtcp.value);
    i :| 0 <= i < |order| && order[i] == id;
    Index.AliveWithout(order, after.Keys, i);
    Index.WithoutList(order, i);
    forall k | 0 <= k < |order| - 1 ensures Chains.Without(order, i)[k] in after {
      assert Chains.Without(order, i)[k] in Chains.Without(order, i);
    }
  }

  /** What a turn of a pass knows about its slot. */
  lemma PassSlot(p: Pass, store: Store, sl: seq<Slot>, w: nat, r: nat, a: nat)
    requires PassInv(p, store, sl, w, r, a) && r < |sl|
    ensures Inv(store, sl, w, r) && 1 <= w <= r
    ensures (sl[r].session.Some? ==> sl[r].session.value in store) && (sl[r].fd == NO_FD ==> sl[r] == HOLE)
  {
    assert SlotAt(store, sl, w, r, r);
  }

  /** Number `k` of the original matches is number `i` of those left, and so on behind. */
  ghost predicate At(ms: seq<Id>, k: nat, m: seq<Id>, i: nat) {
    k < |ms| && i < |m| && m[i] == ms[k] && m[i + 1..] == ms[k + 1..]
  }

  lemma NextMatch(m: seq<Id>, m': seq<Id>, ms: seq<Id>, k: nat, i: nat, i': nat)
    requires At(ms, k, m, i)
    requires (m' == m && i' == i + 1) || (m' == Chains.Without(m, i) && i' == i)
    ensures k + 1 < |ms| ==> At(ms, k + 1, m', i')
    ensures Chains.After(m, i + 1) == Chains.After(ms, k + 1)
  {
    assert i + 1 < |m| ==> m[i + 1..][0] == m[i + 1];
    assert k + 1 < |ms| ==> ms[k + 1..][0] == ms[k + 1];
    if k + 1 < |ms| {
      assert m'[i'..] == m[i + 1..];
      assert m'[i'] == m'[i'..][0] && ms[k + 1] == ms[k + 1..][0];
      assert m'[i' + 1..] == m'[i'..][1..] && ms[k + 2..] == ms[k + 1..][1..];
    }
  }

  lemma MatchesWithout(order: seq<Id>, a: Store, b: Store, callId: string, i: nat)
    requires Index.AllIn(order, a) && Chains.Distinct(order) && i < |Index.Sel(order, a, callId)|
    requires forall id :: id in b ==> id in a
    requires forall x :: x in order ==> (x in b <==> x != Index.Sel(order, a, callId)[i])
    ensures Index.Alive(Index.Sel(order, a, callId), b.Keys) == Chains.Without(Index.Sel(order, a, callId), i)
  {
    Index.SelMembers(order, a, callId);
    Index.SelDistinct(order, a, callId);
    Index.AliveWithout(Index.Sel(order, a, callId), b.Keys, i);
  }

  /** The sessions of a call are different, and none is the twin of another. */
  lemma MatchesApart(store: Store, sl: seq<Slot>, links: map<Id, Link>, heads: seq<Option<Id>>, order: seq<Id>,
                     hash: Index.Hash, callId: string)
    requires Inv(store, sl, 1, 1) && Index.AllIn(order, store) && Index.IndexInv(store, links, heads, order, hash)
    ensures Apart(Index.Sel(order, store, callId), 0, store)
  {
    var ms := Index.Sel(order, store, callId);
    Index.SelMembers(order, store, callId);
    Index.SelDistinct(order, store, callId);
    forall j | 0 <= j < |ms|
      ensures ms[j] in store && store[ms[j]].rtcp.Some? && PairedAt(store, ms[j])
    {
      assert ms[j] in ms && ms[j] in order;
      var i :| 0 <= i < |order| && order[i] == ms[j];
    }
  }

  function Refreshed(s: Session, leg: bool, update: bool, weak: bool, mode: TtlMode, maxTtl: int): Session {
    var s1 := s.(ttlMode := mode, ttl := Legs(maxTtl, maxTtl));
    if weak && leg then s1.(weak1 := true)
    else if weak then s1.(weak0 := true)
    else if update then s1.(strong := true)
    else s1
  }

  /** The fields a new session starts with. */
  function NewSession(callId: string, tag: string, weak: bool, maxTtl: int): Session {
    Session(Legs(NO_FD, NO_FD), Legs(-1, -1), Legs(maxTtl, maxTtl), Unified, false, None, None,
            callId, tag, !weak, weak, false)
  }

  lemma MovedNames(store: Store, slot: Slot, leg: bool, w: nat, traffic: set<int>, maxTtl: int)
    requires slot.session.Some? && slot.session.value in store
    ensures
      var store' := Moved(store, slot, leg, w, traffic, maxTtl);
      store'.Keys == store.Keys && Index.SameNames(store, store')
  {
  }
}
