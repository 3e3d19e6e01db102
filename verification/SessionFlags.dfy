/** What keeps a session alive: the flags that creation and refresh set and a delete request
    clears, and the lifetimes they and traffic restore. */
module SessionFlags {
  import opened Options
  import opened SessionTable
  import opened SessionPass
  import opened SessionDelete
  import opened SessionProxy
  import opened SessionTtl
  import Index = SessionIndex

  // ----- flags

  /** A new session lasts for the configured lifetime in ticks, and a request that means it
      removes it exactly if it is of the strength it was created with and, if that is weak,
      not from the party that opened it. */
  lemma CreatedSession(store: Store, n: nat, id: Id, t: Id, callId: string, tag: string, weak: bool, maxTtl: int,
                       fd0: int, fd1: int, from: string, to: Option<string>, weakDelete: bool)
    requires id != t
    ensures
      var after := CreateStore(store, n, id, t, NewSession(callId, tag, weak, maxTtl), fd0, fd1);
      var s := after[id];
      && s.callId == callId && s.tag == tag && !s.complete && s.fds == Legs(fd0, NO_FD) && s.rtcp == Some(t)
      && after[t].rtp == Some(id) && after[t].fds == Legs(fd1, NO_FD)
      && (forall k: nat :: Lasts(s, k) <==> k <= maxTtl)
      && (Meant(after, id, from, to) ==>
            (StillKept(s, from, weakDelete) <==> weakDelete != weak || (weak && FromOpener(s, from))))
  {
  }

  /** It is listed last among the sessions of its call, and the other calls are not affected. */
  lemma CreatedListed(store: Store, order: seq<Id>, n: nat, id: Id, t: Id, callId: string, tag: string, weak: bool,
                      maxTtl: int, fd0: int, fd1: int, call: string)
    requires Index.AllIn(order, store) && id !in store && t !in store && id != t
    ensures
      var after := CreateStore(store, n, id, t, NewSession(callId, tag, weak, maxTtl), fd0, fd1);
      && Index.AllIn(order + [id], after)
      && Index.Sel(order + [id], after, call) == Index.Sel(order, store, call) + if call == callId then [id] else []
  {
    var after := CreateStore(store, n, id, t, NewSession(callId, tag, weak, maxTtl), fd0, fd1);
    SelSame(order, store, after, call);
    assert (order + [id])[..|order|] == order;
  }

  lemma {:induction false} SelSame(order: seq<Id>, a: Store, b: Store, call: string)
    requires Index.AllIn(order, a) && forall x :: x in a ==> x in b && b[x] == a[x]
    ensures Index.AllIn(order, b) && Index.Sel(order, b, call) == Index.Sel(order, a, call)
  {
    if order != [] { SelSame(order[..|order| - 1], a, b, call); }
  }

  /** A refresh starts the lifetime again, sets the mode, and adds one flag at most: the weak
      one of the side it comes from, or the strong one for an update. */
  lemma RefreshedSession(s: Session, leg: bool, update: bool, weak: bool, mode: TtlMode, maxTtl: int)
    ensures
      var r := Refreshed(s, leg, update, weak, mode, maxTtl);
      && r == s.(ttl := r.ttl, ttlMode := mode, strong := r.strong, weak0 := r.weak0, weak1 := r.weak1)
      && r.strong == (s.strong || (update && !weak))
      && r.weak0 == (s.weak0 || (weak && !leg)) && r.weak1 == (s.weak1 || (weak && leg))
      && (forall k: nat :: Lasts(r, k) <==> k <= maxTtl)
  {
  }

  /** A party that refreshes a session weakly cannot take that back: the flag it sets is the
      one that only a weak delete request of the other party clears. The side of a refresh is
      0 if its from-tag is that of the session, which is the opener's, and that of a delete
      request is then 1. */
  lemma WeakNotTakenBack(s: Session, update: bool, mode: TtlMode, maxTtl: int, from: string, leg: bool)
    ensures
      var r := Refreshed(s, leg, update, true, mode, maxTtl);
      FromOpener(r, from) == !leg ==> StillKept(r, from, true)
    ensures
      var r := Refreshed(s.(strong := false, weak0 := false, weak1 := false), leg, update, true, mode, maxTtl);
      StillKept(r, from, true) <==> FromOpener(r, from) == !leg
  {
  }

  // ----- lifetimes

  /** A packet came in on this leg of the session or of its twin. */
  predicate CameIn(p: Pass, id: Id, leg: bool)
    requires id in p.store && p.store[id].rtcp.Some?
  {
    var s := p.store[id];
    || (s.complete && s.fds.At(leg) != NO_FD && s.fds.At(leg) in p.traffic)
    || (s.rtcp.value in p.store &&
        var t := p.store[s.rtcp.value];
        t.complete && t.fds.At(leg) != NO_FD && t.fds.At(leg) in p.traffic)
  }

  /** What a pass does to the counters of a session that lives on: on a leg that relays, the
      configured lifetime; otherwise, on a tick, one less unless it has run out. */
  lemma CountersAfter(p: Pass, id: Id, leg: bool)
    requires Inv(p.store, p.sl, 1, 1) && id in p.store && p.store[id].rtcp.Some? && id in PassStore(p)
    ensures PassStore(p)[id].ttl.At(leg) ==
            if CameIn(p, id, leg) then p.maxTtl
            else if p.tick && p.store[id].ttl.At(leg) != 0 then p.store[id].ttl.At(leg) - 1
            else p.store[id].ttl.At(leg)
    ensures PassStore(p)[id].ttlMode == p.store[id].ttlMode && PassStore(p)[id].rtcp == p.store[id].rtcp
  {
    var t := p.store[id].rtcp.value;
    assert PairedAt(p.store, id);
    assert LinkedAt(p.store, p.sl, 1, 1, id, leg) && LinkedAt(p.store, p.sl, 1, 1, t, leg);
    assert LinkedAt(p.store, p.sl, 1, 1, id, false);
  }

  /** Unless its counters have had the time to run out, the session is there and its counters
      are no lower than that time would make them. */
  ghost predicate AtLeast(store: Store, id: Id, s: Session, k: nat) {
    Lasts(s, k) ==>
      && id in store && store[id].rtcp.Some? && store[id].ttlMode == s.ttlMode
      && store[id].ttl.l0 >= Less(s.ttl.l0, k) && store[id].ttl.l1 >= Less(s.ttl.l1, k)
  }

  /** Whatever a pass relays, it does not shorten the life of a session. */
  lemma BusyPass(p: Pass, id: Id, s: Session, k: nat)
    requires Inv(p.store, p.sl, 1, 1) && AtLeast(p.store, id, s, k)
    requires 0 <= s.ttl.l0 <= p.maxTtl && 0 <= s.ttl.l1 <= p.maxTtl
    ensures AtLeast(PassStore(p), id, s, k + if p.tick then 1 else 0)
  {
    if Lasts(s, k + if p.tick then 1 else 0) {
      assert Lasts(s, k) && PairedAt(p.store, id);
      assert !Dead(p, id) && id in PassStore(p);
      CountersAfter(p, id, false);
      CountersAfter(p, id, true);
    }
  }
}
