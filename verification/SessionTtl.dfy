/** How long a session lives without traffic. */
module SessionTtl {
  import opened SessionTable
  import opened SessionPass

  /** Neither leg of the pair relays a packet. */
  predicate Quiet(p: Pass, id: Id)
    requires id in p.store
  {
    && !Heard(p, id, false, |p.sl|) && !Heard(p, id, true, |p.sl|)
  }

  function Less(t: int, k: nat): int {
    if t <= k then 0 else t - k
  }

  /** A pass without traffic removes the session exactly when its time is up, and otherwise
      takes exactly one alarm tick off both lifetimes. */
  lemma QuietPass(p: Pass, store: Store, id: Id)
    requires Inv(p.store, p.sl, 1, 1) && store == PassStore(p)
    requires id in p.store && p.store[id].rtcp.Some? && Quiet(p, id)
    ensures id in store <==> !(p.tick && RunOut(p.store[id]))
    ensures id in store ==>
              && store[id].rtcp.Some? && store[id].ttlMode == p.store[id].ttlMode
              && store[id].ttl == if p.tick then Legs(Dec(p.store[id].ttl.l0), Dec(p.store[id].ttl.l1))
                                  else p.store[id].ttl
  {
    assert PairedAt(p.store, id);
    assert LinkedAt(p.store, p.sl, 1, 1, id, false);
  }

  /** The session in two stores is the same as far as its lifetime is concerned. */
  ghost predicate SameLife(a: Store, b: Store, id: Id) {
    && (id in a <==> id in b)
    && (id in a ==> a[id].ttl == b[id].ttl && a[id].ttlMode == b[id].ttlMode && a[id].rtcp.Some? && b[id].rtcp.Some?)
  }

  ghost predicate PassAt(ps: seq<Pass>, rs: seq<Store>, id: Id, i: int) {
    0 <= i < |ps| && |rs| == |ps| ==>
      && Inv(ps[i].store, ps[i].sl, 1, 1) && rs[i] == PassStore(ps[i])
      && (id in ps[i].store ==> Quiet(ps[i], id))
      && (i + 1 < |ps| ==> SameLife(rs[i], ps[i + 1].store, id))
  }

  /** A history: each pass turns its store into a result, and whatever commands run between
      two passes leave this session alone, as does the traffic. */
  ghost predicate History(ps: seq<Pass>, rs: seq<Store>, id: Id) {
    |ps| == |rs| && forall i :: PassAt(ps, rs, id, i)
  }

  /** Alarm ticks in the first `n` passes. */
  function Ticks(ps: seq<Pass>, n: nat): nat
    requires n <= |ps|
  {
    if n == 0 then 0 else Ticks(ps, n - 1) + if ps[n - 1].tick then 1 else 0
  }

  /** It takes more than `k` ticks until the time is up: until both counters have run out in
      unified mode, until the first one has in independent mode. */
  predicate Lasts(s: Session, k: nat) {
    match s.ttlMode
    case Unified => k <= s.ttl.l0 || k <= s.ttl.l1
    case Independent => k <= s.ttl.l0 && k <= s.ttl.l1
  }

  /** The session as it stands `k` idle ticks after it was `s`. */
  ghost predicate LifeAt(store: Store, id: Id, s: Session, k: nat) {
    && (id in store <==> Lasts(s, k))
    && (id in store ==> store[id].ttl == Legs(Less(s.ttl.l0, k), Less(s.ttl.l1, k)) && store[id].ttlMode == s.ttlMode
                        && store[id].rtcp.Some?)
  }

  lemma LifeStep(p: Pass, store: Store, id: Id, s: Session, k: nat)
    requires Inv(p.store, p.sl, 1, 1) && store == PassStore(p) && LifeAt(p.store, id, s, k)
    requires id in p.store ==> Quiet(p, id)
    requires s.ttl.l0 >= 0 && s.ttl.l1 >= 0
    ensures LifeAt(store, id, s, k + if p.tick then 1 else 0)
  {
    if id in p.store {
      QuietPass(p, store, id);
    }
  }

  /** After `n` quiet passes the session is still there if and only if its counters last for
      the alarm ticks there were: it goes on the tick after the larger (unified mode) or the
      smaller (independent mode) of the two. */
  lemma {:induction false} IdleLifetime(ps: seq<Pass>, rs: seq<Store>, id: Id, n: nat)
    requires History(ps, rs, id) && 0 < n <= |ps|
    requires id in ps[0].store && ps[0].store[id].rtcp.Some?
    requires ps[0].store[id].ttl.l0 >= 0 && ps[0].store[id].ttl.l1 >= 0
    ensures LifeAt(rs[n - 1], id, ps[0].store[id], Ticks(ps, n))
  {
    var s := ps[0].store[id];
    assert PassAt(ps, rs, id, n - 1);
    if n > 1 {
      IdleLifetime(ps, rs, id, n - 1);
      assert PassAt(ps, rs, id, n - 2);
    }
    LifeStep(ps[n - 1], rs[n - 1], id, s, Ticks(ps, n - 1));
  }
}
