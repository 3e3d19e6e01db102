/** The session table over any sequence of commands and passes: every step does what its
    description on values says, and the invariants hold in every state. */
module SessionRuns {
  import opened Options
  import opened SessionTable
  import opened SessionPass
  import opened SessionDelete
  import opened SessionProxy

  datatype Command =
    | Create(id: Id, t: Id, callId: string, tag: string, weak: bool, fd0: int, fd1: int, maxTtl: int)
    | Complete(id: Id, fd0: int, fd1: int)
    | Refresh(id: Id, leg: bool, update: bool, weak: bool, mode: TtlMode, maxTtl: int)
    | Delete(callId: string, from: string, to: Option<string>, weak: bool)
    | Relay(tick: bool, traffic: set<int>, maxTtl: int)

  /** Sessions, slots and the sessions in creation order, with the pointers of the index. */
  datatype State = State(store: Store, sl: seq<Slot>, order: seq<Id>, links: map<Id, Link>, heads: seq<Option<Id>>)

  /** What callers and the operating system guarantee: new pointers and descriptors are not in
      use, there is room for them, and the session addressed is there. Other commands fail
      before they change anything. */
  predicate Allowed(c: Command, store: Store, n: nat, capacity: nat) {
    match c
    case Create(id, t, _, _, _, fd0, fd1, _) =>
      id !in store && t !in store && id != t && fd0 >= 0 && fd1 >= 0 && n + 2 <= capacity
    case Complete(id, fd0, fd1) =>
      && id in store && store[id].rtcp.Some? && store[id].rtcp.value in store && !Open(store[id], true)
      && fd0 >= 0 && fd1 >= 0 && n + 2 <= capacity
      && forall x :: x in store ==> store[x].fds.l0 != fd0 && store[x].fds.l0 != fd1
    case Refresh(id, _, _, _, _, _) => id in store
    case Delete(_, _, _, _) => true
    case Relay(_, _, _) => true
  }

  /** The slots once only the sessions `ids` are left. */
  function Cleared(sl: seq<Slot>, ids: set<Id>): seq<Slot> {
    seq(|sl|, k requires 0 <= k < |sl| =>
      if sl[k].session.Some? && sl[k].session.value in ids then sl[k] else HOLE)
  }

  /** Slot 0 belongs to the control socket. */
  function Legs1(sl: seq<Slot>): seq<Slot> {
    if sl == [] then [] else sl[1..]
  }

  /** What an allowed command does. */
  ghost predicate Effect(a: State, c: Command, b: State)
    requires Allowed(c, a.store, |a.sl|, |a.sl| + 2) && Index.AllIn(a.order, a.store)
  {
    match c
    case Create(id, t, callId, tag, weak, fd0, fd1, maxTtl) =>
      && b.store == CreateStore(a.store, |a.sl|, id, t, NewSession(callId, tag, weak, maxTtl), fd0, fd1)
      && b.sl == a.sl + [Slot(Some(id), fd0), Slot(Some(t), fd1)] && b.order == a.order + [id]
    case Complete(id, fd0, fd1) =>
      && b.store == CompleteStore(a.store, |a.sl|, id, a.store[id].rtcp.value, fd0, fd1)
      && b.sl == a.sl + [Slot(Some(id), fd0), Slot(a.store[id].rtcp, fd1)] && b.order == a.order
    case Refresh(id, leg, update, weak, mode, maxTtl) =>
      && b.store == a.store[id := Refreshed(a.store[id], leg, update, weak, mode, maxTtl)]
      && b.sl == a.sl && b.order == a.order
    case Delete(callId, from, to, weak) =>
      && Deleted(Index.Sel(a.order, a.store, callId), a.store, b.store, from, to, weak)
      && Legs1(b.sl) == Legs1(Cleared(a.sl, b.store.Keys)) && b.order == Index.Alive(a.order, b.store.Keys)
    case Relay(tick, traffic, maxTtl) =>
      var p := Pass(a.store, a.sl, tick, traffic, maxTtl);
      && b.store == PassStore(p) && Legs1(b.sl) == Kept(p, |a.sl|) && b.order == Index.Alive(a.order, b.store.Keys)
  }

  /** One step of a run; a command that is not allowed changes nothing. */
  ghost predicate StepOf(a: State, c: Command, b: State, capacity: nat) {
    if Allowed(c, a.store, |a.sl|, capacity)
    then Index.AllIn(a.order, a.store) && Allowed(c, a.store, |a.sl|, |a.sl| + 2) && Effect(a, c, b)
    else b == a
  }

  /** Every open leg has its slot, every slot its leg, leg 0 of a session the lowest, and the
      index lists the live RTP sessions. */
  ghost predicate Good(s: State, hash: Index.Hash) {
    Inv(s.store, s.sl, 1, 1) && Index.IndexInv(s.store, s.links, s.heads, s.order, hash)
  }

  // ----- deletion leaves the other slots alone

  /** Two tables of sessions with the same places differ in the holes only. */
  lemma SlotsFollow(a: Store, sl: seq<Slot>, b: Store, sl': seq<Slot>)
    requires Inv(a, sl, 1, 1) && Inv(b, sl', 1, 1) && |sl| == |sl'| && b.Keys <= a.Keys
    requires forall x :: x in b ==> b[x].sidx == a[x].sidx && b[x].fds == a[x].fds
    ensures Legs1(sl') == Legs1(Cleared(sl, b.Keys))
  {
    forall k | 1 <= k < |sl| ensures sl'[k] == Cleared(sl, b.Keys)[k] { SlotFollows(a, sl, b, sl', k); }
  }

  lemma SlotFollows(a: Store, sl: seq<Slot>, b: Store, sl': seq<Slot>, k: nat)
    requires Inv(a, sl, 1, 1) && Inv(b, sl', 1, 1) && |sl| == |sl'| && b.Keys <= a.Keys && 1 <= k < |sl|
    requires forall x :: x in b ==> b[x].sidx == a[x].sidx && b[x].fds == a[x].fds
    ensures sl'[k] == Cleared(sl, b.Keys)[k]
  {
    assert SlotAt(a, sl, 1, 1, k) && SlotAt(b, sl', 1, 1, k);
    if sl'[k] != HOLE {
      var x := sl'[k].session.value;
      assert LinkedAt(a, sl, 1, 1, x, false) && LinkedAt(a, sl, 1, 1, x, true);
    } else if sl[k] != HOLE && sl[k].session.value in b {
      var x := sl[k].session.value;
      assert LinkedAt(b, sl', 1, 1, x, false) && LinkedAt(b, sl', 1, 1, x, true);
    }
  }

  // ----- serving commands

  ghost function Now(cfg: Cfg): State
    reads cfg, cfg.slots, cfg.heads
    requires cfg.nsessions <= cfg.slots.Length
  {
    State(cfg.store, cfg.slots[..cfg.nsessions], cfg.order, cfg.links, cfg.heads[..])
  }

  /** A command, if it is allowed, does what its description says. */
  method Serve(cfg: Cfg, c: Command)
    requires cfg.Valid()
    modifies cfg, cfg.slots, cfg.heads
    ensures cfg.Valid() && StepOf(old(Now(cfg)), c, Now(cfg), cfg.slots.Length)
  {
    hide Inv, Index.IndexInv, Index.Alive, Index.Sel, DeleteFrom, Deleted, PassStore, Kept, CreateStore, CompleteStore;
    hide Cleared;
    if !Allowed(c, cfg.store, cfg.nsessions, cfg.slots.Length) { return; }
    match c
    case Create(id, t, callId, tag, weak, fd0, fd1, maxTtl) =>
      cfg.CreateSession(id, t, callId, tag, weak, fd0, fd1, maxTtl);
    case Complete(id, fd0, fd1) => cfg.CompleteSession(id, fd0, fd1);
    case Refresh(id, leg, update, weak, mode, maxTtl) => cfg.RefreshSession(id, leg, update, weak, mode, maxTtl);
    case Delete(callId, from, to, weak) => ServeDelete(cfg, callId, from, to, weak);
    case Relay(tick, traffic, maxTtl) => cfg.ProcessRtp(tick, traffic, maxTtl);
  }

  method ServeDelete(cfg: Cfg, callId: string, from: string, to: Option<string>, weak: bool)
    requires cfg.Valid()
    modifies cfg, cfg.slots, cfg.heads
    ensures cfg.Valid() && Effect(old(Now(cfg)), Delete(callId, from, to, weak), Now(cfg))
  {
    hide Inv, Index.IndexInv, Index.Alive, Index.Sel, DeleteFrom, Deleted, Cleared;
    ghost var a := Now(cfg);
    var r := cfg.HandleDelete(callId, from, to, weak);
    DeleteShape(Index.Sel(a.order, a.store, callId), 0, a.store, from, to, weak);
    SlotsFollow(a.store, a.sl, cfg.store, cfg.slots[..cfg.nsessions]);
  }

  /** The states a run goes through. */
  ghost predicate Run(states: seq<State>, cs: seq<Command>, capacity: nat) {
    |states| == |cs| + 1 && forall i :: 0 <= i < |cs| ==> StepOf(states[i], cs[i], states[i + 1], capacity)
  }

  /** Over any sequence of creations, completions, refreshes, deletions and passes, each
      changes sessions, slots and creation order as described, and in every state in between
      table and index are in order. */
  method ServeAll(cfg: Cfg, cs: seq<Command>) returns (ghost states: seq<State>)
    requires cfg.Valid()
    modifies cfg, cfg.slots, cfg.heads
    ensures Run(states, cs, cfg.slots.Length) && states[0] == old(Now(cfg))
    ensures cfg.Valid() && states[|cs|] == Now(cfg)
    ensures forall i :: 0 <= i < |states| ==> Good(states[i], cfg.hash)
  {
    hide Inv, Index.IndexInv, StepOf;
    states := [Now(cfg)];
    var i := 0;
    while i < |cs|
      invariant i <= |cs| && cfg.Valid() && Run(states, cs[..i], cfg.slots.Length)
      invariant states[0] == old(Now(cfg)) && states[i] == Now(cfg)
      invariant forall j :: 0 <= j < |states| ==> Good(states[j], cfg.hash)
    {
      Serve(cfg, cs[i]);
      states := states + [Now(cfg)];
      i := i + 1;
      assert cs[..i] == cs[..i - 1] + [cs[i - 1]];
    }
    assert cs[..i] == cs;
  }
}
