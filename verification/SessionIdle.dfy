/** The lifetime of a session over whole runs of commands and passes, idle or not. */
module SessionIdle {
  import opened Options
  import opened SessionTable
  import opened SessionPass
  import opened SessionDelete
  import opened SessionRuns
  import opened SessionTtl
  import opened SessionFlags
  import Index = SessionIndex

  /** The command is not for this session, and a pass relays nothing for it. */
  ghost predicate LeavesAlone(s: State, c: Command, id: Id) {
    match c
    case Create(x, t, _, _, _, _, _, _) => x != id && t != id
    case Complete(_, _, _) => true
    case Refresh(x, _, _, _, _, _) => x != id
    case Delete(callId, _, _, _) => id in s.store ==> s.store[id].callId != callId
    case Relay(tick, traffic, maxTtl) => id in s.store ==> Quiet(Pass(s.store, s.sl, tick, traffic, maxTtl), id)
  }

  predicate IsTick(c: Command) {
    c.Relay? && c.tick
  }

  /** Alarm ticks among the first `n` commands. */
  function TicksIn(cs: seq<Command>, n: nat): nat
    requires n <= |cs|
  {
    if n == 0 then 0 else TicksIn(cs, n - 1) + if IsTick(cs[n - 1]) then 1 else 0
  }

  lemma OtherCall(s: State, hash: Index.Hash, callId: string, id: Id)
    requires Good(s, hash) && id in s.store && s.store[id].rtcp.Some? && s.store[id].callId != callId
    ensures Index.AllIn(s.order, s.store) && !OneOf(Index.Sel(s.order, s.store, callId), 0, s.store, id)
  {
    var ms := Index.Sel(s.order, s.store, callId);
    Index.SelMembers(s.order, s.store, callId);
    forall j | 0 <= j < |ms| ensures ms[j] != id && (ms[j] in s.store ==> s.store[ms[j]].rtcp != Some(id)) {
      assert ms[j] in ms;
      if ms[j] in s.store { assert PairedAt(s.store, ms[j]); }
    }
  }

  /** Commands for others, and completing the session itself, do not touch its lifetime. */
  lemma CommandSpares(a: State, c: Command, b: State, hash: Index.Hash, id: Id)
    requires Good(a, hash) && Allowed(c, a.store, |a.sl|, |a.sl| + 2) && Index.AllIn(a.order, a.store)
    requires Effect(a, c, b) && LeavesAlone(a, c, id) && !c.Relay? && (id in a.store ==> a.store[id].rtcp.Some?)
    ensures SameLife(a.store, b.store, id)
  {
    if c.Delete? && id in a.store {
      OtherCall(a, hash, c.callId, id);
    }
  }

  /** One step of a run. */
  lemma IdleStep(a: State, c: Command, b: State, capacity: nat, hash: Index.Hash, id: Id, s: Session, k: nat)
    requires Good(a, hash) && StepOf(a, c, b, capacity) && LeavesAlone(a, c, id)
    requires LifeAt(a.store, id, s, k) && s.ttl.l0 >= 0 && s.ttl.l1 >= 0
    ensures LifeAt(b.store, id, s, k + if IsTick(c) then 1 else 0)
  {
    if Allowed(c, a.store, |a.sl|, capacity) {
      if c.Relay? {
        LifeStep(Pass(a.store, a.sl, c.tick, c.traffic, c.maxTtl), b.store, id, s, k);
      } else {
        CommandSpares(a, c, b, hash, id);
      }
    }
  }

  /** Over every run of commands that leave the session alone, it is there in the `n`-th state
      exactly if its counters last for the alarm ticks there were, and then they have gone down
      by as many: it goes on the tick after the larger (unified mode) or the smaller
      (independent mode) of the two. */
  lemma {:induction false} IdleRun(states: seq<State>, cs: seq<Command>, capacity: nat, hash: Index.Hash, id: Id,
                                   n: nat)
    requires Run(states, cs, capacity) && n <= |cs| && forall i :: 0 <= i < |states| ==> Good(states[i], hash)
    requires forall i :: 0 <= i < n ==> LeavesAlone(states[i], cs[i], id)
    requires id in states[0].store && states[0].store[id].rtcp.Some?
    requires states[0].store[id].ttl.l0 >= 0 && states[0].store[id].ttl.l1 >= 0
    ensures LifeAt(states[n].store, id, states[0].store[id], TicksIn(cs, n))
  {
    hide Good, StepOf, LeavesAlone;
    if n > 0 {
      IdleRun(states, cs, capacity, hash, id, n - 1);
      IdleStep(states[n - 1], cs[n - 1], states[n], capacity, hash, id, states[0].store[id], TicksIn(cs, n - 1));
    }
  }

  // ----- a session that is used

  /** The command is not for this session, and a pass restores at least these lifetimes. */
  ghost predicate NotAgainst(s: State, c: Command, id: Id, ttl: Legs) {
    if c.Relay? then c.maxTtl >= ttl.l0 && c.maxTtl >= ttl.l1 else LeavesAlone(s, c, id)
  }

  lemma BusyStep(a: State, c: Command, b: State, capacity: nat, hash: Index.Hash, id: Id, s: Session, k: nat)
    requires Good(a, hash) && StepOf(a, c, b, capacity) && NotAgainst(a, c, id, s.ttl)
    requires AtLeast(a.store, id, s, k) && s.ttl.l0 >= 0 && s.ttl.l1 >= 0
    ensures AtLeast(b.store, id, s, k + if IsTick(c) then 1 else 0)
  {
    if Allowed(c, a.store, |a.sl|, capacity) && Lasts(s, k) {
      if c.Relay? {
        BusyPass(Pass(a.store, a.sl, c.tick, c.traffic, c.maxTtl), id, s, k);
      } else {
        CommandSpares(a, c, b, hash, id);
      }
    }
  }

  lemma {:induction false} TicksGrow(cs: seq<Command>, m: nat, n: nat)
    requires m <= n <= |cs|
    ensures TicksIn(cs, m) <= TicksIn(cs, n)
  {
    if m < n { TicksGrow(cs, m, n - 1); }
  }

  /** Over every run of commands for others and of passes with any traffic, a session is there
      as long as its counters last for the alarm ticks: traffic never shortens its life. */
  lemma {:induction false} BusyRun(states: seq<State>, cs: seq<Command>, capacity: nat, hash: Index.Hash, id: Id,
                                   m: nat, n: nat)
    requires Run(states, cs, capacity) && m <= n <= |cs| && forall i :: 0 <= i < |states| ==> Good(states[i], hash)
    requires id in states[m].store && states[m].store[id].rtcp.Some?
    requires states[m].store[id].ttl.l0 >= 0 && states[m].store[id].ttl.l1 >= 0
    requires forall i :: m <= i < n ==> NotAgainst(states[i], cs[i], id, states[m].store[id].ttl)
    ensures TicksIn(cs, m) <= TicksIn(cs, n)
    ensures AtLeast(states[n].store, id, states[m].store[id], TicksIn(cs, n) - TicksIn(cs, m))
  {
    hide Good, StepOf, NotAgainst;
    if m < n {
      BusyRun(states, cs, capacity, hash, id, m, n - 1);
      BusyStep(states[n - 1], cs[n - 1], states[n], capacity, hash, id, states[m].store[id],
               TicksIn(cs, n - 1) - TicksIn(cs, m));
    }
  }

  /** The pass relays a packet of the session, in independent mode one in each direction. */
  ghost predicate Refills(s: State, c: Command, id: Id) {
    && c.Relay? && id in s.store && s.store[id].rtcp.Some?
    && 0 <= s.store[id].ttl.l0 <= c.maxTtl && 0 <= s.store[id].ttl.l1 <= c.maxTtl
    && var p := Pass(s.store, s.sl, c.tick, c.traffic, c.maxTtl);
       if s.store[id].ttlMode.Unified? then CameIn(p, id, false) || CameIn(p, id, true)
       else CameIn(p, id, false) && CameIn(p, id, true)
  }

  /** A session that has relayed a packet, in independent mode one in each direction, is there
      for as many ticks as the configured lifetime has, whatever else happens. */
  lemma HeardLasts(states: seq<State>, cs: seq<Command>, capacity: nat, hash: Index.Hash, id: Id, i: nat, n: nat)
    requires Run(states, cs, capacity) && i < n <= |cs| && forall j :: 0 <= j < |states| ==> Good(states[j], hash)
    requires Refills(states[i], cs[i], id) && cs[i].Relay? && id in states[i + 1].store
    requires forall j :: i < j < n ==> NotAgainst(states[j], cs[j], id, Legs(cs[i].maxTtl, cs[i].maxTtl))
    requires TicksIn(cs, n) - TicksIn(cs, i + 1) <= cs[i].maxTtl
    ensures id in states[n].store
  {
    hide Good, StepOf, NotAgainst, Refills;
    HeardOnce(states[i], cs[i], states[i + 1], capacity, hash, id);
    forall j | i < j < n ensures NotAgainst(states[j], cs[j], id, states[i + 1].store[id].ttl) {
      AlsoNotAgainst(states[j], cs[j], id, cs[i].maxTtl, states[i + 1].store[id].ttl);
    }
    BusyRun(states, cs, capacity, hash, id, i + 1, n);
  }

  lemma AlsoNotAgainst(s: State, c: Command, id: Id, most: int, ttl: Legs)
    requires NotAgainst(s, c, id, Legs(most, most)) && ttl.l0 <= most && ttl.l1 <= most
    ensures NotAgainst(s, c, id, ttl)
  {
  }

  lemma HeardOnce(a: State, c: Command, b: State, capacity: nat, hash: Index.Hash, id: Id)
    requires Good(a, hash) && StepOf(a, c, b, capacity) && Refills(a, c, id) && id in b.store
    ensures
      var s := b.store[id];
      && c.Relay? && s.rtcp.Some? && 0 <= s.ttl.l0 <= c.maxTtl && 0 <= s.ttl.l1 <= c.maxTtl
      && forall k: nat :: k <= c.maxTtl ==> Lasts(s, k)
  {
    var p := Pass(a.store, a.sl, c.tick, c.traffic, c.maxTtl);
    assert b.store == PassStore(p);
    CountersAfter(p, id, false);
    CountersAfter(p, id, true);
  }
}
