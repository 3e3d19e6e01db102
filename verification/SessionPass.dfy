/** What one pass over the table does to it: expiry, compaction, refresh by traffic. */
module SessionPass {
  import opened Options
  import opened SessionTable

  /** The counters have run out: both in unified mode, one of them in independent mode. A
      counter is never negative unless the configured lifetime is. */
  predicate RunOut(s: Session) {
    && (s.ttl.l0 == 0 || s.ttl.l1 == 0)
    && match s.ttlMode
       case Unified => s.ttl.l0 <= 0 && s.ttl.l1 <= 0
       case Independent => s.ttl.l0 >= 0 && s.ttl.l1 >= 0
  }

  /** The remaining lifetime of an RTP session. */
  function GetTtl(s: Session): (ttl: int)
    ensures ttl == 0 <==> RunOut(s)
    ensures s.ttlMode.Unified? ==> s.ttl.l0 <= ttl && s.ttl.l1 <= ttl
    ensures s.ttlMode.Independent? ==> ttl <= s.ttl.l0 && ttl <= s.ttl.l1
    ensures ttl == s.ttl.l0 || ttl == s.ttl.l1
  {
    match s.ttlMode
    case Unified => if s.ttl.l0 > s.ttl.l1 then s.ttl.l0 else s.ttl.l1
    case Independent => if s.ttl.l0 > s.ttl.l1 then s.ttl.l1 else s.ttl.l0
  }

  function Dec(t: int): int {
    if t != 0 then t - 1 else 0
  }

  /** The RTP session of a pair. */
  function Root(store: Store, id: Id): Id
    requires id in store
  {
    if store[id].rtp.Some? then store[id].rtp.value else id
  }

  /** The input of a pass: the table at its start, whether the alarm ticked, the
      descriptors on which packets were relayed, and the lifetime they restore. */
  datatype Pass = Pass(store: Store, sl: seq<Slot>, tick: bool, traffic: set<int>, maxTtl: int)

  // ----- what the pass must do

  /** The session times out in this pass. */
  predicate Dead(p: Pass, id: Id)
    requires id in p.store
  {
    var root := Root(p.store, id);
    p.tick && root in p.store && RunOut(p.store[root])
  }

  /** It timed out before slot `a` was reached. */
  predicate GoneBy(p: Pass, id: Id, a: nat)
    requires id in p.store
  {
    Dead(p, id) && p.store[Root(p.store, id)].sidx.l0 < a
  }

  /** A leg of this session below slot `r` relayed a packet. */
  predicate LegHeard(p: Pass, id: Id, leg: bool, r: nat) {
    && id in p.store && Open(p.store[id], leg) && p.store[id].sidx.At(leg) < r
    && p.store[id].complete && p.store[id].fds.At(leg) in p.traffic
  }

  predicate Heard(p: Pass, id: Id, leg: bool, r: nat)
    requires id in p.store
  {
    LegHeard(p, id, leg, r) || (p.store[id].rtcp.Some? && LegHeard(p, p.store[id].rtcp.value, leg, r))
  }

  function TtlLeg(p: Pass, id: Id, leg: bool, r: nat, a: nat): int
    requires id in p.store
  {
    var s := p.store[id];
    if Heard(p, id, leg, r) then p.maxTtl
    else if p.tick && s.sidx.l0 < a then Dec(s.ttl.At(leg))
    else s.ttl.At(leg)
  }

  /** The lifetimes once the pass has ticked below slot `a` and relayed below slot `r`. */
  function TtlAt(p: Pass, id: Id, r: nat, a: nat): Legs
    requires id in p.store
  {
    if p.store[id].rtcp.None? then p.store[id].ttl
    else Legs(TtlLeg(p, id, false, r, a), TtlLeg(p, id, true, r, a))
  }

  /** The slot survives the pass. */
  predicate Stays(p: Pass, slot: Slot) {
    slot != HOLE && slot.session.Some? && slot.session.value in p.store && !Dead(p, slot.session.value)
  }

  /** The surviving slots among the first `r`, in order. */
  function Kept(p: Pass, r: nat): seq<Slot>
    requires r <= |p.sl|
  {
    if r <= 1 then []
    else if Stays(p, p.sl[r - 1]) then Kept(p, r - 1) + [p.sl[r - 1]]
    else Kept(p, r - 1)
  }

  /** The slot a surviving slot moves to. */
  function Rank(p: Pass, k: int): int {
    if 0 <= k <= |p.sl| then 1 + |Kept(p, k)| else k
  }

  function NewSlot(p: Pass, id: Id, leg: bool): int
    requires id in p.store
  {
    if Open(p.store[id], leg) then Rank(p, p.store[id].sidx.At(leg)) else p.store[id].sidx.At(leg)
  }

  /** The complete effect of a pass on the sessions: exactly those that timed out are gone,
      together with their twins; the others keep everything but their slot numbers, which
      close up in order, and their lifetimes, each decremented exactly once or restored. */
  function PassStore(p: Pass): Store {
    map id | id in p.store && !Dead(p, id) ::
      p.store[id].(sidx := Legs(NewSlot(p, id, false), NewSlot(p, id, true)), ttl := TtlAt(p, id, |p.sl|, |p.sl|))
  }

  // ----- how far it got

  ghost predicate KeyAt(p: Pass, store: Store, a: nat, id: Id) {
    id in p.store ==> (id in store <==> !GoneBy(p, id, a))
  }

  /** Legs below `r` have moved to their new slots below `w`, the others are where they were. */
  predicate LegAt(p: Pass, store: Store, w: nat, r: nat, id: Id, leg: bool)
    requires id in store && id in p.store
  {
    var now, was := store[id].sidx.At(leg), p.store[id].sidx.At(leg);
    if Open(p.store[id], leg) && was < r then now < w && now == Rank(p, was) else now == was
  }

  ghost predicate SessionAt(p: Pass, store: Store, w: nat, r: nat, a: nat, id: Id) {
    id in store ==>
      && id in p.store
      && store[id] == p.store[id].(sidx := store[id].sidx, ttl := TtlAt(p, id, r, a))
      && LegAt(p, store, w, r, id, false) && LegAt(p, store, w, r, id, true)
  }

  ghost predicate AheadAt(p: Pass, sl: seq<Slot>, r: nat, a: nat, k: int) {
    r <= k < |sl| && k < |p.sl| ==>
      sl[k] == if p.sl[k].session.Some? && p.sl[k].session.value in p.store && !GoneBy(p, p.sl[k].session.value, a)
               then p.sl[k] else HOLE
  }

  /** The state of a pass that has ticked the slots below `a` and handled those below `r`. */
  ghost predicate PassInv(p: Pass, store: Store, sl: seq<Slot>, w: nat, r: nat, a: nat) {
    && Inv(p.store, p.sl, 1, 1) && Inv(store, sl, w, r) && |sl| == |p.sl| && r <= a <= r + 1
    && (forall id :: KeyAt(p, store, a, id))
    && (forall id :: SessionAt(p, store, w, r, a, id))
    && (forall k :: AheadAt(p, sl, r, a, k))
    && sl[1..w] == Kept(p, r)
  }

  lemma PassStart(p: Pass)
    requires Inv(p.store, p.sl, 1, 1)
    ensures PassInv(p, p.store, p.sl, 1, 1, 1)
  {
    forall id {:trigger SessionAt(p, p.store, 1, 1, 1, id)} ensures SessionAt(p, p.store, 1, 1, 1, id) {
      if id in p.store {
        FirstSlot(p, id);
      }
    }
    forall id {:trigger KeyAt(p, p.store, 1, id)} ensures KeyAt(p, p.store, 1, id) {
      if id in p.store {
        assert PairedAt(p.store, id);
        FirstSlot(p, Root(p.store, id));
      }
    }
    forall k {:trigger AheadAt(p, p.sl, 1, 1, k)} ensures AheadAt(p, p.sl, 1, 1, k) {
      assert SlotAt(p.store, p.sl, 1, 1, k);
      if 1 <= k < |p.sl| && p.sl[k] != HOLE {
        var id := p.sl[k].session.value;
        assert PairedAt(p.store, id);
        FirstSlot(p, Root(p.store, id));
      }
    }
  }

  /** No leg sits below slot 1, so before the scan nothing has been ticked or relayed. */
  lemma FirstSlot(p: Pass, id: Id)
    requires Inv(p.store, p.sl, 1, 1) && id in p.store
    ensures p.store[id].sidx.l0 >= 1 && (Open(p.store[id], true) ==> p.store[id].sidx.l1 >= 1)
    ensures p.store[id].ttl == TtlAt(p, id, 1, 1)
  {
    assert PairedAt(p.store, id);
    assert LinkedAt(p.store, p.sl, 1, 1, id, false) && LinkedAt(p.store, p.sl, 1, 1, id, true);
    if p.store[id].rtcp.Some? {
      var t := p.store[id].rtcp.value;
      assert PairedAt(p.store, t);
      assert LinkedAt(p.store, p.sl, 1, 1, t, false) && LinkedAt(p.store, p.sl, 1, 1, t, true);
    }
  }

  // ----- the tick at a slot

  /** Slot `r` is leg 0 of an RTP session and the alarm ticked. */
  predicate Due(tick: bool, store: Store, sl: seq<Slot>, r: nat)
    requires r < |sl|
  {
    && tick && sl[r].session.Some? && sl[r].session.value in store
    && store[sl[r].session.value].rtcp.Some? && store[sl[r].session.value].sidx.l0 == r
  }

  /** A live RTP session whose leg 0 was in slot `r` is still there and due. */
  lemma LegZeroHere(p: Pass, store: Store, sl: seq<Slot>, w: nat, r: nat, id: Id)
    requires PassInv(p, store, sl, w, r, r) && r < |sl|
    requires id in p.store && p.store[id].rtcp.Some? && p.store[id].sidx.l0 == r
    ensures id in store && store[id].sidx.l0 == r && store[id].rtcp.Some?
    ensures sl[r] == p.sl[r] && sl[r].session == Some(id)
  {
    assert PairedAt(p.store, id) && LinkedAt(p.store, p.sl, 1, 1, id, false);
    assert KeyAt(p, store, r, id) && SessionAt(p, store, w, r, r, id) && AheadAt(p, sl, r, r, r);
  }

  /** Nothing about a session changes by moving the tick past a slot that is not its leg 0. */
  lemma TickElsewhere(p: Pass, r: nat, id: Id)
    requires Inv(p.store, p.sl, 1, 1) && id in p.store
    requires !p.tick || p.store[Root(p.store, id)].sidx.l0 != r
    ensures GoneBy(p, id, r) <==> GoneBy(p, id, r + 1)
    ensures TtlAt(p, id, r, r) == TtlAt(p, id, r, r + 1)
  {
    assert PairedAt(p.store, id);
  }

  lemma NoTick(p: Pass, store: Store, sl: seq<Slot>, w: nat, r: nat)
    requires PassInv(p, store, sl, w, r, r) && r < |sl| && !Due(p.tick, store, sl, r)
    ensures PassInv(p, store, sl, w, r, r + 1)
  {
    forall id | id in p.store
      ensures KeyAt(p, store, r + 1, id) && SessionAt(p, store, w, r, r + 1, id)
      ensures GoneBy(p, id, r) <==> GoneBy(p, id, r + 1)
    {
      assert PairedAt(p.store, id);
      var root := Root(p.store, id);
      assert PairedAt(p.store, root);
      if p.tick && p.store[root].sidx.l0 == r {
        LegZeroHere(p, store, sl, w, r, root);
      }
      TickElsewhere(p, r, id);
      assert KeyAt(p, store, r, id) && SessionAt(p, store, w, r, r, id);
    }
    forall id {:trigger SessionAt(p, store, w, r, r + 1, id)} ensures SessionAt(p, store, w, r, r + 1, id) {
      assert SessionAt(p, store, w, r, r, id);
    }
    forall k {:trigger AheadAt(p, sl, r, r + 1, k)} ensures AheadAt(p, sl, r, r + 1, k) {
      assert AheadAt(p, sl, r, r, k);
    }
  }

  /** Before its leg 0 is reached, a session's lifetimes are what they were. */
  lemma Untouched(p: Pass, id: Id, r: nat)
    requires Inv(p.store, p.sl, 1, 1) && id in p.store && p.store[id].rtcp.Some? && p.store[id].sidx.l0 >= r
    ensures TtlAt(p, id, r, r) == p.store[id].ttl
    ensures !Heard(p, id, false, r) && !Heard(p, id, true, r)
  {
    assert PairedAt(p.store, id) && LowestAt(p.store, id);
  }

  lemma Decrement(p: Pass, store: Store, sl: seq<Slot>, w: nat, r: nat)
    requires PassInv(p, store, sl, w, r, r) && r < |sl| && Due(p.tick, store, sl, r)
    requires !RunOut(store[sl[r].session.value])
    ensures
      var id := sl[r].session.value;
      var s := store[id];
      PassInv(p, store[id := s.(ttl := Legs(Dec(s.ttl.l0), Dec(s.ttl.l1)))], sl, w, r, r + 1)
  {
    var id := sl[r].session.value;
    var store' := store[id := store[id].(ttl := Legs(Dec(store[id].ttl.l0), Dec(store[id].ttl.l1)))];
    ShapeKeepsInv(store, store', sl, w, r);
    DueSession(p, store, sl, w, r);
    Untouched(p, id, r);
    forall x {:trigger KeyAt(p, store', r + 1, x)} ensures KeyAt(p, store', r + 1, x) {
      assert KeyAt(p, store, r, x);
      if x in p.store {
        TickAt(p, store, sl, w, r, x);
      }
    }
    forall x {:trigger SessionAt(p, store', w, r, r + 1, x)} ensures SessionAt(p, store', w, r, r + 1, x) {
      assert SessionAt(p, store, w, r, r, x);
      if x in store {
        TickAt(p, store, sl, w, r, x);
      }
    }
    forall k {:trigger AheadAt(p, sl, r, r + 1, k)} ensures AheadAt(p, sl, r, r + 1, k) {
      assert AheadAt(p, sl, r, r, k);
      assert SlotAt(p.store, p.sl, 1, 1, k);
      if r <= k < |sl| && p.sl[k].session.Some? && p.sl[k].session.value in p.store {
        TickAt(p, store, sl, w, r, p.sl[k].session.value);
      }
    }
  }

  /** The session that is due, in terms of the start of the pass. */
  lemma DueSession(p: Pass, store: Store, sl: seq<Slot>, w: nat, r: nat)
    requires PassInv(p, store, sl, w, r, r) && r < |sl| && Due(p.tick, store, sl, r)
    ensures
      var id := sl[r].session.value;
      && id in p.store && p.store[id].rtcp == store[id].rtcp && p.store[id].rtp.None?
      && p.store[id].sidx.l0 == r && store[id].ttl == p.store[id].ttl && store[id].ttlMode == p.store[id].ttlMode
  {
    var id := sl[r].session.value;
    assert SessionAt(p, store, w, r, r, id);
    assert PairedAt(p.store, id);
    Untouched(p, id, r);
  }

  /** Ticking slot `r` concerns exactly the pair whose leg 0 is there. */
  lemma TickAt(p: Pass, store: Store, sl: seq<Slot>, w: nat, r: nat, x: Id)
    requires PassInv(p, store, sl, w, r, r) && r < |sl| && Due(p.tick, store, sl, r) && x in p.store
    ensures
      var id := sl[r].session.value;
      if Root(p.store, x) == id then !GoneBy(p, x, r) && (GoneBy(p, x, r + 1) <==> RunOut(store[id]))
      else (GoneBy(p, x, r) <==> GoneBy(p, x, r + 1)) && TtlAt(p, x, r, r) == TtlAt(p, x, r, r + 1)
    ensures p.store[x].rtcp.None? ==> TtlAt(p, x, r, r) == TtlAt(p, x, r, r + 1)
  {
    DueSession(p, store, sl, w, r);
    var id := sl[r].session.value;
    assert PairedAt(p.store, x);
    var root := Root(p.store, x);
    assert PairedAt(p.store, root) && LinkedAt(p.store, p.sl, 1, 1, root, false);
    if root != id {
      assert LinkedAt(p.store, p.sl, 1, 1, id, false);
      TickElsewhere(p, r, x);
    }
  }

  /** Removing the session that is due and timed out. */
  lemma Expire(p: Pass, store: Store, sl: seq<Slot>, w: nat, r: nat)
    requires PassInv(p, store, sl, w, r, r) && r < |sl| && Due(p.tick, store, sl, r)
    requires RunOut(store[sl[r].session.value])
    ensures
      var id := sl[r].session.value;
      var t := store[id].rtcp.value;
      t in store && PassInv(p, store - {id, t}, ClearPair(sl, store[id], store[t]), w, r, r + 1)
  {
    var id := sl[r].session.value;
    RemoveKeepsInv(store, sl, w, r, id);
    DueSession(p, store, sl, w, r);
    var t := store[id].rtcp.value;
    var store', sl' := store - {id, t}, ClearPair(sl, store[id], store[t]);
    forall x {:trigger KeyAt(p, store', r + 1, x)} ensures KeyAt(p, store', r + 1, x) {
      assert KeyAt(p, store, r, x);
      if x in p.store {
        TickAt(p, store, sl, w, r, x);
        PairOf(p, id, x);
      }
    }
    forall x {:trigger SessionAt(p, store', w, r, r + 1, x)} ensures SessionAt(p, store', w, r, r + 1, x) {
      assert SessionAt(p, store, w, r, r, x);
      if x in store' {
        TickAt(p, store, sl, w, r, x);
        PairOf(p, id, x);
      }
    }
    forall k {:trigger AheadAt(p, sl', r, r + 1, k)} ensures AheadAt(p, sl', r, r + 1, k) {
      if r <= k < |sl| {
        ExpireAhead(p, store, sl, w, r, k);
      }
    }
    forall k | 1 <= k < w ensures sl'[k] == sl[k] {
      ClearPairSlots(store, sl, w, r, id, k);
      CompactedNotOwned(store, sl, w, r, id, k);
    }
    assert sl'[1..w] == sl[1..w];
  }

  /** The members of a pair are those with its root. */
  lemma PairOf(p: Pass, id: Id, x: Id)
    requires Inv(p.store, p.sl, 1, 1) && id in p.store && p.store[id].rtcp.Some? && x in p.store
    ensures Root(p.store, x) == id <==> x == id || x == p.store[id].rtcp.value
  {
    assert PairedAt(p.store, id) && PairedAt(p.store, x);
  }

  lemma ExpireAhead(p: Pass, store: Store, sl: seq<Slot>, w: nat, r: nat, k: nat)
    requires PassInv(p, store, sl, w, r, r) && r <= k < |sl| && Due(p.tick, store, sl, r)
    requires RunOut(store[sl[r].session.value])
    ensures
      var id := sl[r].session.value;
      var t := store[id].rtcp.value;
      t in store && AheadAt(p, ClearPair(sl, store[id], store[t]), r, r + 1, k)
  {
    var id := sl[r].session.value;
    DueSession(p, store, sl, w, r);
    ClearPairSlots(store, sl, w, r, id, k);
    assert AheadAt(p, sl, r, r, k);
    if p.sl[k].session.Some? && p.sl[k].session.value in p.store {
      TickAt(p, store, sl, w, r, p.sl[k].session.value);
      PairOf(p, id, p.sl[k].session.value);
    }
  }

  // ----- the slot itself

  /** Where a leg below slot `r + 1` relayed, it was below `r` or is the one in slot `r`. */
  lemma HeardNext(p: Pass, x: Id, leg: bool, r: nat)
    requires Inv(p.store, p.sl, 1, 1) && r < |p.sl| && x in p.store
    ensures LegHeard(p, x, leg, r + 1) <==>
            LegHeard(p, x, leg, r)
            || (p.sl[r] == Slot(Some(x), p.store[x].fds.At(leg)) && Holds(p.store, p.sl[r], r, leg)
                && p.store[x].complete && p.sl[r].fd in p.traffic)
  {
    assert LinkedAt(p.store, p.sl, 1, 1, x, leg);
  }

  /** A slot that is still occupied is untouched, and so is the place of its leg. */
  lemma SlotHere(p: Pass, store: Store, sl: seq<Slot>, w: nat, r: nat, leg: bool)
    requires PassInv(p, store, sl, w, r, r + 1) && r < |sl| && sl[r] != HOLE
    requires Holds(store, sl[r], r, leg)
    ensures sl[r] == p.sl[r] && Stays(p, p.sl[r]) && Holds(p.store, p.sl[r], r, leg)
  {
    var id := sl[r].session.value;
    assert AheadAt(p, sl, r, r + 1, r) && SessionAt(p, store, w, r, r + 1, id);
    assert SlotAt(store, sl, w, r, r);
    assert PairedAt(p.store, id);
    var root := Root(p.store, id);
    assert LowestAt(p.store, root) && PairedAt(p.store, root);
    assert LinkedAt(p.store, p.sl, 1, 1, id, leg);
  }

  /** Passing over a hole: it was one before, or its session just timed out. */
  lemma Skip(p: Pass, store: Store, sl: seq<Slot>, w: nat, r: nat)
    requires PassInv(p, store, sl, w, r, r + 1) && r < |sl| && sl[r] == HOLE
    ensures PassInv(p, store, sl, w, r + 1, r + 1)
  {
    SkipKeepsInv(store, sl, w, r);
    assert AheadAt(p, sl, r, r + 1, r) && SlotAt(p.store, p.sl, 1, 1, r);
    assert !Stays(p, p.sl[r]);
    forall x {:trigger SessionAt(p, store, w, r + 1, r + 1, x)} ensures SessionAt(p, store, w, r + 1, r + 1, x) {
      assert SessionAt(p, store, w, r, r + 1, x);
      if x in store {
        SkipSession(p, store, sl, w, r, x);
      }
    }
    forall k {:trigger AheadAt(p, sl, r + 1, r + 1, k)} ensures AheadAt(p, sl, r + 1, r + 1, k) {
      assert AheadAt(p, sl, r, r + 1, k);
    }
  }

  lemma SkipSession(p: Pass, store: Store, sl: seq<Slot>, w: nat, r: nat, x: Id)
    requires PassInv(p, store, sl, w, r, r + 1) && r < |sl| && sl[r] == HOLE && x in store
    ensures SessionAt(p, store, w, r + 1, r + 1, x)
  {
    assert SessionAt(p, store, w, r, r + 1, x);
    assert AheadAt(p, sl, r, r + 1, r) && KeyAt(p, store, r + 1, x);
    assert PairedAt(p.store, x);
    assert LinkedAt(p.store, p.sl, 1, 1, x, false) && LinkedAt(p.store, p.sl, 1, 1, x, true);
    HeardNext(p, x, false, r);
    HeardNext(p, x, true, r);
    if p.store[x].rtcp.Some? {
      var t := p.store[x].rtcp.value;
      assert KeyAt(p, store, r + 1, t) && PairedAt(p.store, t);
      HeardNext(p, t, false, r);
      HeardNext(p, t, true, r);
    }
  }

  /** The table after the leg in slot `r` moved to slot `w` and, if it relayed a packet,
      refreshed the lifetime of its session. */
  function Moved(store: Store, slot: Slot, leg: bool, w: nat, traffic: set<int>, maxTtl: int): Store
    requires slot.session.Some? && slot.session.value in store
  {
    var id := slot.session.value;
    var store1 := store[id := store[id].(sidx := store[id].sidx.Set(leg, w))];
    var root := Root(store1, id);
    if root in store1 && store1[id].complete && slot.fd in traffic
    then store1[root := store1[root].(ttl := store1[root].ttl.Set(leg, maxTtl))]
    else store1
  }

  lemma Move(p: Pass, store: Store, sl: seq<Slot>, w: nat, r: nat, leg: bool)
    requires PassInv(p, store, sl, w, r, r + 1) && r < |sl| && sl[r] != HOLE && Holds(store, sl[r], r, leg)
    ensures PassInv(p, Moved(store, sl[r], leg, w, p.traffic, p.maxTtl), sl[w := sl[r]], w + 1, r + 1, r + 1)
  {
    var id := sl[r].session.value;
    var store', sl' := Moved(store, sl[r], leg, w, p.traffic, p.maxTtl), sl[w := sl[r]];
    MovedKeepsInv(p, store, sl, w, r, leg);
    SlotHere(p, store, sl, w, r, leg);
    forall x {:trigger KeyAt(p, store', r + 1, x)} ensures KeyAt(p, store', r + 1, x) {
      assert KeyAt(p, store, r + 1, x);
    }
    MoveSessions(p, store, store', sl, w, r, leg);
    forall k {:trigger AheadAt(p, sl', r + 1, r + 1, k)} ensures AheadAt(p, sl', r + 1, r + 1, k) {
      assert AheadAt(p, sl, r, r + 1, k);
    }
    assert sl'[1..w + 1] == sl[1..w] + [sl[r]];
  }

  lemma MoveSessions(p: Pass, store: Store, store': Store, sl: seq<Slot>, w: nat, r: nat, leg: bool)
    requires PassInv(p, store, sl, w, r, r + 1) && r < |sl| && sl[r] != HOLE && Holds(store, sl[r], r, leg)
    requires sl[r] == p.sl[r] && Holds(p.store, p.sl[r], r, leg)
    requires store' == Moved(store, sl[r], leg, w, p.traffic, p.maxTtl)
    ensures forall x {:trigger SessionAt(p, store', w + 1, r + 1, r + 1, x)} ::
              SessionAt(p, store', w + 1, r + 1, r + 1, x)
  {
    var id := sl[r].session.value;
    assert PairedAt(store, id) && SessionAt(p, store, w, r, r + 1, id);
    assert |sl[1..w]| == w - 1;
    forall x {:trigger SessionAt(p, store', w + 1, r + 1, r + 1, x)}
      ensures SessionAt(p, store', w + 1, r + 1, r + 1, x)
    {
      if x in store' {
        assert SessionAt(p, store, w, r, r + 1, x);
        MoveSession(p, store, w, r, leg, id, x);
      }
    }
  }

  lemma MovedKeepsInv(p: Pass, store: Store, sl: seq<Slot>, w: nat, r: nat, leg: bool)
    requires Inv(store, sl, w, r) && r < |sl| && sl[r] != HOLE && Holds(store, sl[r], r, leg)
    ensures Inv(Moved(store, sl[r], leg, w, p.traffic, p.maxTtl), sl[w := sl[r]], w + 1, r + 1)
    ensures Moved(store, sl[r], leg, w, p.traffic, p.maxTtl).Keys == store.Keys
  {
    var id := sl[r].session.value;
    var store1 := store[id := store[id].(sidx := store[id].sidx.Set(leg, w))];
    MoveKeepsInv(store, sl, w, r, leg);
    ShapeKeepsInv(store1, Moved(store, sl[r], leg, w, p.traffic, p.maxTtl), sl[w := sl[r]], w + 1, r + 1);
  }

  lemma MoveSession(p: Pass, store: Store, w: nat, r: nat, leg: bool, id: Id, x: Id)
    requires Inv(p.store, p.sl, 1, 1) && r < |p.sl| && Holds(p.store, p.sl[r], r, leg) && p.sl[r].session == Some(id)
    requires id in store && x in store && PairedAt(store, id)
    requires SessionAt(p, store, w, r, r + 1, x) && SessionAt(p, store, w, r, r + 1, id) && w == Rank(p, r)
    ensures SessionAt(p, Moved(store, p.sl[r], leg, w, p.traffic, p.maxTtl), w + 1, r + 1, r + 1, x)
  {
    assert PairedAt(p.store, id);
    var store' := Moved(store, p.sl[r], leg, w, p.traffic, p.maxTtl);
    assert Root(store, id) == Root(p.store, id);
    assert store'[x].ttl == TtlAt(p, x, r + 1, r + 1) by { Relayed(p, r, leg, x); }
    assert store'[x].sidx == if x == id then store[id].sidx.Set(leg, w) else store[x].sidx;
    MoveLeg(p, store, store', w, r, leg, id, x, false);
    MoveLeg(p, store, store', w, r, leg, id, x, true);
  }

  lemma MoveLeg(p: Pass, store: Store, store': Store, w: nat, r: nat, leg: bool, id: Id, x: Id, l: bool)
    requires Inv(p.store, p.sl, 1, 1) && r < |p.sl| && Holds(p.store, p.sl[r], r, leg) && p.sl[r].session == Some(id)
    requires id in store && x in store && x in p.store && x in store' && LegAt(p, store, w, r, x, l) && w == Rank(p, r)
    requires store'[x].sidx == if x == id then store[id].sidx.Set(leg, w) else store[x].sidx
    ensures LegAt(p, store', w + 1, r + 1, x, l)
  {
    assert LinkedAt(p.store, p.sl, 1, 1, x, l) && PairedAt(p.store, id);
  }

  /** The lifetimes once slot `r` was handled: those of the session in it are restored if
      it relayed a packet, all others are as before. */
  lemma Relayed(p: Pass, r: nat, leg: bool, x: Id)
    requires Inv(p.store, p.sl, 1, 1) && r < |p.sl| && Holds(p.store, p.sl[r], r, leg) && x in p.store
    ensures
      var id := p.sl[r].session.value;
      TtlAt(p, x, r + 1, r + 1) ==
      if x == Root(p.store, id) && p.store[id].complete && p.sl[r].fd in p.traffic
      then TtlAt(p, x, r, r + 1).Set(leg, p.maxTtl) else TtlAt(p, x, r, r + 1)
  {
    var id := p.sl[r].session.value;
    assert PairedAt(p.store, x) && PairedAt(p.store, id);
    if p.store[x].rtcp.Some? {
      RelayedLeg(p, r, leg, x, false);
      RelayedLeg(p, r, leg, x, true);
    }
  }

  lemma RelayedLeg(p: Pass, r: nat, leg: bool, x: Id, l: bool)
    requires Inv(p.store, p.sl, 1, 1) && r < |p.sl| && Holds(p.store, p.sl[r], r, leg)
    requires x in p.store && p.store[x].rtcp.Some?
    ensures
      var id := p.sl[r].session.value;
      Heard(p, x, l, r + 1) <==>
      Heard(p, x, l, r) || (x == Root(p.store, id) && l == leg && p.store[id].complete && p.sl[r].fd in p.traffic)
  {
    var id, t := p.sl[r].session.value, p.store[x].rtcp.value;
    assert PairedAt(p.store, x) && PairedAt(p.store, id);
    PairOf(p, x, id);
    HeardNext(p, x, l, r);
    HeardNext(p, t, l, r);
    if Holds(p.store, p.sl[r], r, l) {
      OneLeg(p.store, p.sl[r], r, leg, l);
    }
  }

  lemma OneLeg(store: Store, slot: Slot, r: nat, a: bool, b: bool)
    requires Paired(store) && Holds(store, slot, r, a) && Holds(store, slot, r, b)
    ensures a == b
  {
    assert PairedAt(store, slot.session.value);
  }

  /** At the end of the scan the whole effect of the pass has taken place and, with the
      tail cut off, the table holds the survivors in their old order, without holes. */
  lemma PassEnd(p: Pass, store: Store, sl: seq<Slot>, w: nat)
    requires PassInv(p, store, sl, w, |sl|, |sl|)
    ensures store == PassStore(p)
    ensures Inv(store, sl[..w], 1, 1) && sl[1..w] == Kept(p, |p.sl|)
  {
    PassEndStore(p, store, sl, w);
    forall id, leg {:trigger LinkedAt(store, sl[..w], 1, 1, id, leg)} | id in store
      ensures LinkedAt(store, sl[..w], 1, 1, id, leg)
    {
      assert LinkedAt(store, sl, w, |sl|, id, leg);
    }
    forall k {:trigger SlotAt(store, sl[..w], 1, 1, k)} ensures SlotAt(store, sl[..w], 1, 1, k) {
      assert SlotAt(store, sl, w, |sl|, k);
    }
  }

  lemma PassEndStore(p: Pass, store: Store, sl: seq<Slot>, w: nat)
    requires PassInv(p, store, sl, w, |sl|, |sl|)
    ensures store == PassStore(p)
  {
    var after := PassStore(p);
    forall id ensures id in store <==> id in after {
      if id in p.store { DeadIsGone(p, store, sl, w, id); } else if id in store { SessionDone(p, store, sl, w, id); }
    }
    forall id | id in store ensures store[id] == after[id] { SessionDone(p, store, sl, w, id); }
  }

  lemma SessionDone(p: Pass, store: Store, sl: seq<Slot>, w: nat, id: Id)
    requires PassInv(p, store, sl, w, |sl|, |sl|) && id in store
    ensures id in p.store
    ensures store[id] == p.store[id].(sidx := Legs(NewSlot(p, id, false), NewSlot(p, id, true)),
                                      ttl := TtlAt(p, id, |p.sl|, |p.sl|))
  {
    assert SessionAt(p, store, w, |sl|, |sl|, id);
    assert LinkedAt(p.store, p.sl, 1, 1, id, false) && LinkedAt(p.store, p.sl, 1, 1, id, true);
  }

  lemma DeadIsGone(p: Pass, store: Store, sl: seq<Slot>, w: nat, id: Id)
    requires PassInv(p, store, sl, w, |sl|, |sl|) && id in p.store
    ensures id in store <==> !Dead(p, id)
  {
    assert KeyAt(p, store, |sl|, id) && PairedAt(p.store, id);
    var root := Root(p.store, id);
    assert PairedAt(p.store, root) && LinkedAt(p.store, p.sl, 1, 1, root, false);
  }
}
