/** The table of open call legs: one slot per polled descriptor, with back-pointers from
    the sessions to their slots. */
module SessionTable {
  import opened Options

  /** A session pointer. */
  type Id = nat

  const NO_FD := -1

  /** One value per call leg. */
  datatype Legs = Legs(l0: int, l1: int) {
    function At(leg: bool): int {
      if leg then l1 else l0
    }

    function Set(leg: bool, x: int): Legs {
      if leg then Legs(l0, x) else Legs(x, l1)
    }
  }

  datatype TtlMode = Unified | Independent

  /** An RTP session has a twin in `rtcp`, the twin points back through `rtp`. */
  datatype Session = Session(
    fds: Legs, sidx: Legs, ttl: Legs, ttlMode: TtlMode, complete: bool,
    rtcp: Option<Id>, rtp: Option<Id>,
    callId: string, tag: string, strong: bool, weak0: bool, weak1: bool)

  type Store = map<Id, Session>

  /** A slot of `sessions[]` and the descriptor in the same slot of `pfds[]`. */
  datatype Slot = Slot(session: Option<Id>, fd: int)

  const HOLE := Slot(None, NO_FD)

  /** A leg has an open descriptor. */
  predicate Open(s: Session, leg: bool) {
    s.fds.At(leg) != NO_FD
  }

  // ----- the invariant

  /** RTP and RTCP sessions come in pairs whose legs are opened together. */
  ghost predicate PairedAt(store: Store, id: Id)
    requires id in store
  {
    var s := store[id];
    && s.fds.l0 != NO_FD && s.fds.l0 != s.fds.l1
    && match s.rtcp
       case Some(t) =>
         && s.rtp.None? && t in store && store[t].rtp == Some(id) && store[t].rtcp.None?
         && (Open(s, true) <==> Open(store[t], true))
       case None =>
         && s.rtp.Some? && s.rtp.value in store && store[s.rtp.value].rtcp == Some(id)
  }

  /** Leg 0 of an RTP session sits below all other legs of the pair. */
  ghost predicate LowestAt(store: Store, id: Id)
    requires id in store
  {
    var s := store[id];
    s.rtcp.Some? && s.rtcp.value in store ==>
      var t := store[s.rtcp.value];
      && s.sidx.l0 < t.sidx.l0
      && (Open(s, true) ==> s.sidx.l0 < s.sidx.l1)
      && (Open(t, true) ==> s.sidx.l0 < t.sidx.l1)
  }

  /** While a pass runs, slots below `w` are compacted and slots from `r` on are not yet
      visited; those between are stale. Between passes both are 1. */
  predicate InUse(k: int, n: nat, w: nat, r: nat) {
    1 <= k < n && (k < w || r <= k)
  }

  /** The back-pointer of an open leg leads to a slot that holds it. */
  ghost predicate LinkedAt(store: Store, sl: seq<Slot>, w: nat, r: nat, id: Id, leg: bool)
    requires id in store
  {
    var s := store[id];
    Open(s, leg) ==> InUse(s.sidx.At(leg), |sl|, w, r) && sl[s.sidx.At(leg)] == Slot(Some(id), s.fds.At(leg))
  }

  /** The slot `k` is the place of this leg. */
  predicate Holds(store: Store, slot: Slot, k: nat, leg: bool) {
    && slot.session.Some? && slot.session.value in store
    && var s := store[slot.session.value];
       Open(s, leg) && s.fds.At(leg) == slot.fd && s.sidx.At(leg) == k
  }

  /** A slot in use is a hole or the place of an open leg; below `w` there are no holes. */
  ghost predicate SlotAt(store: Store, sl: seq<Slot>, w: nat, r: nat, k: int) {
    InUse(k, |sl|, w, r) ==>
      && (sl[k] == HOLE || Holds(store, sl[k], k, false) || Holds(store, sl[k], k, true))
      && (k < w ==> sl[k] != HOLE)
  }

  ghost predicate Paired(store: Store) {
    forall id :: id in store ==> PairedAt(store, id)
  }

  ghost predicate Lowest(store: Store) {
    forall id :: id in store ==> LowestAt(store, id)
  }

  ghost predicate Linked(store: Store, sl: seq<Slot>, w: nat, r: nat) {
    forall id, leg :: id in store ==> LinkedAt(store, sl, w, r, id, leg)
  }

  ghost predicate Slotted(store: Store, sl: seq<Slot>, w: nat, r: nat) {
    forall k :: SlotAt(store, sl, w, r, k)
  }

  ghost predicate Inv(store: Store, sl: seq<Slot>, w: nat, r: nat) {
    && 1 <= w <= r <= |sl|
    && Paired(store) && Lowest(store) && Linked(store, sl, w, r) && Slotted(store, sl, w, r)
  }

  // ----- changes that the invariant does not see

  /** The fields the invariant looks at are the same. */
  ghost predicate SameShape(a: Store, b: Store) {
    && a.Keys == b.Keys
    && forall id :: id in a ==>
         a[id].fds == b[id].fds && a[id].sidx == b[id].sidx && a[id].rtcp == b[id].rtcp && a[id].rtp == b[id].rtp
  }

  lemma ShapeKeepsInv(a: Store, b: Store, sl: seq<Slot>, w: nat, r: nat)
    requires Inv(a, sl, w, r) && SameShape(a, b)
    ensures Inv(b, sl, w, r)
  {
    forall id | id in b ensures PairedAt(b, id) && LowestAt(b, id) {
      assert PairedAt(a, id) && LowestAt(a, id);
    }
    forall id, leg {:trigger LinkedAt(b, sl, w, r, id, leg)} | id in b ensures LinkedAt(b, sl, w, r, id, leg) {
      assert LinkedAt(a, sl, w, r, id, leg);
    }
    forall k {:trigger SlotAt(b, sl, w, r, k)} ensures SlotAt(b, sl, w, r, k) {
      assert SlotAt(a, sl, w, r, k);
    }
  }

  // ----- the compaction steps

  /** Passing over a hole. */
  lemma SkipKeepsInv(store: Store, sl: seq<Slot>, w: nat, r: nat)
    requires Inv(store, sl, w, r) && r < |sl| && sl[r] == HOLE
    ensures Inv(store, sl, w, r + 1)
  {
    forall id, leg {:trigger LinkedAt(store, sl, w, r + 1, id, leg)} | id in store
      ensures LinkedAt(store, sl, w, r + 1, id, leg)
    {
      assert LinkedAt(store, sl, w, r, id, leg);
    }
    forall k {:trigger SlotAt(store, sl, w, r + 1, k)} ensures SlotAt(store, sl, w, r + 1, k) {
      assert SlotAt(store, sl, w, r, k);
    }
  }

  /** A slot holds one leg only, found by comparing descriptors. */
  lemma LegOfSlot(store: Store, sl: seq<Slot>, w: nat, r: nat, leg: bool)
    requires Inv(store, sl, w, r) && r < |sl| && sl[r] != HOLE
    requires sl[r].session.Some? && sl[r].session.value in store
    requires store[sl[r].session.value].fds.At(leg) == sl[r].fd
    ensures Holds(store, sl[r], r, leg)
  {
    assert SlotAt(store, sl, w, r, r);
    assert PairedAt(store, sl[r].session.value);
  }

  /** Moving the leg in slot `r` down to slot `w`. */
  lemma MoveKeepsInv(store: Store, sl: seq<Slot>, w: nat, r: nat, leg: bool)
    requires Inv(store, sl, w, r) && r < |sl| && sl[r] != HOLE && Holds(store, sl[r], r, leg)
    ensures
      var id := sl[r].session.value;
      Inv(store[id := store[id].(sidx := store[id].sidx.Set(leg, w))], sl[w := sl[r]], w + 1, r + 1)
  {
    var id := sl[r].session.value;
    var store' := store[id := store[id].(sidx := store[id].sidx.Set(leg, w))];
    var sl' := sl[w := sl[r]];
    forall x | x in store' ensures PairedAt(store', x) {
      assert PairedAt(store, x);
    }
    MoveKeepsLinks(store, sl, w, r, leg);
    MoveKeepsLowest(store, sl, w, r, leg);
    forall k {:trigger SlotAt(store', sl', w + 1, r + 1, k)} ensures SlotAt(store', sl', w + 1, r + 1, k) {
      assert SlotAt(store, sl, w, r, k);
    }
  }

  lemma MoveKeepsLinks(store: Store, sl: seq<Slot>, w: nat, r: nat, leg: bool)
    requires Inv(store, sl, w, r) && r < |sl| && Holds(store, sl[r], r, leg)
    ensures
      var id := sl[r].session.value;
      Linked(store[id := store[id].(sidx := store[id].sidx.Set(leg, w))], sl[w := sl[r]], w + 1, r + 1)
  {
    var id := sl[r].session.value;
    var store' := store[id := store[id].(sidx := store[id].sidx.Set(leg, w))];
    var sl' := sl[w := sl[r]];
    assert PairedAt(store, id);
    forall x, l {:trigger LinkedAt(store', sl', w + 1, r + 1, x, l)} | x in store'
      ensures LinkedAt(store', sl', w + 1, r + 1, x, l)
    {
      assert LinkedAt(store, sl, w, r, x, l);
    }
  }

  lemma MoveKeepsLowest(store: Store, sl: seq<Slot>, w: nat, r: nat, leg: bool)
    requires Inv(store, sl, w, r) && r < |sl| && Holds(store, sl[r], r, leg)
    ensures
      var id := sl[r].session.value;
      Lowest(store[id := store[id].(sidx := store[id].sidx.Set(leg, w))])
  {
    var id := sl[r].session.value;
    var store' := store[id := store[id].(sidx := store[id].sidx.Set(leg, w))];
    forall x | x in store' ensures LowestAt(store', x) {
      assert LowestAt(store, x) && PairedAt(store, x) && PairedAt(store, id);
      assert LinkedAt(store, sl, w, r, x, false) && LinkedAt(store, sl, w, r, x, true);
      if store[x].rtcp.Some? {
        var t := store[x].rtcp.value;
        assert LinkedAt(store, sl, w, r, t, false) && LinkedAt(store, sl, w, r, t, true);
        assert PairedAt(store, t);
      }
    }
  }

  // ----- removal

  /** A leg's slot becomes a hole. */
  function ClearLeg(sl: seq<Slot>, s: Session, leg: bool): (sl': seq<Slot>)
    ensures |sl'| == |sl|
  {
    var k := s.sidx.At(leg);
    if Open(s, leg) && 0 <= k < |sl| then sl[k := HOLE] else sl
  }

  /** All slots of an RTP session and of its twin become holes. */
  function ClearPair(sl: seq<Slot>, s: Session, t: Session): (sl': seq<Slot>)
    ensures |sl'| == |sl|
  {
    ClearLeg(ClearLeg(ClearLeg(ClearLeg(sl, s, false), t, false), s, true), t, true)
  }

  predicate OwnedBy(slot: Slot, id: Id, t: Id) {
    slot.session == Some(id) || slot.session == Some(t)
  }

  /** Clearing a pair makes holes of exactly the slots in use that belong to it. */
  lemma ClearPairSlots(store: Store, sl: seq<Slot>, w: nat, r: nat, id: Id, k: nat)
    requires Inv(store, sl, w, r) && id in store && store[id].rtcp.Some? && k < |sl|
    ensures
      var t := store[id].rtcp.value;
      && t in store
      && (InUse(k, |sl|, w, r) ==>
            ClearPair(sl, store[id], store[t])[k] == if OwnedBy(sl[k], id, t) then HOLE else sl[k])
  {
    assert PairedAt(store, id);
    var t := store[id].rtcp.value;
    assert SlotAt(store, sl, w, r, k);
    assert LinkedAt(store, sl, w, r, id, false) && LinkedAt(store, sl, w, r, id, true);
    assert LinkedAt(store, sl, w, r, t, false) && LinkedAt(store, sl, w, r, t, true);
  }

  /** Removing a pair none of whose legs was moved yet. */
  lemma RemoveKeepsInv(store: Store, sl: seq<Slot>, w: nat, r: nat, id: Id)
    requires Inv(store, sl, w, r) && id in store && store[id].rtcp.Some? && r <= store[id].sidx.l0
    ensures
      var t := store[id].rtcp.value;
      t in store && Inv(store - {id, t}, ClearPair(sl, store[id], store[t]), w, r)
  {
    assert PairedAt(store, id) && LowestAt(store, id);
    var t := store[id].rtcp.value;
    var store', sl' := store - {id, t}, ClearPair(sl, store[id], store[t]);
    forall x | x in store' ensures PairedAt(store', x) && LowestAt(store', x) {
      assert PairedAt(store, x) && LowestAt(store, x);
    }
    forall x, leg {:trigger LinkedAt(store', sl', w, r, x, leg)} | x in store'
      ensures LinkedAt(store', sl', w, r, x, leg)
    {
      assert LinkedAt(store, sl, w, r, x, leg);
      if Open(store[x], leg) {
        ClearPairSlots(store, sl, w, r, id, store[x].sidx.At(leg));
      }
    }
    forall k {:trigger SlotAt(store', sl', w, r, k)} ensures SlotAt(store', sl', w, r, k) {
      assert SlotAt(store, sl, w, r, k);
      if InUse(k, |sl|, w, r) {
        ClearPairSlots(store, sl, w, r, id, k);
        if k < w {
          CompactedNotOwned(store, sl, w, r, id, k);
        }
      }
    }
  }

  lemma CompactedNotOwned(store: Store, sl: seq<Slot>, w: nat, r: nat, id: Id, k: nat)
    requires Inv(store, sl, w, r) && id in store && store[id].rtcp.Some? && r <= store[id].sidx.l0
    requires 1 <= k < w
    ensures !OwnedBy(sl[k], id, store[id].rtcp.value)
  {
    assert PairedAt(store, id) && LowestAt(store, id);
    assert SlotAt(store, sl, w, r, k);
  }

  // ----- creation and completion

  /** A new RTP session and its twin, with one leg each in two new slots. */
  function CreateStore(store: Store, n: nat, id: Id, t: Id, proto: Session, fd0: int, fd1: int): Store {
    store[id := proto.(fds := Legs(fd0, NO_FD), sidx := Legs(n, -1), rtcp := Some(t), rtp := None)]
         [t := proto.(fds := Legs(fd1, NO_FD), sidx := Legs(n + 1, -1), rtcp := None, rtp := Some(id),
                      ttl := Legs(-1, -1), strong := false, weak0 := false)]
  }

  lemma CreateKeepsInv(store: Store, sl: seq<Slot>, id: Id, t: Id, proto: Session, fd0: int, fd1: int)
    requires Inv(store, sl, 1, 1) && id !in store && t !in store && id != t && fd0 >= 0 && fd1 >= 0
    ensures Inv(CreateStore(store, |sl|, id, t, proto, fd0, fd1), sl + [Slot(Some(id), fd0), Slot(Some(t), fd1)], 1, 1)
  {
    var store' := CreateStore(store, |sl|, id, t, proto, fd0, fd1);
    var sl' := sl + [Slot(Some(id), fd0), Slot(Some(t), fd1)];
    forall x | x in store' ensures PairedAt(store', x) && LowestAt(store', x) {
      assert x in store ==> PairedAt(store, x) && LowestAt(store, x);
    }
    forall x, leg {:trigger LinkedAt(store', sl', 1, 1, x, leg)} | x in store'
      ensures LinkedAt(store', sl', 1, 1, x, leg)
    {
      assert x in store ==> LinkedAt(store, sl, 1, 1, x, leg);
    }
    forall k {:trigger SlotAt(store', sl', 1, 1, k)} ensures SlotAt(store', sl', 1, 1, k) {
      assert SlotAt(store, sl, 1, 1, k);
    }
  }

  /** The second leg of a pair, in two new slots; both sessions become complete. */
  function CompleteStore(store: Store, n: nat, id: Id, t: Id, fd0: int, fd1: int): Store
    requires id in store && t in store
  {
    var s, u := store[id], store[t];
    store[id := s.(fds := Legs(s.fds.l0, fd0), sidx := Legs(s.sidx.l0, n), complete := true)]
         [t := u.(fds := Legs(u.fds.l0, fd1), sidx := Legs(u.sidx.l0, n + 1), complete := true)]
  }

  lemma CompleteKeepsInv(store: Store, sl: seq<Slot>, id: Id, fd0: int, fd1: int)
    requires Inv(store, sl, 1, 1) && id in store && store[id].rtcp.Some? && !Open(store[id], true)
    requires fd0 >= 0 && fd1 >= 0
    requires fd0 != store[id].fds.l0 && store[id].rtcp.value in store && fd1 != store[store[id].rtcp.value].fds.l0
    ensures
      var t := store[id].rtcp.value;
      Inv(CompleteStore(store, |sl|, id, t, fd0, fd1), sl + [Slot(Some(id), fd0), Slot(Some(t), fd1)], 1, 1)
  {
    CompleteKeepsPairs(store, sl, id, fd0, fd1);
    var t := store[id].rtcp.value;
    var store' := CompleteStore(store, |sl|, id, t, fd0, fd1);
    var sl' := sl + [Slot(Some(id), fd0), Slot(Some(t), fd1)];
    forall x, leg {:trigger LinkedAt(store', sl', 1, 1, x, leg)} | x in store'
      ensures LinkedAt(store', sl', 1, 1, x, leg)
    {
      assert LinkedAt(store, sl, 1, 1, x, leg);
    }
    forall k {:trigger SlotAt(store', sl', 1, 1, k)} ensures SlotAt(store', sl', 1, 1, k) {
      assert SlotAt(store, sl, 1, 1, k);
    }
  }

  lemma CompleteKeepsPairs(store: Store, sl: seq<Slot>, id: Id, fd0: int, fd1: int)
    requires Inv(store, sl, 1, 1) && id in store && store[id].rtcp.Some? && !Open(store[id], true)
    requires fd0 >= 0 && fd1 >= 0
    requires fd0 != store[id].fds.l0 && store[id].rtcp.value in store && fd1 != store[store[id].rtcp.value].fds.l0
    ensures
      var t := store[id].rtcp.value;
      var store' := CompleteStore(store, |sl|, id, t, fd0, fd1);
      id != t && !Open(store[t], true) && Paired(store') && Lowest(store')
  {
    assert PairedAt(store, id);
    var t := store[id].rtcp.value;
    var store' := CompleteStore(store, |sl|, id, t, fd0, fd1);
    assert LinkedAt(store, sl, 1, 1, id, false);
    forall x | x in store' ensures PairedAt(store', x) && LowestAt(store', x) {
      assert PairedAt(store, x) && LowestAt(store, x);
    }
  }
}
