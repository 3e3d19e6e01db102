/** What a delete request does to the sessions of a call: the loop on values, and which
    sessions that removes, in terms of their tags and keep flags. */
module SessionDelete {
  import opened Options
  import opened SessionTable

  /** Compares a stored tag with a given one: 0 for no match, 1 for equal, 2 for equal up to
      a media number behind a semicolon. */
  function CompareTags(tag1: string, tag0: string): nat {
    if !(tag0 <= tag1) then 0
    else if |tag1| == |tag0| then 1
    else if tag1[|tag0|] == ';' then 2
    else 0
  }

  /** Which side a delete request comes from, and how its tag matches. */
  function DeleteMatch(s: Session, from: string, to: Option<string>): Option<(bool, nat)> {
    if CompareTags(s.tag, from) != 0 then Some((true, CompareTags(s.tag, from)))
    else if to.Some? && CompareTags(s.tag, to.value) != 0 then Some((false, CompareTags(s.tag, to.value)))
    else None
  }

  function ClearFlag(s: Session, leg: bool, weak: bool): Session {
    if !weak then s.(strong := false) else if leg then s.(weak1 := false) else s.(weak0 := false)
  }

  /** A session was not meant, lost a flag but is kept by another, or is gone; an exact tag
      match ends the search. */
  datatype Outcome = Passed | Spared | Removed(exact: bool)

  /** What a delete request does to one session. */
  function DeleteStep(store: Store, id: Id, from: string, to: Option<string>, weak: bool): (Store, Outcome) {
    if id !in store || store[id].rtcp.None? then (store, Passed) else
    var hit := DeleteMatch(store[id], from, to);
    if hit.None? then (store, Passed) else
    var s := ClearFlag(store[id], hit.value.0, weak);
    if s.strong || s.weak0 || s.weak1 then (store[id := s], Spared)
    else (store[id := s] - {id, s.rtcp.value}, Removed(hit.value.1 != 2))
  }

  /** A delete request over the matches from number `k` on: the sessions left and how many
      were hit. */
  ghost function DeleteFrom(ms: seq<Id>, k: nat, store: Store, from: string, to: Option<string>,
                            weak: bool): (Store, nat)
    decreases |ms| - k
  {
    if k >= |ms| then (store, 0) else
    var (after, outcome) := DeleteStep(store, ms[k], from, to, weak);
    if outcome == Removed(true) then (after, 1) else
    var rest := DeleteFrom(ms, k + 1, after, from, to, weak);
    (rest.0, rest.1 + if outcome.Passed? then 0 else 1)
  }

  // ----- a deletion as a sequence of turns

  ghost predicate TraceAt(ms: seq<Id>, stores: seq<Store>, outcomes: seq<Outcome>, from: string, to: Option<string>,
                          weak: bool, j: int)
    requires |stores| == |outcomes| + 1 && |outcomes| <= |ms|
  {
    0 <= j < |outcomes| ==>
      && (stores[j + 1], outcomes[j]) == DeleteStep(stores[j], ms[j], from, to, weak)
      && (j + 1 < |outcomes| ==> outcomes[j] != Removed(true))
  }

  /** Each store comes from the one before by what the request does to the next match. */
  ghost predicate DeleteTrace(ms: seq<Id>, stores: seq<Store>, outcomes: seq<Outcome>, from: string,
                              to: Option<string>, weak: bool)
  {
    && |stores| == |outcomes| + 1 && |outcomes| <= |ms|
    && forall j :: TraceAt(ms, stores, outcomes, from, to, weak, j)
  }

  predicate Ended(ms: seq<Id>, outcomes: seq<Outcome>) {
    |outcomes| == |ms| || (|outcomes| > 0 && outcomes[|outcomes| - 1] == Removed(true))
  }

  function Hits(outcomes: seq<Outcome>, j: nat): nat
    decreases |outcomes| - j
  {
    if j >= |outcomes| then 0 else (if outcomes[j].Passed? then 0 else 1) + Hits(outcomes, j + 1)
  }

  lemma {:induction false} HitsNext(outcomes: seq<Outcome>, outcome: Outcome, j: nat)
    requires j <= |outcomes|
    ensures Hits(outcomes + [outcome], j) == Hits(outcomes, j) + if outcome.Passed? then 0 else 1
    decreases |outcomes| - j
  {
    if j < |outcomes| { HitsNext(outcomes, outcome, j + 1); }
  }

  lemma TraceNext(ms: seq<Id>, stores: seq<Store>, outcomes: seq<Outcome>, store: Store, outcome: Outcome,
                  from: string, to: Option<string>, weak: bool)
    requires DeleteTrace(ms, stores, outcomes, from, to, weak) && |outcomes| < |ms|
    requires (store, outcome) == DeleteStep(stores[|outcomes|], ms[|outcomes|], from, to, weak)
    requires |outcomes| > 0 ==> outcomes[|outcomes| - 1] != Removed(true)
    ensures DeleteTrace(ms, stores + [store], outcomes + [outcome], from, to, weak)
    ensures Hits(outcomes + [outcome], 0) == Hits(outcomes, 0) + if outcome.Passed? then 0 else 1
  {
    HitsNext(outcomes, outcome, 0);
    var stores', outcomes' := stores + [store], outcomes + [outcome];
    forall j {:trigger TraceAt(ms, stores', outcomes', from, to, weak, j)}
      ensures TraceAt(ms, stores', outcomes', from, to, weak, j)
    {
      assert TraceAt(ms, stores, outcomes, from, to, weak, j);
    }
  }

  lemma {:induction false} TraceIsDelete(ms: seq<Id>, stores: seq<Store>, outcomes: seq<Outcome>, from: string,
                                         to: Option<string>, weak: bool, j: nat)
    requires DeleteTrace(ms, stores, outcomes, from, to, weak) && Ended(ms, outcomes) && j <= |outcomes|
    requires j > 0 ==> outcomes[j - 1] != Removed(true)
    ensures DeleteFrom(ms, j, stores[j], from, to, weak) == (stores[|outcomes|], Hits(outcomes, j))
    decreases |outcomes| - j
  {
    if j < |outcomes| {
      assert TraceAt(ms, stores, outcomes, from, to, weak, j);
      if outcomes[j] != Removed(true) { TraceIsDelete(ms, stores, outcomes, from, to, weak, j + 1); }
    }
  }

  // ----- which sessions are meant, on strings and flags

  /** The tag of a stream is the tag of the party, alone or with a media number. */
  ghost predicate Names(tag: string, party: string) {
    tag == party || exists number: string :: tag == party + ";" + number
  }

  /** The request comes from the party that opened the session, or from the other one. */
  ghost predicate FromOpener(s: Session, from: string) {
    Names(s.tag, from)
  }

  ghost predicate FromOther(s: Session, from: string, to: Option<string>) {
    !Names(s.tag, from) && to.Some? && Names(s.tag, to.value)
  }

  /** The tag is given without a media number: it can only mean one stream. */
  ghost predicate MeansOne(s: Session, from: string, to: Option<string>) {
    s.tag == from || (FromOther(s, from, to) && s.tag == to.value)
  }

  /** The request means this session. */
  ghost predicate Meant(store: Store, id: Id, from: string, to: Option<string>) {
    id in store && store[id].rtcp.Some? && (FromOpener(store[id], from) || FromOther(store[id], from, to))
  }

  /** A keep flag that the request does not clear is set. */
  ghost predicate StillKept(s: Session, from: string, weak: bool) {
    if !weak then s.weak0 || s.weak1
    else if FromOpener(s, from) then s.strong || s.weak0
    else s.strong || s.weak1
  }

  /** The session has lost the flag the request clears, and nothing else. */
  ghost predicate LostFlag(s: Session, s': Session, from: string, weak: bool) {
    && s' == s.(strong := s'.strong, weak0 := s'.weak0, weak1 := s'.weak1)
    && s'.strong == (s.strong && weak)
    && s'.weak1 == (s.weak1 && !(weak && FromOpener(s, from)))
    && s'.weak0 == (s.weak0 && !(weak && !FromOpener(s, from)))
  }

  lemma TagsCompared(tag: string, party: string)
    ensures CompareTags(tag, party) != 0 <==> Names(tag, party)
    ensures CompareTags(tag, party) == 1 <==> tag == party
    ensures CompareTags(tag, party) <= 2
  {
    if CompareTags(tag, party) == 2 {
      assert tag == party + ";" + tag[|party| + 1..];
    }
    if tag != party && Names(tag, party) {
      var number :| tag == party + ";" + number;
      assert tag[..|party|] == party && tag[|party|] == ';';
    }
  }

  /** One session: not meant, it stays as it is; meant but still kept, it loses one flag;
      otherwise it goes with its twin, and the search ends if only it could be meant. */
  lemma StepDeletes(store: Store, id: Id, from: string, to: Option<string>, weak: bool)
    requires id in store && store[id].rtcp.Some?
    ensures
      var (after, outcome) := DeleteStep(store, id, from, to, weak);
      var s := store[id];
      if !Meant(store, id, from, to) then (after, outcome) == (store, Passed)
      else if StillKept(s, from, weak) then
        outcome == Spared && id in after && LostFlag(s, after[id], from, weak) && after == store[id := after[id]]
      else after == store - {id, s.rtcp.value} && outcome == Removed(MeansOne(s, from, to))
  {
    TagsCompared(store[id].tag, from);
    if to.Some? { TagsCompared(store[id].tag, to.value); }
  }

  /** Nothing is added, and nobody changes place. */
  lemma {:induction false} DeleteShape(ms: seq<Id>, k: nat, store: Store, from: string, to: Option<string>, weak: bool)
    ensures var after := DeleteFrom(ms, k, store, from, to, weak).0;
      after.Keys <= store.Keys &&
      forall x :: x in after ==> after[x].sidx == store[x].sidx && after[x].fds == store[x].fds
    decreases |ms| - k
  {
    if k < |ms| {
      var (after, outcome) := DeleteStep(store, ms[k], from, to, weak);
      if outcome != Removed(true) { DeleteShape(ms, k + 1, after, from, to, weak); }
    }
  }

  /** The session is one of those from number `k` on, or the twin of one. */
  predicate OneOf(ms: seq<Id>, k: nat, store: Store, x: Id) {
    exists j :: k <= j < |ms| && (ms[j] == x || (ms[j] in store && store[ms[j]].rtcp == Some(x)))
  }

  /** Sessions of other calls stay as they are. */
  lemma {:induction false} DeleteSparesOthers(ms: seq<Id>, k: nat, store: Store, from: string, to: Option<string>,
                                              weak: bool, x: Id)
    requires x in store && !OneOf(ms, k, store, x)
    ensures var (after, n) := DeleteFrom(ms, k, store, from, to, weak); x in after && after[x] == store[x]
    decreases |ms| - k
  {
    if k < |ms| {
      var (after, outcome) := DeleteStep(store, ms[k], from, to, weak);
      assert !OneOf(ms, k + 1, after, x);
      if outcome != Removed(true) { DeleteSparesOthers(ms, k + 1, after, from, to, weak, x); }
    }
  }

  /** The sessions of a call from number `k` on: all different RTP sessions, none the twin of
      another. */
  ghost predicate Apart(ms: seq<Id>, k: nat, store: Store) {
    && (forall j :: k <= j < |ms| ==> ms[j] in store && store[ms[j]].rtcp.Some? && store[ms[j]].rtcp.value in store)
    && (forall i, j :: k <= i < j < |ms| ==> ms[i] != ms[j] && store[ms[i]].rtcp != store[ms[j]].rtcp)
    && (forall i, j :: k <= i < |ms| && k <= j < |ms| ==> store[ms[i]].rtcp != Some(ms[j]))
  }

  /** The request removes session `i` and ends there. */
  ghost predicate Final(ms: seq<Id>, i: nat, store: Store, from: string, to: Option<string>, weak: bool)
    requires i < |ms|
  {
    && Meant(store, ms[i], from, to) && !StillKept(store[ms[i]], from, weak) && MeansOne(store[ms[i]], from, to)
  }

  /** No session from number `k` on and before `j` ends the search. */
  ghost predicate Reached(ms: seq<Id>, k: nat, j: nat, store: Store, from: string, to: Option<string>, weak: bool)
    requires j <= |ms|
  {
    forall i :: k <= i < j ==> !Final(ms, i, store, from, to, weak)
  }

  ghost predicate Unchanged(store: Store, after: Store, id: Id) {
    id in store && id in after && after[id] == store[id]
  }

  /** What becomes of session number `j` and its twin. */
  ghost predicate Treated(ms: seq<Id>, k: nat, j: nat, store: Store, after: Store, from: string, to: Option<string>,
                          weak: bool)
    requires k <= j < |ms| && ms[j] in store && store[ms[j]].rtcp.Some?
  {
    var s := store[ms[j]];
    var twin := s.rtcp.value;
    if !Reached(ms, k, j, store, from, to, weak) || !Meant(store, ms[j], from, to) then
      Unchanged(store, after, ms[j]) && Unchanged(store, after, twin)
    else if StillKept(s, from, weak) then
      ms[j] in after && LostFlag(s, after[ms[j]], from, weak) && Unchanged(store, after, twin)
    else ms[j] !in after && twin !in after
  }

  /** What a request does, session by session: up to the first one that it removes and that
      only it could mean, it removes every session it means that no other flag keeps, takes
      its flag from the others it means, and touches nothing else. */
  lemma {:induction false} DeleteTreats(ms: seq<Id>, k: nat, store: Store, from: string, to: Option<string>,
                                        weak: bool)
    requires Apart(ms, k, store)
    ensures var after := DeleteFrom(ms, k, store, from, to, weak).0;
      forall j :: k <= j < |ms| ==> Treated(ms, k, j, store, after, from, to, weak)
    decreases |ms| - k
  {
    if k < |ms| {
      var (next, outcome) := DeleteStep(store, ms[k], from, to, weak);
      StepDeletes(store, ms[k], from, to, weak);
      if outcome == Removed(true) {
        assert Final(ms, k, store, from, to, weak);
      } else {
        DeleteTreats(ms, k + 1, next, from, to, weak);
        FirstStays(ms, k, store, next, from, to, weak);
        assert Treated(ms, k, k, store, DeleteFrom(ms, k, store, from, to, weak).0, from, to, weak);
        forall j | k < j < |ms|
          ensures Treated(ms, k, j, store, DeleteFrom(ms, k, store, from, to, weak).0, from, to, weak)
        {
          RestTreated(ms, k, j, store, next, DeleteFrom(ms, k, store, from, to, weak).0, from, to, weak);
        }
      }
    }
  }

  ghost predicate Stays(store: Store, after: Store, id: Id) {
    if id in store then Unchanged(store, after, id) else id !in after
  }

  /** The turns behind do not touch what a turn left of its session and the twin. */
  lemma FirstStays(ms: seq<Id>, k: nat, store: Store, next: Store, from: string, to: Option<string>, weak: bool)
    requires k < |ms| && Apart(ms, k, store) && AfterTurn(ms, k, store, next)
    ensures var after := DeleteFrom(ms, k + 1, next, from, to, weak).0;
      Stays(next, after, ms[k]) && Stays(next, after, store[ms[k]].rtcp.value)
  {
    DeleteShape(ms, k + 1, next, from, to, weak);
    forall x | (x == ms[k] || x == store[ms[k]].rtcp.value) && x in next
      ensures Unchanged(next, DeleteFrom(ms, k + 1, next, from, to, weak).0, x)
    {
      DeleteSparesOthers(ms, k + 1, next, from, to, weak, x);
    }
  }

  /** A turn changes nothing but its session and the twin. */
  ghost predicate AfterTurn(ms: seq<Id>, k: nat, store: Store, next: Store)
    requires k < |ms| && ms[k] in store && store[ms[k]].rtcp.Some?
  {
    && next.Keys <= store.Keys
    && forall x :: x in store && x != ms[k] && x != store[ms[k]].rtcp.value ==> Unchanged(store, next, x)
  }

  lemma RestTreated(ms: seq<Id>, k: nat, j: nat, store: Store, next: Store, after: Store, from: string,
                    to: Option<string>, weak: bool)
    requires k < j < |ms| && Apart(ms, k, store) && AfterTurn(ms, k, store, next)
    requires !Final(ms, k, store, from, to, weak)
    requires forall i :: k < i < |ms| ==> Unchanged(store, next, ms[i])
    requires Treated(ms, k + 1, j, next, after, from, to, weak)
    ensures Treated(ms, k, j, store, after, from, to, weak)
  {
    forall i | k < i < |ms| ensures Final(ms, i, next, from, to, weak) == Final(ms, i, store, from, to, weak) {
    }
  }

  /** A delete request reports failure exactly if it means none of the sessions of the call,
      and then it changes nothing. */
  lemma {:induction false} DeleteFails(ms: seq<Id>, k: nat, store: Store, from: string, to: Option<string>, weak: bool)
    ensures var (after, n) := DeleteFrom(ms, k, store, from, to, weak);
      && (n == 0 <==> forall j :: k <= j < |ms| ==> !Meant(store, ms[j], from, to))
      && (n == 0 ==> after == store)
    decreases |ms| - k
  {
    if k < |ms| && ms[k] in store && store[ms[k]].rtcp.Some? { StepDeletes(store, ms[k], from, to, weak); }
    if k < |ms| && !Meant(store, ms[k], from, to) {
      DeleteFails(ms, k + 1, store, from, to, weak);
    }
  }

  /** What a request for the sessions `ms` of a call does to all sessions. */
  ghost predicate Deleted(ms: seq<Id>, store: Store, after: Store, from: string, to: Option<string>, weak: bool) {
    && Apart(ms, 0, store) && after.Keys <= store.Keys
    && (forall j :: 0 <= j < |ms| ==> Treated(ms, 0, j, store, after, from, to, weak))
    && (forall x :: x in store && !OneOf(ms, 0, store, x) ==> Unchanged(store, after, x))
  }

  lemma DeleteDone(ms: seq<Id>, store: Store, from: string, to: Option<string>, weak: bool)
    requires Apart(ms, 0, store)
    ensures Deleted(ms, store, DeleteFrom(ms, 0, store, from, to, weak).0, from, to, weak)
  {
    DeleteTreats(ms, 0, store, from, to, weak);
    DeleteShape(ms, 0, store, from, to, weak);
    forall x | x in store && !OneOf(ms, 0, store, x)
      ensures Unchanged(store, DeleteFrom(ms, 0, store, from, to, weak).0, x)
    {
      DeleteSparesOthers(ms, 0, store, from, to, weak, x);
    }
  }

  /** That leaves no choice. */
  lemma DeletedUnique(ms: seq<Id>, store: Store, a: Store, b: Store, from: string, to: Option<string>, weak: bool)
    requires Deleted(ms, store, a, from, to, weak) && Deleted(ms, store, b, from, to, weak)
    ensures a == b
  {
    hide Treated, Deleted, Apart;
    forall x | x in store ensures (x in a <==> x in b) && (x in a ==> a[x] == b[x]) {
      SameFate(ms, store, a, b, from, to, weak, x);
    }
    KeysShrink(ms, store, a, from, to, weak);
    KeysShrink(ms, store, b, from, to, weak);
  }

  lemma KeysShrink(ms: seq<Id>, store: Store, a: Store, from: string, to: Option<string>, weak: bool)
    requires Deleted(ms, store, a, from, to, weak)
    ensures a.Keys <= store.Keys
  {
  }

  lemma SameFate(ms: seq<Id>, store: Store, a: Store, b: Store, from: string, to: Option<string>, weak: bool, x: Id)
    requires Deleted(ms, store, a, from, to, weak) && Deleted(ms, store, b, from, to, weak) && x in store
    ensures (x in a <==> x in b) && (x in a ==> a[x] == b[x])
  {
    if OneOf(ms, 0, store, x) {
      var j :| 0 <= j < |ms| && (ms[j] == x || (ms[j] in store && store[ms[j]].rtcp == Some(x)));
      assert Treated(ms, 0, j, store, a, from, to, weak) && Treated(ms, 0, j, store, b, from, to, weak);
    }
  }
}
