/** The asynchronous syslog queue: a fixed pool of items that producers and one worker pass
    around under two locks. Each critical section, and each use of an item outside the
    locks, is one step; a run is any interleaving of steps. */
module SyslogQueue {
  import opened Options
  import opened Chains

  const POOL_SIZE: nat := 64

  /** `sizeof(wi->data)`. */
  const DATA_SIZE: nat := 2048

  datatype Msg = Text(priority: int, data: string) | ExitMsg

  /** `struct syslog_wi`. */
  datatype Item = Item(msg: Msg, next: Option<nat>)

  type Producer = nat

  /** The worker waits, has taken an item, has written it, or has ended with the exit item. */
  datatype Worker = Idle | Took(item: nat) | Wrote(item: nat) | Ended(item: nat)

  /** The shared variables, what each thread holds, and the history of puts and writes. The
      tail pointer is left alone when the queue runs empty, so it may be stale. */
  datatype State = State(
    items: seq<Item>, free: Option<nat>, queue: Option<nat>, tail: Option<nat>, dropped: nat,
    hands: map<Producer, nat>, worker: Worker, accepted: seq<Msg>, written: seq<Msg>)

  datatype Step =
    | GetFree(p: Producer, wait: bool)
    | Fill(p: Producer, msg: Msg)
    | Put(p: Producer)
    | Take
    | Work
    | Release

  function InitNext(i: nat): Option<nat> {
    if i + 1 < POOL_SIZE then Some(i + 1) else None
  }

  /** `syslog_queue_init`: all items are zeroed and chained into the free list. */
  function Init(): State {
    State(seq(POOL_SIZE, (i: nat) => Item(Text(0, ""), InitNext(i))),
          Some(0), None, None, 0, map[], Idle, [], [])
  }

  /** The thread is at this step and is not blocked in it. */
  predicate Guard(s: State, a: Step) {
    match a
    case GetFree(p, wait) => p !in s.hands && (wait ==> s.free.Some?)
    case Fill(p, _) => p in s.hands
    case Put(p) => p in s.hands
    case Take => s.worker.Idle? && s.queue.Some?
    case Work => s.worker.Took?
    case Release => s.worker.Wrote?
  }

  /** Every pointer the step follows leads to a pool item, and appending follows the tail
      only if nothing was linked behind it and no thread holds it. */
  predicate Safe(s: State, a: Step)
    requires Guard(s, a)
  {
    match a
    case GetFree(p, _) => s.free.Some? ==> s.free.value < |s.items|
    case Fill(p, _) => s.hands[p] < |s.items|
    case Put(p) =>
      && s.hands[p] < |s.items|
      && (s.queue.Some? ==>
            && s.tail.Some? && s.tail.value < |s.items| && s.items[s.tail.value].next.None?
            && !Holds(s.worker, s.tail.value) && (forall q | q in s.hands :: s.hands[q] != s.tail.value))
    case Take => s.queue.value < |s.items|
    case Work => s.worker.item < |s.items|
    case Release => s.worker.item < |s.items|
  }

  predicate Holds(w: Worker, i: nat) {
    !w.Idle? && w.item == i
  }

  function SetNext(items: seq<Item>, i: nat, next: Option<nat>): (r: seq<Item>)
    requires i < |items|
    ensures |r| == |items|
  {
    items[i := items[i].(next := next)]
  }

  function GetFreeStep(s: State, p: Producer): State
    requires s.free.Some? ==> s.free.value < |s.items|
  {
    if s.free.None? then s.(dropped := s.dropped + 1)
    else s.(hands := s.hands[p := s.free.value], free := s.items[s.free.value].next)
  }

  function PutStep(s: State, p: Producer): State
    requires p in s.hands && s.hands[p] < |s.items|
    requires s.queue.Some? ==> s.tail.Some? && s.tail.value < |s.items|
  {
    var i := s.hands[p];
    var items := SetNext(s.items, i, None);
    s.(items := if s.queue.None? then items else SetNext(items, s.tail.value, Some(i)),
       queue := if s.queue.None? then Some(i) else s.queue,
       tail := Some(i), hands := s.hands - {p},
       accepted := s.accepted + [s.items[i].msg])
  }

  function Apply(s: State, a: Step): State
    requires Guard(s, a) && Safe(s, a)
  {
    match a
    case GetFree(p, _) => GetFreeStep(s, p)
    case Fill(p, msg) => s.(items := s.items[s.hands[p] := s.items[s.hands[p]].(msg := msg)])
    case Put(p) => PutStep(s, p)
    case Take => s.(worker := Took(s.queue.value), queue := s.items[s.queue.value].next)
    case Work =>
      var i := s.worker.item;
      if s.items[i].msg.ExitMsg? then s.(worker := Ended(i))
      else s.(worker := Wrote(i), written := s.written + [s.items[i].msg])
    case Release =>
      var i := s.worker.item;
      s.(items := SetNext(s.items, i, s.free), free := Some(i), worker := Idle)
  }

  /** One move of one thread; a step that follows a bad pointer could lead anywhere. */
  ghost predicate Next(s: State, a: Step, t: State) {
    Guard(s, a) && (Safe(s, a) ==> t == Apply(s, a))
  }

  /** Any interleaving of the threads' steps, from initialisation on. */
  ghost predicate Run(states: seq<State>, steps: seq<Step>) {
    && |states| == |steps| + 1 && states[0] == Init()
    && forall i :: 0 <= i < |steps| ==> Next(states[i], steps[i], states[i + 1])
  }

  // ----- the invariant

  /** The one place where an item is. */
  datatype Place = InFree | InQueue | InHand(p: Producer) | InWorker

  /** What the pointers stand for: the free list, the work queue, and every item's place. */
  datatype View = View(fl: seq<nat>, ql: seq<nat>, place: seq<Place>)

  function NextIn(l: seq<nat>, i: nat): Option<nat> {
    if i < |l| then Some(l[i]) else None
  }

  ghost predicate ChainAt(items: seq<Item>, l: seq<nat>, i: nat) {
    i < |l| ==> l[i] < |items| && items[l[i]].next == NextIn(l, i + 1)
  }

  /** Following the pointers from `head` gives this list. */
  ghost predicate Chain(items: seq<Item>, head: Option<nat>, l: seq<nat>) {
    head == NextIn(l, 0) && forall i: nat :: ChainAt(items, l, i)
  }

  /** Item `i` is in exactly the place the view says. */
  ghost predicate PlaceAt(s: State, v: View, i: nat) {
    i < POOL_SIZE && |v.place| == POOL_SIZE ==>
      && (i in v.fl <==> v.place[i] == InFree)
      && (i in v.ql <==> v.place[i] == InQueue)
      && (Holds(s.worker, i) <==> v.place[i] == InWorker)
      && (v.place[i].InHand? ==> v.place[i].p in s.hands && s.hands[v.place[i].p] == i)
  }

  ghost predicate HandAt(s: State, v: View, p: Producer) {
    p in s.hands && |v.place| == POOL_SIZE ==> s.hands[p] < POOL_SIZE && v.place[s.hands[p]] == InHand(p)
  }

  function Queued(items: seq<Item>, l: seq<nat>, i: nat): seq<Msg>
    decreases |l| - i
  {
    if i >= |l| || l[i] >= |items| then [] else [items[l[i]].msg] + Queued(items, l, i + 1)
  }

  /** The message the worker has taken out of the queue but not written. */
  function Pending(s: State): seq<Msg> {
    if (s.worker.Took? || s.worker.Ended?) && s.worker.item < |s.items| then [s.items[s.worker.item].msg] else []
  }

  ghost predicate Lists(s: State, v: View) {
    && Chain(s.items, s.free, v.fl) && Distinct(v.fl)
    && Chain(s.items, s.queue, v.ql) && Distinct(v.ql)
    && (v.ql != [] ==> s.tail == Some(v.ql[|v.ql| - 1]))
  }

  ghost predicate Places(s: State, v: View) {
    (forall i: nat :: PlaceAt(s, v, i)) && (forall p: nat :: HandAt(s, v, p))
  }

  ghost predicate Histories(s: State, v: View) {
    && s.accepted == s.written + Pending(s) + Queued(s.items, v.ql, 0)
    && (forall m :: m in s.written ==> m.Text?)
  }

  /** Each item is somewhere. */
  ghost predicate Counted(s: State, v: View) {
    |v.fl| + |v.ql| + |s.hands| + (if s.worker.Idle? then 0 else 1) == POOL_SIZE
  }

  ghost predicate Inv(s: State, v: View) {
    && |s.items| == |v.place| == POOL_SIZE
    && (!s.worker.Idle? ==> s.worker.item < POOL_SIZE)
    && (s.worker.Ended? ==> s.items[s.worker.item].msg.ExitMsg?)
    && Lists(s, v) && Places(s, v) && Histories(s, v) && Counted(s, v)
  }

  // ----- each step keeps it

  lemma OneMoreHand(hands: map<Producer, nat>, p: Producer, i: nat)
    requires p !in hands
    ensures |hands[p := i]| == |hands| + 1
  {
    assert hands[p := i].Keys == hands.Keys + {p};
    assert |hands[p := i].Keys| == |hands.Keys| + 1;
  }

  lemma OneHandLess(hands: map<Producer, nat>, p: Producer)
    requires p in hands
    ensures |hands - {p}| == |hands| - 1
  {
    assert hands == (hands - {p})[p := hands[p]];
    OneMoreHand(hands - {p}, p, hands[p]);
  }

  lemma InitHolds() returns (v: View)
    ensures Inv(Init(), v)
  {
    var s := Init();
    v := View(seq(POOL_SIZE, (i: nat) => i), [], seq(POOL_SIZE, _ => InFree));
    forall i: nat {:trigger ChainAt(s.items, v.fl, i)} ensures ChainAt(s.items, v.fl, i) {}
    forall i: nat {:trigger PlaceAt(s, v, i)} ensures PlaceAt(s, v, i) {
      if i < POOL_SIZE { assert v.fl[i] == i; }
    }
  }

  lemma {:induction false} QueuedFrame(items: seq<Item>, other: seq<Item>, l: seq<nat>, i: nat)
    requires |items| == |other|
    requires forall k :: k in l && k < |items| ==> items[k].msg == other[k].msg
    ensures Queued(items, l, i) == Queued(other, l, i)
    decreases |l| - i
  {
    if i < |l| { QueuedFrame(items, other, l, i + 1); }
  }

  lemma {:induction false} QueuedTail(items: seq<Item>, l: seq<nat>, i: nat)
    ensures i > 0 ==> Queued(items, l, i) == if |l| > 0 then Queued(items, l[1..], i - 1) else []
    decreases |l| - i
  {
    if 0 < i < |l| { QueuedTail(items, l, i + 1); }
  }

  lemma {:induction false} QueuedAppend(items: seq<Item>, l: seq<nat>, x: nat, i: nat)
    requires x < |items| && i <= |l| && forall k :: k in l ==> k < |items|
    ensures Queued(items, l + [x], i) == Queued(items, l, i) + [items[x].msg]
    decreases |l| - i
  {
    assert i < |l| ==> l[i] in l;
    if i < |l| { QueuedAppend(items, l, x, i + 1); } else { assert Queued(items, l + [x], i + 1) == []; }
  }

  /** A chain survives a change of items that leaves its own links alone. */
  lemma ChainFrame(items: seq<Item>, other: seq<Item>, head: Option<nat>, l: seq<nat>)
    requires |items| == |other| && Chain(items, head, l)
    requires forall k :: k in l && k < |items| ==> items[k].next == other[k].next
    ensures Chain(other, head, l)
  {
    forall i: nat {:trigger ChainAt(other, l, i)} ensures ChainAt(other, l, i) {
      assert ChainAt(items, l, i);
      if i < |l| { assert l[i] in l; }
    }
  }

  lemma ChainTail(items: seq<Item>, head: Option<nat>, l: seq<nat>)
    requires Chain(items, head, l) && l != [] && Distinct(l)
    ensures l[0] < |items| && Chain(items, items[l[0]].next, l[1..]) && Distinct(l[1..]) && l[0] !in l[1..]
  {
    assert ChainAt(items, l, 0);
    forall i: nat {:trigger ChainAt(items, l[1..], i)} ensures ChainAt(items, l[1..], i) {
      assert ChainAt(items, l, i + 1);
    }
  }

  lemma ChainPush(items: seq<Item>, head: Option<nat>, l: seq<nat>, x: nat)
    requires Chain(items, head, l) && Distinct(l) && x < |items| && x !in l
    ensures Chain(SetNext(items, x, head), Some(x), [x] + l) && Distinct([x] + l)
  {
    var other := SetNext(items, x, head);
    forall i: nat {:trigger ChainAt(other, [x] + l, i)} ensures ChainAt(other, [x] + l, i) {
      if 0 < i <= |l| { assert ChainAt(items, l, i - 1) && l[i - 1] in l; }
    }
  }

  lemma ChainAppend(items: seq<Item>, head: Option<nat>, l: seq<nat>, x: nat)
    requires Chain(items, head, l) && Distinct(l) && l != [] && x < |items| && x !in l
    requires items[x].next == None
    ensures l[|l| - 1] < |items| && Chain(SetNext(items, l[|l| - 1], Some(x)), head, l + [x]) && Distinct(l + [x])
  {
    assert ChainAt(items, l, |l| - 1);
    var other := SetNext(items, l[|l| - 1], Some(x));
    assert l[|l| - 1] in l;
    forall i: nat {:trigger ChainAt(other, l + [x], i)} ensures ChainAt(other, l + [x], i) {
      assert ChainAt(items, l, i);
    }
  }

  lemma MembersInPool(items: seq<Item>, head: Option<nat>, l: seq<nat>)
    requires Chain(items, head, l)
    ensures forall k :: k in l ==> k < |items|
  {
    forall i | 0 <= i < |l| ensures l[i] < |items| { assert ChainAt(items, l, i); }
  }

  /** In any invariant state a thread's next step follows good pointers only. */
  lemma GuardedIsSafe(s: State, v: View, a: Step)
    requires Inv(s, v) && Guard(s, a)
    ensures Safe(s, a)
  {
    MembersInPool(s.items, s.free, v.fl);
    MembersInPool(s.items, s.queue, v.ql);
    match a
    case GetFree(p, _) => if s.free.Some? { assert v.fl[0] in v.fl; }
    case Fill(p, _) => assert HandAt(s, v, p);
    case Put(p) =>
      assert HandAt(s, v, p);
      if s.queue.Some? { TailIsLast(s, v); }
    case Take => assert v.ql[0] in v.ql;
    case Work =>
    case Release =>
  }

  lemma TailIsLast(s: State, v: View)
    requires Inv(s, v) && s.queue.Some?
    ensures v.ql != [] && s.tail == Some(v.ql[|v.ql| - 1]) && s.tail.value < |s.items|
    ensures s.items[s.tail.value].next.None? && !Holds(s.worker, s.tail.value)
    ensures forall q | q in s.hands :: s.hands[q] != s.tail.value
  {
    var t := v.ql[|v.ql| - 1];
    assert ChainAt(s.items, v.ql, |v.ql| - 1) && t in v.ql;
    assert PlaceAt(s, v, t);
    forall q | q in s.hands ensures s.hands[q] != t { assert HandAt(s, v, q); }
  }

  lemma GetFreeKeeps(s: State, v: View, p: Producer) returns (w: View)
    requires Inv(s, v) && p !in s.hands && (s.free.Some? ==> s.free.value < |s.items|)
    ensures Inv(GetFreeStep(s, p), w)
  {
    w := v;
    if s.free.Some? {
      var i := s.free.value;
      var t := GetFreeStep(s, p);
      ChainTail(s.items, s.free, v.fl);
      w := View(v.fl[1..], v.ql, v.place[i := InHand(p)]);
      assert v.fl == [i] + v.fl[1..];
      assert i in v.fl && PlaceAt(s, v, i);
      forall k: nat {:trigger PlaceAt(t, w, k)} ensures PlaceAt(t, w, k) { assert PlaceAt(s, v, k); }
      forall q: nat {:trigger HandAt(t, w, q)} ensures HandAt(t, w, q) { assert HandAt(s, v, q); }
    } else {
      var t := GetFreeStep(s, p);
      forall k: nat {:trigger PlaceAt(t, w, k)} ensures PlaceAt(t, w, k) { assert PlaceAt(s, v, k); }
      forall q: nat {:trigger HandAt(t, w, q)} ensures HandAt(t, w, q) { assert HandAt(s, v, q); }
    }
  }

  lemma FillKeeps(s: State, v: View, p: Producer, msg: Msg)
    requires Inv(s, v) && p in s.hands && s.hands[p] < |s.items|
    ensures Inv(Apply(s, Fill(p, msg)), v)
  {
    var i := s.hands[p];
    var t := Apply(s, Fill(p, msg));
    assert HandAt(s, v, p) && PlaceAt(s, v, i);
    ChainFrame(s.items, t.items, s.free, v.fl);
    ChainFrame(s.items, t.items, s.queue, v.ql);
    QueuedFrame(s.items, t.items, v.ql, 0);
    forall k: nat {:trigger PlaceAt(t, v, k)} ensures PlaceAt(t, v, k) { assert PlaceAt(s, v, k); }
    forall q: nat {:trigger HandAt(t, v, q)} ensures HandAt(t, v, q) { assert HandAt(s, v, q); }
  }

  lemma PutLists(s: State, v: View, p: Producer)
    requires Inv(s, v) && p in s.hands && s.hands[p] < |s.items|
    requires s.queue.Some? ==> s.tail.Some? && s.tail.value < |s.items|
    ensures s.hands[p] !in v.ql && s.hands[p] !in v.fl && v.place[s.hands[p]] == InHand(p)
    ensures Lists(PutStep(s, p), View(v.fl, v.ql + [s.hands[p]], v.place))
    ensures Queued(PutStep(s, p).items, v.ql + [s.hands[p]], 0) == Queued(s.items, v.ql, 0) + [s.items[s.hands[p]].msg]
  {
    var i := s.hands[p];
    var t := PutStep(s, p);
    assert HandAt(s, v, p) && PlaceAt(s, v, i);
    var items := SetNext(s.items, i, None);
    ChainFrame(s.items, items, s.free, v.fl);
    ChainFrame(s.items, items, s.queue, v.ql);
    MembersInPool(s.items, s.queue, v.ql);
    QueuedFrame(s.items, t.items, v.ql, 0);
    QueuedAppend(t.items, v.ql, i, 0);
    if s.queue.Some? {
      ChainAppend(items, s.queue, v.ql, i);
      var last := v.ql[|v.ql| - 1];
      assert last in v.ql && PlaceAt(s, v, last);
      ChainFrame(items, t.items, s.free, v.fl);
    } else {
      assert v.ql + [i] == [i];
      forall k: nat {:trigger ChainAt(t.items, [i], k)} ensures ChainAt(t.items, [i], k) {}
    }
  }

  lemma PutKeeps(s: State, v: View, p: Producer) returns (w: View)
    requires Inv(s, v) && p in s.hands && s.hands[p] < |s.items|
    requires s.queue.Some? ==> s.tail.Some? && s.tail.value < |s.items|
    ensures Inv(PutStep(s, p), w)
  {
    var i := s.hands[p];
    var t := PutStep(s, p);
    PutLists(s, v, p);
    w := View(v.fl, v.ql + [i], v.place[i := InQueue]);
    assert PlaceAt(s, v, i);
    forall k: nat {:trigger PlaceAt(t, w, k)} ensures PlaceAt(t, w, k) { assert PlaceAt(s, v, k); }
    forall q: nat {:trigger HandAt(t, w, q)} ensures HandAt(t, w, q) { assert HandAt(s, v, q); }
  }

  lemma TakeKeeps(s: State, v: View) returns (w: View)
    requires Inv(s, v) && Guard(s, Take) && Safe(s, Take)
    ensures Inv(Apply(s, Take), w)
  {
    var i := s.queue.value;
    var t := Apply(s, Take);
    ChainTail(s.items, s.queue, v.ql);
    w := View(v.fl, v.ql[1..], v.place[i := InWorker]);
    assert v.ql == [i] + v.ql[1..];
    QueuedTail(s.items, v.ql, 1);
    assert i in v.ql && PlaceAt(s, v, i);
    forall k: nat {:trigger PlaceAt(t, w, k)} ensures PlaceAt(t, w, k) { assert PlaceAt(s, v, k); }
    forall q: nat {:trigger HandAt(t, w, q)} ensures HandAt(t, w, q) { assert HandAt(s, v, q); }
  }

  lemma WorkKeeps(s: State, v: View)
    requires Inv(s, v) && Guard(s, Work) && Safe(s, Work)
    ensures Inv(Apply(s, Work), v)
  {
    var t := Apply(s, Work);
    forall k: nat {:trigger PlaceAt(t, v, k)} ensures PlaceAt(t, v, k) { assert PlaceAt(s, v, k); }
    forall q: nat {:trigger HandAt(t, v, q)} ensures HandAt(t, v, q) { assert HandAt(s, v, q); }
  }

  lemma ReleaseKeeps(s: State, v: View) returns (w: View)
    requires Inv(s, v) && Guard(s, Release) && Safe(s, Release)
    ensures Inv(Apply(s, Release), w)
  {
    var i := s.worker.item;
    var t := Apply(s, Release);
    assert PlaceAt(s, v, i);
    ChainPush(s.items, s.free, v.fl, i);
    ChainFrame(s.items, t.items, s.queue, v.ql);
    QueuedFrame(s.items, t.items, v.ql, 0);
    w := View([i] + v.fl, v.ql, v.place[i := InFree]);
    forall k: nat {:trigger PlaceAt(t, w, k)} ensures PlaceAt(t, w, k) { assert PlaceAt(s, v, k); }
    forall q: nat {:trigger HandAt(t, w, q)} ensures HandAt(t, w, q) { assert HandAt(s, v, q); }
  }

  lemma StepKeeps(s: State, v: View, a: Step) returns (w: View)
    requires Inv(s, v) && Guard(s, a)
    ensures Safe(s, a) && Inv(Apply(s, a), w)
  {
    GuardedIsSafe(s, v, a);
    w := v;
    match a
    case GetFree(p, _) => w := GetFreeKeeps(s, v, p);
    case Fill(p, msg) => FillKeeps(s, v, p, msg);
    case Put(p) => w := PutKeeps(s, v, p);
    case Take => w := TakeKeeps(s, v);
    case Work => WorkKeeps(s, v);
    case Release => w := ReleaseKeeps(s, v);
  }

  // ----- over every run

  /** In every run, every state has its lists and places in order. */
  lemma {:induction false} RunKeeps(states: seq<State>, steps: seq<Step>, i: nat) returns (v: View)
    requires Run(states, steps) && i < |states|
    ensures Inv(states[i], v)
  {
    if i == 0 {
      v := InitHolds();
    } else {
      v := RunKeeps(states, steps, i - 1);
      assert Next(states[i - 1], steps[i - 1], states[i]);
      v := StepKeeps(states[i - 1], v, steps[i - 1]);
    }
  }

  /** No step of any run follows a bad or stale pointer. */
  lemma RunIsSafe(states: seq<State>, steps: seq<Step>, i: nat)
    requires Run(states, steps) && i < |steps|
    ensures Guard(states[i], steps[i]) && Safe(states[i], steps[i])
  {
    var v := RunKeeps(states, steps, i);
    assert Next(states[i], steps[i], states[i + 1]);
    GuardedIsSafe(states[i], v, steps[i]);
  }

  /** What has been written is, in order, a prefix of what has been put. */
  lemma WrittenInOrder(states: seq<State>, steps: seq<Step>, i: nat)
    requires Run(states, steps) && i < |states|
    ensures states[i].written <= states[i].accepted
  {
    var v := RunKeeps(states, steps, i);
  }

  /** Once the worker has ended, every message put before the first exit request is written. */
  lemma ExitDrains(states: seq<State>, steps: seq<Step>, i: nat, n: nat)
    requires Run(states, steps) && i < |states| && states[i].worker.Ended?
    requires n <= |states[i].accepted| && forall k :: 0 <= k < n ==> states[i].accepted[k].Text?
    requires n < |states[i].accepted| ==> states[i].accepted[n].ExitMsg?
    ensures n < |states[i].accepted| && states[i].written == states[i].accepted[..n]
  {
    var s := states[i];
    var v := RunKeeps(states, steps, i);
    var w := |s.written|;
    assert s.accepted[..w] == s.written && s.accepted[w] == ExitMsg;
    assert forall k :: 0 <= k < w ==> s.accepted[k] == s.written[k] && s.written[k] in s.written;
  }

  // ----- what is written is what was logged

  /** The message the producer has filled in last since it got its item, after `i` steps. */
  function Given(steps: seq<Step>, i: nat, p: Producer): Option<Msg>
    requires i <= |steps|
  {
    if i == 0 then None else
    match steps[i - 1]
    case Fill(q, msg) => if q == p then Some(msg) else Given(steps, i - 1, p)
    case GetFree(q, _) => if q == p then None else Given(steps, i - 1, p)
    case _ => Given(steps, i - 1, p)
  }

  /** What the producers have put in `i` steps, read off the steps alone; a producer that puts
      an item it has not filled puts whatever is in it. */
  function Logged(steps: seq<Step>, i: nat): seq<Option<Msg>>
    requires i <= |steps|
  {
    if i == 0 then []
    else if steps[i - 1].Put? then Logged(steps, i - 1) + [Given(steps, i - 1, steps[i - 1].p)]
    else Logged(steps, i - 1)
  }

  /** These messages are the ones logged. */
  ghost predicate AsLogged(msgs: seq<Msg>, log: seq<Option<Msg>>) {
    |msgs| == |log| && forall k :: 0 <= k < |log| && log[k].Some? ==> log[k].value == msgs[k]
  }

  /** What the producer has filled in is in its item. */
  ghost predicate HoldsGiven(s: State, steps: seq<Step>, i: nat, p: Producer)
    requires i <= |steps|
  {
    p in s.hands && Given(steps, i, p).Some? ==>
      s.hands[p] < |s.items| && s.items[s.hands[p]].msg == Given(steps, i, p).value
  }

  lemma KeepsGiven(s: State, v: View, steps: seq<Step>, i: nat, p: Producer)
    requires Inv(s, v) && i < |steps| && Guard(s, steps[i]) && Safe(s, steps[i]) && HoldsGiven(s, steps, i, p)
    ensures HoldsGiven(Apply(s, steps[i]), steps, i + 1, p)
  {
    assert HandAt(s, v, p);
    if steps[i].Fill? { assert HandAt(s, v, steps[i].p); }
  }

  /** In every run, the messages put are those filled in, in the order of the puts. */
  lemma {:induction false} PutAsLogged(states: seq<State>, steps: seq<Step>, i: nat)
    requires Run(states, steps) && i < |states|
    ensures AsLogged(states[i].accepted, Logged(steps, i))
    ensures forall p: Producer :: HoldsGiven(states[i], steps, i, p)
  {
    if i > 0 {
      var s := states[i - 1];
      PutAsLogged(states, steps, i - 1);
      RunIsSafe(states, steps, i - 1);
      var v := RunKeeps(states, steps, i - 1);
      assert Next(s, steps[i - 1], states[i]);
      forall p: Producer ensures HoldsGiven(states[i], steps, i, p) { KeepsGiven(s, v, steps, i - 1, p); }
      if steps[i - 1].Put? { assert HoldsGiven(s, steps, i - 1, steps[i - 1].p); }
    }
  }

  /** In every run, what has been written is what was logged, from the first message on. */
  lemma WrittenAsLogged(states: seq<State>, steps: seq<Step>, i: nat)
    requires Run(states, steps) && i < |states|
    ensures |states[i].written| <= |Logged(steps, i)|
    ensures AsLogged(states[i].written, Logged(steps, i)[..|states[i].written|])
  {
    PutAsLogged(states, steps, i);
    WrittenInOrder(states, steps, i);
  }

  /** How often an item was asked for in the first `i` steps. */
  function Gets(steps: seq<Step>, i: nat): nat
    requires i <= |steps|
  {
    if i == 0 then 0 else Gets(steps, i - 1) + if steps[i - 1].GetFree? then 1 else 0
  }

  /** In every run, each request for an item is accounted for: put, in some hand, or dropped. */
  lemma {:induction false} NoneUncounted(states: seq<State>, steps: seq<Step>, i: nat)
    requires Run(states, steps) && i < |states|
    ensures |states[i].accepted| + |states[i].hands| + states[i].dropped == Gets(steps, i)
  {
    if i > 0 {
      NoneUncounted(states, steps, i - 1);
      RunIsSafe(states, steps, i - 1);
      var s, a := states[i - 1], steps[i - 1];
      assert Next(s, a, states[i]);
      if a.GetFree? && s.free.Some? {
        OneMoreHand(s.hands, a.p, s.free.value);
      } else if a.Put? {
        OneHandLess(s.hands, a.p);
      }
    }
  }

  /** Items in use: in some hand, or with a message put and not yet written and given back. */
  function Busy(s: State): int {
    |s.hands| + |s.accepted| - |s.written| + if s.worker.Wrote? then 1 else 0
  }

  lemma {:induction false} QueuedLength(items: seq<Item>, l: seq<nat>, i: nat)
    requires i <= |l| && forall k :: k in l ==> k < |items|
    ensures |Queued(items, l, i)| == |l| - i
    decreases |l| - i
  {
    if i < |l| {
      assert l[i] in l;
      QueuedLength(items, l, i + 1);
    }
  }

  /** In every run, a request for an item is turned down exactly if all are in use. */
  lemma DroppedIfBusy(states: seq<State>, steps: seq<Step>, i: nat)
    requires Run(states, steps) && i < |steps| && steps[i].GetFree?
    ensures Busy(states[i]) <= POOL_SIZE
    ensures states[i + 1].dropped == states[i].dropped + if Busy(states[i]) == POOL_SIZE then 1 else 0
    ensures steps[i].p in states[i + 1].hands <==> Busy(states[i]) < POOL_SIZE
  {
    var s := states[i];
    var v := RunKeeps(states, steps, i);
    RunIsSafe(states, steps, i);
    assert Next(s, steps[i], states[i + 1]);
    MembersInPool(s.items, s.queue, v.ql);
    QueuedLength(s.items, v.ql, 0);
  }

  // ----- the worker makes progress

  predicate IsWorkers(a: Step) {
    a.Take? || a.Work? || a.Release?
  }

  /** The worker's next step. */
  function WorkersNext(s: State): Step {
    match s.worker
    case Idle => Take
    case Took(_) => Work
    case Wrote(_) => Release
    case Ended(_) => Take
  }

  /** The first exit request is the `n`-th message put. */
  ghost predicate ExitAt(s: State, n: nat) {
    n < |s.accepted| && s.accepted[n].ExitMsg? && forall k :: 0 <= k < n ==> s.accepted[k].Text?
  }

  /** How many steps the worker is away from its end: three for each message to be written
      before, and two for the exit request. */
  function StepsLeft(s: State, n: nat): int {
    if s.worker.Ended? then 0
    else 3 * (n - |s.written|) + if s.worker.Took? then 1 else if s.worker.Idle? then 2 else 3
  }

  lemma WrittenBeforeExit(s: State, v: View, n: nat)
    requires Inv(s, v) && ExitAt(s, n)
    ensures |s.written| <= n && StepsLeft(s, n) >= 0 && (StepsLeft(s, n) == 0 <==> s.worker.Ended?)
    ensures s.worker.Took? ==> s.accepted[|s.written|] == s.items[s.worker.item].msg
  {
    assert forall k :: 0 <= k < |s.written| ==> s.accepted[k] == s.written[k] && s.written[k] in s.written;
  }

  /** Until it has ended, the worker is never blocked once an exit request has been put. */
  lemma WorkerNotBlocked(s: State, v: View, n: nat)
    requires Inv(s, v) && ExitAt(s, n) && !s.worker.Ended?
    ensures Guard(s, WorkersNext(s))
  {
    WrittenBeforeExit(s, v, n);
    if s.worker.Idle? {
      assert Queued(s.items, v.ql, 0) != [];
    }
  }

  /** The worker's steps bring its end nearer by one, and those of the producers do not put it
      off. */
  lemma StepTowardsEnd(s: State, v: View, a: Step, n: nat)
    requires Inv(s, v) && Guard(s, a) && Safe(s, a) && ExitAt(s, n)
    ensures ExitAt(Apply(s, a), n)
    ensures StepsLeft(Apply(s, a), n) == StepsLeft(s, n) - if IsWorkers(a) then 1 else 0
  {
    WrittenBeforeExit(s, v, n);
    if a.Work? {
      var w := |s.written|;
      if s.items[s.worker.item].msg.ExitMsg? {
        assert s.accepted[w].ExitMsg?;
      } else {
        assert s.accepted[w] == s.items[s.worker.item].msg;
      }
    }
  }

  /** How many of the steps from number `i` up to number `j` are the worker's. */
  function Workers(steps: seq<Step>, i: nat, j: nat): nat
    requires i <= j <= |steps|
  {
    if i == j then 0 else Workers(steps, i, j - 1) + if IsWorkers(steps[j - 1]) then 1 else 0
  }

  /** In every run, from the moment an exit request has been put: the worker can go on in every
      state until it ends, and it ends with the step that the state at that moment determines,
      whatever the producers do meanwhile. */
  lemma {:induction false} ExitComes(states: seq<State>, steps: seq<Step>, i: nat, j: nat, n: nat)
    requires Run(states, steps) && i <= j < |states| && ExitAt(states[i], n)
    ensures ExitAt(states[j], n) && Workers(steps, i, j) + StepsLeft(states[j], n) == StepsLeft(states[i], n)
    ensures states[j].worker.Ended? <==> Workers(steps, i, j) == StepsLeft(states[i], n)
    ensures Workers(steps, i, j) <= StepsLeft(states[i], n) <= 3 * n + 3
    ensures !states[j].worker.Ended? ==> Guard(states[j], WorkersNext(states[j]))
    decreases j
  {
    if i < j {
      ExitComes(states, steps, i, j - 1, n);
      var u := RunKeeps(states, steps, j - 1);
      RunIsSafe(states, steps, j - 1);
      assert Next(states[j - 1], steps[j - 1], states[j]);
      StepTowardsEnd(states[j - 1], u, steps[j - 1], n);
    }
    var v := RunKeeps(states, steps, j);
    WrittenBeforeExit(states[j], v, n);
    if !states[j].worker.Ended? { WorkerNotBlocked(states[j], v, n); }
    var w := RunKeeps(states, steps, i);
    WrittenBeforeExit(states[i], w, n);
  }

  // ----- the critical sections as code

  /** The part of a message that a buffer of this size holds, with its terminator. */
  function Fitting(text: string): (data: string)
    ensures data <= text && |data| < DATA_SIZE && (|text| < DATA_SIZE ==> data == text)
    ensures |text| >= DATA_SIZE ==> |data| == DATA_SIZE - 1
  {
    if |text| < DATA_SIZE then text else text[..DATA_SIZE - 1]
  }

  /** The pool and the list heads, with what the threads hold and the histories as ghosts. */
  class AsyncLog {
    const pool: array<Item>
    var free: Option<nat>
    var queue: Option<nat>
    var tail: Option<nat>
    var dropped: nat
    ghost var hands: map<Producer, nat>
    ghost var worker: Worker
    ghost var accepted: seq<Msg>
    ghost var written: seq<Msg>

    ghost function Now(): State
      reads this, pool
    {
      State(pool[..], free, queue, tail, dropped, hands, worker, accepted, written)
    }

    /** `syslog_queue_init`. */
    constructor ()
      ensures fresh(pool) && Now() == Init()
    {
      pool := new Item[POOL_SIZE](_ => Item(Text(0, ""), None));
      free, queue, tail, dropped := Some(0), None, None, 0;
      hands, worker, accepted, written := map[], Idle, [], [];
      new;
      var i := 0;
      while i < POOL_SIZE - 1
        invariant i <= POOL_SIZE - 1 && pool.Length == POOL_SIZE
        invariant free == Some(0) && queue == None && tail == None && dropped == 0
        invariant hands == map[] && worker == Idle && accepted == [] && written == []
        invariant forall k :: 0 <= k < POOL_SIZE ==>
          pool[k] == Item(Text(0, ""), if k < i then Some(k + 1) else None)
      {
        pool[i] := pool[i].(next := Some(i + 1));
        i := i + 1;
      }
      assert pool[..] == Init().items;
    }

    /** `syslog_queue_get_free_item`; a waiting caller gets here once there is an item. */
    method GetFreeItem(ghost p: Producer, wait: bool) returns (wi: Option<nat>)
      requires Guard(Now(), GetFree(p, wait)) && Safe(Now(), GetFree(p, wait))
      modifies this
      ensures Now() == Apply(old(Now()), GetFree(p, wait))
      ensures wi == old(free) && (wi.Some? ==> p in hands && hands[p] == wi.value)
    {
      wi := free;
      if free == None {
        dropped := dropped + 1;
      } else {
        free := pool[free.value].next;
        hands := hands[p := wi.value];
      }
    }

    /** The item is filled with a message, cut to what its buffer holds. */
    method FillItem(ghost p: Producer, wi: nat, priority: int, text: string)
      requires Guard(Now(), Fill(p, Text(priority, Fitting(text)))) && hands[p] == wi
      requires Safe(Now(), Fill(p, Text(priority, Fitting(text))))
      modifies pool
      ensures Now() == Apply(old(Now()), Fill(p, Text(priority, Fitting(text))))
    {
      var data := text;
      if |text| >= DATA_SIZE {
        data := text[..DATA_SIZE - 1];
      }
      pool[wi] := pool[wi].(msg := Text(priority, data));
    }

    /** The item becomes an exit request. */
    method FillExit(ghost p: Producer, wi: nat)
      requires Guard(Now(), Fill(p, ExitMsg)) && Safe(Now(), Fill(p, ExitMsg)) && hands[p] == wi
      modifies pool
      ensures Now() == Apply(old(Now()), Fill(p, ExitMsg))
    {
      pool[wi] := pool[wi].(msg := ExitMsg);
    }

    /** `syslog_queue_put_item`. */
    method PutItem(ghost p: Producer, wi: nat)
      requires Guard(Now(), Put(p)) && Safe(Now(), Put(p)) && hands[p] == wi
      modifies this, pool
      ensures Now() == Apply(old(Now()), Put(p))
    {
      accepted := accepted + [pool[wi].msg];
      pool[wi] := pool[wi].(next := None);
      if queue == None {
        queue := Some(wi);
        tail := Some(wi);
      } else {
        pool[tail.value] := pool[tail.value].(next := Some(wi));
        tail := Some(wi);
      }
      hands := hands - {p};
    }

    /** The worker's first critical section, once the queue has an item. */
    method TakeItem() returns (wi: nat)
      requires Guard(Now(), Take) && Safe(Now(), Take)
      modifies this
      ensures Now() == Apply(old(Now()), Take) && worker == Took(wi)
    {
      wi := queue.value;
      queue := pool[wi].next;
      worker := Took(wi);
    }

    /** What the worker does with an item it has taken: it writes the message, or ends. */
    method WorkItem(wi: nat) returns (line: Option<(int, string)>)
      requires Guard(Now(), Work) && Safe(Now(), Work) && worker.item == wi
      modifies this
      ensures Now() == Apply(old(Now()), Work)
      ensures line.None? <==> worker.Ended?
      ensures line.Some? ==> written == old(written) + [Text(line.value.0, line.value.1)]
    {
      match pool[wi].msg
      case Text(priority, data) =>
        line := Some((priority, data));
        written, worker := written + [pool[wi].msg], Wrote(wi);
      case ExitMsg =>
        line := None;
        worker := Ended(wi);
    }

    /** The worker's second critical section. */
    method FreeItem(wi: nat)
      requires Guard(Now(), Release) && Safe(Now(), Release) && worker.item == wi
      modifies this, pool
      ensures Now() == Apply(old(Now()), Release)
    {
      pool[wi] := pool[wi].(next := free);
      free := Some(wi);
      worker := Idle;
    }
  }
}
