/**
 AampEventManager's asynchronous path: senders push an event and then add an idle callback for it;
 callbacks run on the main loop; FlushPendingEvents may cut in anywhere. A step is one section
 under mMutexVar, one g_idle_add, or the main loop starting a callback.
 */
module EventQueue {
  import opened Prelude

  type Event = nat
  type Sender = nat
  type Id = nat

  /** An idle callback: waiting in the main loop, entered, or past SetCallbackAsDispatched. */
  datatype Phase = Added | Entered | Noted

  /** How an event left the queue: taken by a callback, or flushed. */
  datatype Departure = Taken(event: Event, id: Id) | Dropped(event: Event)

  datatype State = State(
    queue: seq<Event>,
    pushed: seq<Event>,           // every event ever pushed, in that order
    left: seq<Departure>,         // every event that has left the queue, in that order
    released: bool,
    pushing: set<Sender>,         // between the push of line 345 and the idle-add of line 348
    marking: map<Sender, Id>,     // between the idle-add and SetCallbackAsPending
    callbacks: map<Id, Phase>,    // idle callbacks that have not yet taken their event
    nextId: Id,                   // source ids are unique
    pending: map<Id, bool>,       // mPendingAsyncEvents
    assertFailed: bool,           // one of the two asserts fired
    clock: nat,                   // steps taken so far, to date what follows
    pendedAt: map<Id, nat>,       // when SetCallbackAsPending ran for an id
    dispatchedAt: map<Id, nat>,   // when SetCallbackAsDispatched ran for an id
    flushes: set<nat>)            // when FlushPendingEvents ran

  const INITIAL := State([], [], [], false, {}, map[], map[], 1, map[], false, 0, map[], map[], {})

  datatype Step =
    | Push(sender: Sender, event: Event) | IdleAdd(sender: Sender) | MarkPending(sender: Sender)
    | Enter(id: Id) | MarkDispatched(id: Id) | TakeEvent(id: Id)
    | Flush | SetReleased(released: bool)

  /** SetCallbackAsPending */
  function Pended(s: State, id: Id): State
  {
    if id in s.pending then s.(pending := s.pending - {id}, assertFailed := s.assertFailed || s.pending[id])
    else s.(pending := s.pending[id := true])
  }

  /** SetCallbackAsDispatched */
  function Dispatched(s: State, id: Id): State
  {
    if id in s.pending then s.(pending := s.pending - {id}, assertFailed := s.assertFailed || !s.pending[id])
    else s.(pending := s.pending[id := false])
  }

  function AllDropped(queue: seq<Event>): (r: seq<Departure>)
    ensures |r| == |queue| && forall i :: 0 <= i < |queue| ==> r[i].Dropped? && r[i].event == queue[i]
  {
    seq(|queue|, i requires 0 <= i < |queue| => Dropped(queue[i]))
  }

  /** FlushPendingEvents: g_source_remove reaches a callback only before the main loop enters it. */
  function Flushed(s: State): State
  {
    s.(queue := [], left := s.left + AllDropped(s.queue), pending := map[],
       callbacks := map id | id in s.callbacks && !(s.callbacks[id].Added? && id in s.pending && s.pending[id]) :: s.callbacks[id])
  }

  function Act(s: State, step: Step): Option<State>
  {
    match step
    case Push(c, e) =>
      if c in s.pushing || c in s.marking then None
      else Some(if s.released then s else s.(queue := s.queue + [e], pushed := s.pushed + [e], pushing := s.pushing + {c}))
    case IdleAdd(c) =>
      if c !in s.pushing then None
      else Some(s.(pushing := s.pushing - {c}, callbacks := s.callbacks[s.nextId := Added],
                   marking := s.marking[c := s.nextId], nextId := s.nextId + 1))
    case MarkPending(c) =>
      if c !in s.marking then None
      else Some(Pended(s, s.marking[c]).(marking := s.marking - {c}, pendedAt := s.pendedAt[s.marking[c] := s.clock]))
    case Enter(id) =>
      if id in s.callbacks && s.callbacks[id].Added? then Some(s.(callbacks := s.callbacks[id := Entered])) else None
    case MarkDispatched(id) =>
      if id in s.callbacks && s.callbacks[id].Entered?
      then Some(Dispatched(s, id).(callbacks := s.callbacks[id := Noted], dispatchedAt := s.dispatchedAt[id := s.clock]))
      else None
    case TakeEvent(id) =>
      if id in s.callbacks && s.callbacks[id].Noted?
      then Some((if s.queue == [] then s else s.(queue := s.queue[1..], left := s.left + [Taken(s.queue[0], id)]))
                .(callbacks := s.callbacks - {id}))
      else None
    case Flush => Some(Flushed(s).(flushes := s.flushes + {s.clock}))
    case SetReleased(b) => Some(s.(released := b))
  }

  function Do(s: State, step: Step): Option<State>
  {
    var r := Act(s, step);
    if r.None? then None else Some(r.value.(clock := s.clock + 1))
  }

  function Run(s: State, steps: seq<Step>): Option<State>
  {
    if steps == [] then Some(s)
    else
      var r := Run(s, steps[..|steps| - 1]);
      if r.None? then None else Do(r.value, steps[|steps| - 1])
  }

  ghost predicate Reachable(s: State) { exists steps :: Run(INITIAL, steps) == Some(s) }

  // ---------------------------------------------------------------- no event is stranded

  ghost predicate Served(s: State) { |s.queue| <= |s.callbacks| + |s.pushing| }

  lemma OneMore(m: map<Id, Phase>, id: Id, p: Phase)
    ensures |m[id := p]| == |m| + if id in m then 0 else 1
  {
    assert m[id := p].Keys == m.Keys + {id};
    if id in m { assert m.Keys + {id} == m.Keys; }
  }

  lemma OneLess(m: map<Id, Phase>, id: Id)
    requires id in m
    ensures |m - {id}| == |m| - 1
  {
    assert (m - {id}).Keys == m.Keys - {id};
  }

  lemma SameLoad(s: State, s': State)
    requires Served(s) && s'.queue == s.queue && s'.pushing == s.pushing && |s'.callbacks| == |s.callbacks|
    ensures Served(s')
  {
  }

  lemma PushIsServed(s: State, c: Sender, e: Event)
    requires Served(s) && Do(s, Push(c, e)).Some?
    ensures Served(Do(s, Push(c, e)).value)
  {
    assert c !in s.pushing ==> |s.pushing + {c}| == |s.pushing| + 1;
  }

  lemma AddIsServed(s: State, c: Sender)
    requires Served(s) && Do(s, IdleAdd(c)).Some? && s.nextId !in s.callbacks
    ensures Served(Do(s, IdleAdd(c)).value)
  {
    OneMore(s.callbacks, s.nextId, Added);
    assert |s.pushing - {c}| == |s.pushing| - 1;
  }

  lemma TakeIsServed(s: State, id: Id)
    requires Served(s) && Do(s, TakeEvent(id)).Some?
    ensures Served(Do(s, TakeEvent(id)).value)
  {
    OneLess(s.callbacks, id);
  }

  lemma StepKeepsServed(s: State, step: Step)
    requires Served(s) && Do(s, step).Some? && s.nextId !in s.callbacks
    ensures Served(Do(s, step).value)
  {
    hide Served;
    match step
    case Push(c, e) => PushIsServed(s, c, e);
    case IdleAdd(c) => AddIsServed(s, c);
    case TakeEvent(id) => TakeIsServed(s, id);
    case Enter(id) => OneMore(s.callbacks, id, Entered); SameLoad(s, Do(s, step).value);
    case MarkDispatched(id) => OneMore(s.callbacks, id, Noted); SameLoad(s, Do(s, step).value);
    case Flush => FlushIsServed(s);
    case _ => SameLoad(s, Do(s, step).value);
  }

  lemma FlushIsServed(s: State)
    ensures Served(Do(s, Flush).value)
  {
  }

  // ---------------------------------------------------------------- first in, first out

  /** What has left, followed by what is queued, is what was pushed; without a flush everything that left was taken. */
  ghost predicate FirstInFirstOut(s: State)
  {
    && |s.left| + |s.queue| == |s.pushed|
    && (forall i :: 0 <= i < |s.left| ==> s.left[i].event == s.pushed[i])
    && (forall i :: 0 <= i < |s.queue| ==> s.queue[i] == s.pushed[|s.left| + i])
    && (s.flushes == {} ==> forall i :: 0 <= i < |s.left| ==> s.left[i].Taken?)
  }

  lemma StepKeepsOrder(s: State, step: Step)
    requires FirstInFirstOut(s) && Do(s, step).Some?
    ensures FirstInFirstOut(Do(s, step).value)
  {
    hide FirstInFirstOut, Pended, Dispatched;
    match step
    case Push(c, e) => PushKeepsOrder(s, c, e);
    case TakeEvent(id) => TakeKeepsOrder(s, id);
    case Flush => FlushKeepsOrder(s);
    case MarkPending(c) => OnlyEntryChanges(s, s.marking[c]); SameOrder(s, Do(s, step).value);
    case MarkDispatched(id) => OnlyEntryChanges(s, id); SameOrder(s, Do(s, step).value);
    case _ => SameOrder(s, Do(s, step).value);
  }

  lemma SameOrder(s: State, s': State)
    requires FirstInFirstOut(s)
    requires s'.queue == s.queue && s'.pushed == s.pushed && s'.left == s.left && s'.flushes == s.flushes
    ensures FirstInFirstOut(s')
  {
  }

  lemma PushKeepsOrder(s: State, c: Sender, e: Event)
    requires FirstInFirstOut(s) && Do(s, Push(c, e)).Some?
    ensures FirstInFirstOut(Do(s, Push(c, e)).value)
  {
  }

  lemma TakeKeepsOrder(s: State, id: Id)
    requires FirstInFirstOut(s) && Do(s, TakeEvent(id)).Some?
    ensures FirstInFirstOut(Do(s, TakeEvent(id)).value)
  {
  }

  lemma FlushKeepsOrder(s: State)
    requires FirstInFirstOut(s)
    ensures FirstInFirstOut(Do(s, Flush).value)
  {
    hide AllDropped;
    assert s.clock in Do(s, Flush).value.flushes;
  }

  // ---------------------------------------------------------------- the pending/dispatched handshake

  ghost predicate FlushIn(s: State, from: int, to: int) { exists f :: f in s.flushes && from < f < to }

  /** What mPendingAsyncEvents holds for an id, from when its two sides and the flushes ran. */
  ghost predicate EntryFor(s: State, id: Id, present: bool, value: bool)
  {
    if id in s.pendedAt && id in s.dispatchedAt then
      var p, d := s.pendedAt[id], s.dispatchedAt[id];
      var first, second := if p < d then p else d, if p < d then d else p;
      && (present <==> FlushIn(s, first, second) && !FlushIn(s, second, s.clock))
      && (present ==> value == (d < p))
    else if id in s.pendedAt then
      (present <==> !FlushIn(s, s.pendedAt[id], s.clock)) && (present ==> value)
    else if id in s.dispatchedAt then
      (present <==> !FlushIn(s, s.dispatchedAt[id], s.clock)) && (present ==> !value)
    else
      !present
  }

  ghost predicate Handshake(s: State)
  {
    forall id {:trigger id in s.pending} :: EntryFor(s, id, id in s.pending, id in s.pending && s.pending[id])
  }

  /** Dates are in the past and differ; each side of an id runs at most once. */
  ghost predicate Dated(s: State)
  {
    && (forall id :: id in s.pendedAt ==> id < s.nextId && s.pendedAt[id] < s.clock)
    && (forall id :: id in s.dispatchedAt ==> id < s.nextId && s.dispatchedAt[id] < s.clock)
    && (forall id :: id in s.pendedAt && id in s.dispatchedAt ==> s.pendedAt[id] != s.dispatchedAt[id])
    && (forall f :: f in s.flushes ==> f < s.clock)
    && (forall id :: id in s.callbacks ==> id < s.nextId)
    && (forall id :: id in s.callbacks && !s.callbacks[id].Noted? ==> id !in s.dispatchedAt)
    && (forall c :: c in s.marking ==> s.marking[c] < s.nextId && s.marking[c] !in s.pendedAt)
    && (forall c, d :: c in s.marking && d in s.marking && s.marking[c] == s.marking[d] ==> c == d)
  }

  lemma StepKeepsDated(s: State, step: Step)
    requires Dated(s) && Do(s, step).Some?
    ensures Dated(Do(s, step).value)
  {
    hide Dated;
    match step
    case IdleAdd(c) => AddKeepsDated(s, c);
    case MarkPending(c) => MarkKeepsDated(s, c);
    case MarkDispatched(id) => DispatchKeepsDated(s, id);
    case Flush => FlushKeepsDated(s);
    case Enter(id) => EnterKeepsDated(s, id);
    case TakeEvent(id) => TakeKeepsDated(s, id);
    case _ => OthersKeepDated(s, step);
  }

  lemma AddKeepsDated(s: State, c: Sender)
    requires Dated(s) && Do(s, IdleAdd(c)).Some?
    ensures Dated(Do(s, IdleAdd(c)).value)
  {
  }

  /** SetCallbackAsPending and SetCallbackAsDispatched change only the id's own entry and the assert flag. */
  lemma OnlyEntryChanges(s: State, m: Id)
    ensures Pended(s, m) == s.(pending := Pended(s, m).pending, assertFailed := Pended(s, m).assertFailed)
    ensures Dispatched(s, m) == s.(pending := Dispatched(s, m).pending, assertFailed := Dispatched(s, m).assertFailed)
  {
  }

  ghost predicate SameAt(p: map<Id, bool>, q: map<Id, bool>, id: Id)
  {
    (id in p <==> id in q) && (id in p ==> p[id] == q[id])
  }

  lemma OtherKeyStays(p: map<Id, bool>, m: Id, b: bool, id: Id)
    requires id != m
    ensures SameAt(p, p - {m}, id) && SameAt(p, p[m := b], id)
  {
  }

  lemma OtherEntriesStay(s: State, m: Id, id: Id)
    requires id != m
    ensures SameAt(s.pending, Pended(s, m).pending, id) && SameAt(s.pending, Dispatched(s, m).pending, id)
  {
    hide SameAt;
    OtherKeyStays(s.pending, m, true, id);
    OtherKeyStays(s.pending, m, false, id);
  }

  lemma MarkKeepsDated(s: State, c: Sender)
    requires Dated(s) && Do(s, MarkPending(c)).Some?
    ensures Dated(Do(s, MarkPending(c)).value)
  {
    hide Pended;
    OnlyEntryChanges(s, s.marking[c]);
  }

  lemma DispatchKeepsDated(s: State, id: Id)
    requires Dated(s) && Do(s, MarkDispatched(id)).Some?
    ensures Dated(Do(s, MarkDispatched(id)).value)
  {
    hide Dispatched;
    OnlyEntryChanges(s, id);
  }

  lemma FlushKeepsDated(s: State)
    requires Dated(s)
    ensures Dated(Do(s, Flush).value)
  {
    hide AllDropped;
  }

  lemma OthersKeepDated(s: State, step: Step)
    requires Dated(s) && Do(s, step).Some?
    requires step.Push? || step.SetReleased?
    ensures Dated(Do(s, step).value)
  {
    hide Dated, Pended, Dispatched, Flushed;
    SameDates(s, Do(s, step).value);
  }

  lemma EnterKeepsDated(s: State, id: Id)
    requires Dated(s) && Do(s, Enter(id)).Some?
    ensures Dated(Do(s, Enter(id)).value)
  {
    hide Dated;
    SameDates(s, Do(s, Enter(id)).value);
  }

  lemma TakeKeepsDated(s: State, id: Id)
    requires Dated(s) && Do(s, TakeEvent(id)).Some?
    ensures Dated(Do(s, TakeEvent(id)).value)
  {
    hide Dated;
    TakeFrame(s, id);
    hide Do;
    SameDates(s, Do(s, TakeEvent(id)).value);
  }

  lemma TakeFrame(s: State, id: Id)
    requires Do(s, TakeEvent(id)).Some?
    ensures var s' := Do(s, TakeEvent(id)).value;
            s' == s.(queue := s'.queue, left := s'.left, callbacks := s.callbacks - {id}, clock := s.clock + 1)
  {
  }

  /** No date is added, and no callback goes back. */
  lemma SameDates(s: State, s': State)
    requires Dated(s) && s'.pendedAt == s.pendedAt && s'.dispatchedAt == s.dispatchedAt && s'.flushes == s.flushes
    requires s'.marking == s.marking && s'.nextId == s.nextId && s'.clock == s.clock + 1
    requires forall id :: id in s'.callbacks ==> id in s.callbacks && (s.callbacks[id].Noted? ==> s'.callbacks[id].Noted?)
    ensures Dated(s')
  {
  }

  /** FlushIn looks only at the flushes before the present. */
  lemma NoNewFlush(s: State, s': State, from: int, to: int)
    requires Dated(s) && s'.flushes == s.flushes && s'.clock == s.clock + 1
    ensures FlushIn(s', from, to) <==> FlushIn(s, from, to)
    ensures FlushIn(s', from, s'.clock) <==> FlushIn(s, from, s.clock)
  {
  }

  /** Nothing about this id changed, and no flush ran. */
  ghost predicate SameFor(s: State, s': State, id: Id)
  {
    && s'.flushes == s.flushes && s'.clock == s.clock + 1
    && (id in s'.pending <==> id in s.pending) && (id in s.pending ==> s'.pending[id] == s.pending[id])
    && (id in s'.pendedAt <==> id in s.pendedAt) && (id in s.pendedAt ==> s'.pendedAt[id] == s.pendedAt[id])
    && (id in s'.dispatchedAt <==> id in s.dispatchedAt)
    && (id in s.dispatchedAt ==> s'.dispatchedAt[id] == s.dispatchedAt[id])
  }

  lemma QuietEntry(s: State, s': State, id: Id)
    requires Dated(s) && EntryFor(s, id, id in s.pending, id in s.pending && s.pending[id]) && SameFor(s, s', id)
    ensures EntryFor(s', id, id in s'.pending, id in s'.pending && s'.pending[id])
  {
    if id in s.pendedAt { NoNewFlush(s, s', s.pendedAt[id], s.clock); }
    if id in s.dispatchedAt { NoNewFlush(s, s', s.dispatchedAt[id], s.clock); }
    if id in s.pendedAt && id in s.dispatchedAt {
      NoNewFlush(s, s', s.pendedAt[id], s.dispatchedAt[id]);
      NoNewFlush(s, s', s.dispatchedAt[id], s.pendedAt[id]);
    }
  }

  lemma PendingOther(s: State, c: Sender, id: Id)
    requires c in s.marking && s.marking[c] != id
    ensures SameFor(s, Do(s, MarkPending(c)).value, id)
  {
    hide Pended;
    OnlyEntryChanges(s, s.marking[c]);
    OtherEntriesStay(s, s.marking[c], id);
  }

  lemma DispatchingOther(s: State, m: Id, id: Id)
    requires m in s.callbacks && s.callbacks[m].Entered? && m != id
    ensures SameFor(s, Do(s, MarkDispatched(m)).value, id)
  {
    hide Dispatched;
    OnlyEntryChanges(s, m);
    OtherEntriesStay(s, m, id);
  }

  lemma NotMarking(s: State, step: Step, id: Id)
    requires Do(s, step).Some? && !step.Flush? && !step.MarkPending? && !step.MarkDispatched?
    ensures SameFor(s, Do(s, step).value, id)
  {
  }

  lemma FlushEntry(s: State, id: Id)
    requires Dated(s)
    ensures var s' := Do(s, Flush).value; EntryFor(s', id, id in s'.pending, id in s'.pending && s'.pending[id])
  {
    var s' := Do(s, Flush).value;
    assert s.clock in s'.flushes;
    if id in s.pendedAt { assert FlushIn(s', s.pendedAt[id], s'.clock); }
    if id in s.dispatchedAt { assert FlushIn(s', s.dispatchedAt[id], s'.clock); }
  }

  lemma PendEntry(s: State, c: Sender)
    requires Dated(s) && c in s.marking
    requires var id := s.marking[c]; EntryFor(s, id, id in s.pending, id in s.pending && s.pending[id])
    ensures var s', id := Do(s, MarkPending(c)).value, s.marking[c];
            EntryFor(s', id, id in s'.pending, id in s'.pending && s'.pending[id])
    ensures Do(s, MarkPending(c)).value.assertFailed == s.assertFailed
  {
    var s', id := Do(s, MarkPending(c)).value, s.marking[c];
    assert !FlushIn(s', s.clock, s'.clock);
    if id in s.dispatchedAt { NoNewFlush(s, s', s.dispatchedAt[id], s.clock); }
  }

  lemma DispatchEntry(s: State, id: Id)
    requires Dated(s) && id in s.callbacks && s.callbacks[id].Entered?
    requires EntryFor(s, id, id in s.pending, id in s.pending && s.pending[id])
    ensures var s' := Do(s, MarkDispatched(id)).value;
            EntryFor(s', id, id in s'.pending, id in s'.pending && s'.pending[id])
    ensures Do(s, MarkDispatched(id)).value.assertFailed == s.assertFailed
  {
    var s' := Do(s, MarkDispatched(id)).value;
    assert !FlushIn(s', s.clock, s'.clock);
    if id in s.pendedAt { NoNewFlush(s, s', s.pendedAt[id], s.clock); }
  }

  lemma MarkingNeedsMark(s: State, step: Step)
    requires Do(s, step).Some?
    ensures step.MarkPending? ==> step.sender in s.marking
    ensures step.MarkDispatched? ==> step.id in s.callbacks && s.callbacks[step.id].Entered?
  {
  }

  lemma EntryAfter(s: State, step: Step, id: Id)
    requires Dated(s) && Handshake(s) && Do(s, step).Some?
    ensures var s' := Do(s, step).value; EntryFor(s', id, id in s'.pending, id in s'.pending && s'.pending[id])
  {
    hide Dated, EntryFor, Act, SameFor;
    assert EntryFor(s, id, id in s.pending, id in s.pending && s.pending[id]);
    MarkingNeedsMark(s, step);
    if step.Flush? {
      FlushEntry(s, id);
    } else if step.MarkPending? && s.marking[step.sender] == id {
      PendEntry(s, step.sender);
    } else if step.MarkDispatched? && step.id == id {
      DispatchEntry(s, id);
    } else {
      match step {
        case MarkPending(c) => PendingOther(s, c, id);
        case MarkDispatched(m) => DispatchingOther(s, m, id);
        case _ => NotMarking(s, step, id);
      }
      QuietEntry(s, Do(s, step).value, id);
    }
  }

  lemma StepKeepsHandshake(s: State, step: Step)
    requires Dated(s) && Handshake(s) && Do(s, step).Some?
    ensures Handshake(Do(s, step).value) && Do(s, step).value.assertFailed == s.assertFailed
  {
    hide Dated, EntryFor;
    var s' := Do(s, step).value;
    forall id ensures EntryFor(s', id, id in s'.pending, id in s'.pending && s'.pending[id]) {
      EntryAfter(s, step, id);
    }
    match step
    case MarkPending(c) =>
      assert EntryFor(s, s.marking[c], s.marking[c] in s.pending, s.marking[c] in s.pending && s.pending[s.marking[c]]);
      PendEntry(s, c);
    case MarkDispatched(id) =>
      assert EntryFor(s, id, id in s.pending, id in s.pending && s.pending[id]);
      DispatchEntry(s, id);
    case _ =>
  }

  // ---------------------------------------------------------------- callbacks that a flush can reach

  ghost predicate BeingMarked(s: State, id: Id) { exists c :: c in s.marking && s.marking[c] == id }

  /** A callback not yet entered is noted as pending, or its sender is still about to note it. */
  ghost predicate Awaited(s: State)
  {
    forall id :: id in s.callbacks && s.callbacks[id].Added? ==> BeingMarked(s, id) || (id in s.pending && s.pending[id])
  }

  lemma MarkedStill(s: State, c: Sender, id: Id)
    requires Do(s, MarkPending(c)).Some? && BeingMarked(s, id) && s.marking[c] != id
    ensures BeingMarked(Do(s, MarkPending(c)).value, id)
  {
    hide Pended;
    OnlyEntryChanges(s, s.marking[c]);
    var d :| d in s.marking && s.marking[d] == id;
    var s' := Do(s, MarkPending(c)).value;
    assert d in s'.marking && s'.marking[d] == id;
  }

  lemma MarkKeepsAwaited(s: State, c: Sender)
    requires Dated(s) && Handshake(s) && Awaited(s) && Do(s, MarkPending(c)).Some?
    ensures Awaited(Do(s, MarkPending(c)).value)
  {
    hide EntryFor, Handshake, Pended, BeingMarked;
    var s', m := Do(s, MarkPending(c)).value, s.marking[c];
    OnlyEntryChanges(s, m);
    forall id | id in s'.callbacks && s'.callbacks[id].Added?
      ensures BeingMarked(s', id) || (id in s'.pending && s'.pending[id])
    {
      if id == m {
        NotDispatchedEntry(s, id);
        PendedNow(s, id);
      } else {
        OtherEntriesStay(s, m, id);
        if BeingMarked(s, id) { MarkedStill(s, c, id); }
      }
    }
  }

  lemma NotDispatchedEntry(s: State, id: Id)
    requires Handshake(s) && id !in s.dispatchedAt && id !in s.pendedAt
    ensures id !in s.pending
  {
  }

  lemma PendedNow(s: State, id: Id)
    requires id !in s.pending
    ensures id in Pended(s, id).pending && Pended(s, id).pending[id]
  {
  }

  lemma DispatchKeepsAwaited(s: State, m: Id)
    requires Awaited(s) && Do(s, MarkDispatched(m)).Some?
    ensures Awaited(Do(s, MarkDispatched(m)).value)
  {
    hide Dispatched, BeingMarked;
    var s' := Do(s, MarkDispatched(m)).value;
    OnlyEntryChanges(s, m);
    forall id | id in s'.callbacks && s'.callbacks[id].Added?
      ensures BeingMarked(s', id) || (id in s'.pending && s'.pending[id])
    {
      OtherEntriesStay(s, m, id);
      SameMarking(s, s', id);
    }
  }

  lemma SameMarking(s: State, s': State, id: Id)
    requires s'.marking == s.marking
    ensures BeingMarked(s', id) == BeingMarked(s, id)
  {
  }

  lemma AddKeepsAwaited(s: State, c: Sender)
    requires Awaited(s) && Do(s, IdleAdd(c)).Some? && c !in s.marking
    ensures Awaited(Do(s, IdleAdd(c)).value)
  {
    var s' := Do(s, IdleAdd(c)).value;
    forall id | id in s'.callbacks && s'.callbacks[id].Added?
      ensures BeingMarked(s', id) || (id in s'.pending && s'.pending[id])
    {
      if id == s.nextId {
        assert c in s'.marking && s'.marking[c] == id;
      } else if BeingMarked(s, id) {
        var d :| d in s.marking && s.marking[d] == id;
        assert d in s'.marking && s'.marking[d] == id;
      }
    }
  }

  lemma OthersKeepAwaited(s: State, step: Step)
    requires Awaited(s) && Do(s, step).Some? && !step.MarkPending? && !step.MarkDispatched? && !step.IdleAdd?
    ensures Awaited(Do(s, step).value)
  {
    hide BeingMarked;
    var s' := Do(s, step).value;
    forall id ensures BeingMarked(s', id) == BeingMarked(s, id) { SameMarking(s, s', id); }
  }

  lemma StepKeepsAwaited(s: State, step: Step)
    requires Dated(s) && Handshake(s) && Awaited(s) && Separate(s) && Do(s, step).Some?
    ensures Awaited(Do(s, step).value)
  {
    hide Awaited, Dated, Handshake;
    match step
    case MarkPending(c) => MarkKeepsAwaited(s, c);
    case MarkDispatched(id) => DispatchKeepsAwaited(s, id);
    case IdleAdd(c) => AddKeepsAwaited(s, c);
    case _ => OthersKeepAwaited(s, step);
  }

  /** No sender is at two places at once. */
  ghost predicate Separate(s: State) { forall c :: c in s.pushing ==> c !in s.marking }

  lemma StepKeepsSeparate(s: State, step: Step)
    requires Separate(s) && Do(s, step).Some?
    ensures Separate(Do(s, step).value)
  {
    hide Pended, Dispatched;
    match step
    case MarkPending(c) => OnlyEntryChanges(s, s.marking[c]);
    case MarkDispatched(id) => OnlyEntryChanges(s, id);
    case _ =>
  }

  // ---------------------------------------------------------------- every run

  ghost predicate Inv(s: State)
  {
    Served(s) && FirstInFirstOut(s) && Dated(s) && Handshake(s) && Separate(s) && Awaited(s) && !s.assertFailed
  }

  lemma InitiallyFine()
    ensures Inv(INITIAL)
  {
  }

  lemma StepKeepsInv(s: State, step: Step)
    requires Inv(s) && Do(s, step).Some?
    ensures Inv(Do(s, step).value)
  {
    hide Do, Served, Handshake, FirstInFirstOut, Awaited, Separate;
    assert s.nextId !in s.callbacks;
    StepKeepsServed(s, step);
    StepKeepsOrder(s, step);
    StepKeepsSeparate(s, step);
    StepKeepsAwaited(s, step);
    StepKeepsDated(s, step);
    StepKeepsHandshake(s, step);
  }

  lemma {:induction false} RunKeepsInv(steps: seq<Step>)
    requires Run(INITIAL, steps).Some?
    ensures Inv(Run(INITIAL, steps).value)
  {
    hide Do, Inv;
    if steps == [] {
      InitiallyFine();
    } else {
      RunKeepsInv(steps[..|steps| - 1]);
      StepKeepsInv(Run(INITIAL, steps[..|steps| - 1]).value, steps[|steps| - 1]);
    }
  }

  /**
   In every run, flushes included, queued events never outnumber the idle callbacks still to take
   one plus the senders still to add one; so a queued event always has someone coming for it.
   */
  lemma NoEventStranded(s: State)
    requires Reachable(s)
    ensures |s.queue| <= |s.callbacks| + |s.pushing|
    ensures s.queue != [] ==> s.callbacks != map[] || s.pushing != {}
  {
    var steps :| Run(INITIAL, steps) == Some(s);
    RunKeepsInv(steps);
  }

  /**
   In every run the k-th event to leave the queue is the k-th pushed, so callbacks take events in the
   order of the pushes and before everything still queued; and without a flush every event pushed
   has been taken or is queued.
   */
  lemma EventsTakenInOrder(s: State)
    requires Reachable(s)
    ensures |s.left| <= |s.pushed| && s.queue == s.pushed[|s.left|..]
    ensures forall i :: 0 <= i < |s.left| ==> s.left[i].event == s.pushed[i]
    ensures s.flushes == {} ==> forall i :: 0 <= i < |s.left| ==> s.left[i].Taken?
  {
    hide Run, Served, Handshake, Dated, Awaited, Separate;
    var steps :| Run(INITIAL, steps) == Some(s);
    RunKeepsInv(steps);
  }

  /** What a step does to the three records: only a push outside the released state, a callback's turn or a flush does anything. */
  lemma RecordsChange(s: State, step: Step)
    requires Do(s, step).Some?
    ensures var s' := Do(s, step).value;
            && s'.pushed == s.pushed + (if step.Push? && !s.released then [step.event] else [])
            && s.left <= s'.left && s'.released == (if step.SetReleased? then step.released else s.released)
            && |s'.left| == |s.left| + (if step.Flush? then |s.queue| else if step.TakeEvent? && s.queue != [] then 1 else 0)
            && (step.TakeEvent? && s.queue != [] ==> s'.left[|s.left|].Taken? && s'.left[|s.left|].id == step.id)
            && (step.Flush? ==> forall i :: |s.left| <= i < |s'.left| ==> s'.left[i].Dropped?)
  {
    hide Pended, Dispatched, AllDropped, Flushed;
    match step
    case MarkPending(c) => OnlyEntryChanges(s, s.marking[c]);
    case MarkDispatched(id) => OnlyEntryChanges(s, id);
    case Flush => FlushRecords(s);
    case _ =>
  }

  /**
   A flush leaves exactly the callbacks that the main loop has already entered, and those whose
   senders have not yet noted them; so none at all if there are no such callbacks.
   */
  lemma FlushRemovesTheRest(s: State, id: Id)
    requires Reachable(s)
    ensures Do(s, Flush).Some?
    ensures var s' := Do(s, Flush).value;
            && s'.queue == [] && s'.pending == map[]
            && (id in s'.callbacks <==> id in s.callbacks && (!s.callbacks[id].Added? || BeingMarked(s, id)))
  {
    hide Run, Served, Handshake, FirstInFirstOut, Dated, Separate, BeingMarked, Do;
    var steps :| Run(INITIAL, steps) == Some(s);
    RunKeepsInv(steps);
    AfterFlush(s, id);
    if id in s.callbacks && s.callbacks[id].Added? && BeingMarked(s, id) {
      MarkedIsUndated(s, id);
      NotDispatchedEntry(s, id);
    }
  }

  lemma FlushRecords(s: State)
    ensures Flushed(s).left == s.left + AllDropped(s.queue) && Flushed(s).pushed == s.pushed && Flushed(s).released == s.released
  {
  }

  lemma AfterFlush(s: State, id: Id)
    ensures Do(s, Flush).Some?
    ensures var s' := Do(s, Flush).value;
            && s'.queue == [] && s'.pending == map[]
            && (id in s'.callbacks <==> id in s.callbacks && !(s.callbacks[id].Added? && id in s.pending && s.pending[id]))
  {
    hide AllDropped;
  }

  lemma MarkedIsUndated(s: State, id: Id)
    requires Dated(s) && id in s.callbacks && s.callbacks[id].Added? && BeingMarked(s, id)
    ensures id !in s.dispatchedAt && id !in s.pendedAt
  {
  }

  /** Who can act: a sender and a callback go through their three stages in turn, a flush and a state change come at any time. */
  lemma WhoCanAct(s: State, c: Sender, e: Event, id: Id, b: bool)
    ensures Do(s, Push(c, e)).Some? <==> c !in s.pushing && c !in s.marking
    ensures Do(s, IdleAdd(c)).Some? <==> c in s.pushing
    ensures Do(s, MarkPending(c)).Some? <==> c in s.marking
    ensures Do(s, Enter(id)).Some? <==> id in s.callbacks && s.callbacks[id].Added?
    ensures Do(s, MarkDispatched(id)).Some? <==> id in s.callbacks && s.callbacks[id].Entered?
    ensures Do(s, TakeEvent(id)).Some? <==> id in s.callbacks && s.callbacks[id].Noted?
    ensures Do(s, Flush).Some? && Do(s, SetReleased(b)).Some?
  {
    hide Pended, Dispatched, Flushed;
  }

  /** Each assert is watched: the flag is raised exactly when SetCallbackAsPending finds the id pending or SetCallbackAsDispatched finds it done. */
  lemma AssertsAreWatched(s: State, step: Step)
    requires Do(s, step).Some?
    ensures Do(s, step).value.assertFailed <==>
            || s.assertFailed
            || (step.MarkPending? && s.marking[step.sender] in s.pending && s.pending[s.marking[step.sender]])
            || (step.MarkDispatched? && step.id in s.pending && !s.pending[step.id])
  {
    hide AllDropped;
  }

  /** In every run, flushes included, neither assert fires. */
  lemma AssertsNeverFire(s: State)
    requires Reachable(s)
    ensures !s.assertFailed
  {
    var steps :| Run(INITIAL, steps) == Some(s);
    RunKeepsInv(steps);
  }

  /**
   Once both sides of an id have run, in either order, its entry is left behind exactly if a flush
   cut in between them and none has come since; so never in a run without flushes.
   */
  lemma EntryLeftBehindIff(s: State, id: Id)
    requires Reachable(s) && id in s.pendedAt && id in s.dispatchedAt
    ensures var p, d := s.pendedAt[id], s.dispatchedAt[id];
            id in s.pending <==>
              (FlushIn(s, p, d) || FlushIn(s, d, p)) && !FlushIn(s, if p < d then d else p, s.clock)
    ensures s.flushes == {} ==> id !in s.pending
  {
    var steps :| Run(INITIAL, steps) == Some(s);
    RunKeepsInv(steps);
    assert EntryFor(s, id, id in s.pending, id in s.pending && s.pending[id]);
  }

  /** The run that a flush between the two sides of its one callback makes go wrong. */
  function FlushedHandshake(c: Sender, e: Event): seq<Step>
  {
    [Push(c, e), IdleAdd(c), Enter(1), MarkDispatched(1), Flush, MarkPending(c)]
  }

  lemma RunAppend(s: State, steps: seq<Step>, step: Step)
    ensures Run(s, steps + [step]) == (if Run(s, steps).None? then None else Do(Run(s, steps).value, step))
  {
    assert (steps + [step])[..|steps|] == steps;
  }

  /** Such a run exists: its callback is done on both sides, and its entry stays. */
  lemma FlushLeavesEntry(c: Sender, e: Event)
    ensures var r := Run(INITIAL, FlushedHandshake(c, e));
            r.Some? && Reachable(r.value) && 1 in r.value.pendedAt && 1 in r.value.dispatchedAt && 1 in r.value.pending
  {
    hide Run;
    var s2 := HandshakeBegun(c, e);
    var begun := [Push(c, e), IdleAdd(c)];
    RunAppend(INITIAL, begun, Enter(1));
    RunAppend(INITIAL, begun + [Enter(1)], MarkDispatched(1));
    RunAppend(INITIAL, begun + [Enter(1), MarkDispatched(1)], Flush);
    RunAppend(INITIAL, begun + [Enter(1), MarkDispatched(1), Flush], MarkPending(c));
    assert begun + [Enter(1)] + [MarkDispatched(1)] == begun + [Enter(1), MarkDispatched(1)];
    assert begun + [Enter(1), MarkDispatched(1)] + [Flush] == begun + [Enter(1), MarkDispatched(1), Flush];
    assert begun + [Enter(1), MarkDispatched(1), Flush] + [MarkPending(c)] == FlushedHandshake(c, e);
  }

  lemma HandshakeBegun(c: Sender, e: Event) returns (s: State)
    ensures Run(INITIAL, [Push(c, e), IdleAdd(c)]) == Some(s)
    ensures s == INITIAL.(queue := [e], pushed := [e], callbacks := map[1 := Added], marking := map[c := 1], nextId := 2, clock := 2)
  {
    RunAppend(INITIAL, [], Push(c, e));
    RunAppend(INITIAL, [Push(c, e)], IdleAdd(c));
    assert [] + [Push(c, e)] == [Push(c, e)];
    assert [Push(c, e)] + [IdleAdd(c)] == [Push(c, e), IdleAdd(c)];
    s := Run(INITIAL, [Push(c, e), IdleAdd(c)]).value;
  }
}
