/**
 AampScheduler as an interleaving of one worker thread, one controller that suspends, resumes,
 starts and stops, and any number of clients. A step is one action between lock operations;
 a critical section that cannot block is one step, enabled only while its mutex is free.
 */
module Scheduler {
  import opened Prelude

  const TASK_ID_INVALID := 0
  const ID_DEFAULT := 1
  const ID_MAX_VALUE := 0x7fff_ffff

  /** AsyncTaskObj; `ticket` is its position in the order of acceptance. */
  datatype Task = Task(id: int, name: string, ticket: nat)

  datatype Fate = Queued | Running | Finished | Removed | Superseded | Skipped

  datatype Owner = Nobody | Worker | Controller

  /** Where ExecuteAsyncTask stands. */
  datatype WorkerPc =
    | NoThread
    | Starting          // wants the queue lock, line 117
    | LoopHead          // holds it, about to read mSchedulerRunning, line 118
    | Checked           // holds it, has read true, about to look at the queue, line 120
    | Waiting           // in mQCond.wait, line 122
    | Woken             // notified, wants the queue lock back
    | WantEx            // line 132
    | HasEx             // holds the execution lock, wants the queue lock, line 133
    | Picking           // holds both, line 136
    | Executing(task: Task) // a task body runs, line 152
    | Returned(task: Task)  // body done, wants the queue lock, line 154
    | Exited

  /** Where the controller stands; `stop` tells StopScheduler's calls from direct ones. */
  datatype ControllerPc =
    | Outside
    | SuspendEx(stop: bool)   // line 214
    | SuspendQ(stop: bool)    // line 215
    | Suspended               // SuspendScheduler has returned, ResumeScheduler not yet called
    | ResumeEx(stop: bool)    // line 224
    | ResumeQ(stop: bool)     // line 225
    | StopCheck               // line 195
    | StopClear               // line 200
    | StopNotify              // line 204
    | StopJoin                // line 206

  datatype State = State(
    queue: seq<Task>, lockOut: bool, running: bool, nextId: int, current: int,
    dead: bool,               // mState is eSTATE_ERROR or eSTATE_RELEASED
    qMutex: Owner, exMutex: Owner, worker: WorkerPc, controller: ControllerPc,
    passed: set<nat>,         // clients past the unlocked checks of ScheduleTask
    fates: seq<Fate>,         // of every accepted task, by ticket
    started: seq<nat>)        // tickets of tasks whose bodies were entered, in that order

  const INITIAL := State([], false, false, ID_DEFAULT, TASK_ID_INVALID, false,
                         Nobody, Nobody, NoThread, Outside, {}, [], [])

  datatype Step =
    | Work | SpuriousWakeup
    | Start | Suspend | Resume | Stop | Control
    | ClientCheck(client: nat) | ClientSchedule(client: nat, name: string)
    | RemoveAll | Remove(id: int) | SetState(dead: bool)

  // ---------------------------------------------------------------- queue operations

  const SET_RATE := "SetRate"

  /** The position of the first task of that name; the length of the queue if there is none. */
  function FirstNamed(queue: seq<Task>, name: string): (i: nat)
    ensures i <= |queue|
    ensures i < |queue| ==> queue[i].name == name
    ensures forall j :: 0 <= j < i ==> queue[j].name != name
  {
    if queue == [] || queue[0].name == name then 0 else 1 + FirstNamed(queue[1..], name)
  }

  function FirstWithId(queue: seq<Task>, id: int): (i: nat)
    ensures i <= |queue|
    ensures i < |queue| ==> queue[i].id == id
    ensures forall j :: 0 <= j < i ==> queue[j].id != id
  {
    if queue == [] || queue[0].id == id then 0 else 1 + FirstWithId(queue[1..], id)
  }

  function Without(queue: seq<Task>, i: nat): seq<Task>
  {
    if i < |queue| then queue[..i] + queue[i + 1..] else queue
  }

  function SetFate(fates: seq<Fate>, ticket: nat, fate: Fate): seq<Fate>
  {
    if ticket < |fates| then fates[ticket := fate] else fates
  }

  function Tickets(tasks: seq<Task>): set<nat> { set i | 0 <= i < |tasks| :: tasks[i].ticket }

  function SetFates(fates: seq<Fate>, tasks: seq<Task>, fate: Fate): seq<Fate>
  {
    seq(|fates|, t requires 0 <= t < |fates| => if t in Tickets(tasks) then fate else fates[t])
  }

  function NextId(id: int): int
  {
    if id + 1 >= ID_MAX_VALUE then ID_DEFAULT else id + 1
  }

  // mQCond.notify_one: only a thread that is waiting notices
  function Notified(w: WorkerPc): WorkerPc { if w.Waiting? then Woken else w }

  /** Which queued task the new one supersedes: the length of the queue if none. */
  function SupersededBy(queue: seq<Task>, name: string): nat
  {
    if name == SET_RATE then FirstNamed(queue, SET_RATE) else |queue|
  }

  function NewQueue(queue: seq<Task>, t: Task): seq<Task> { Without(queue, SupersededBy(queue, t.name)) + [t] }

  /** Lines 78-96, under the queue lock with mLockOut false. */
  function Accepted(s: State, name: string): State
  {
    var i := SupersededBy(s.queue, name);
    var fates := if i < |s.queue| then SetFate(s.fates, s.queue[i].ticket, Superseded) else s.fates;
    s.(queue := NewQueue(s.queue, Task(s.nextId, name, |s.fates|)),
       fates := fates + [Queued], nextId := NextId(s.nextId), worker := Notified(s.worker))
  }

  function RemovedOne(s: State, id: int): State
  {
    var i := FirstWithId(s.queue, id);
    if id != TASK_ID_INVALID && s.current != id && i < |s.queue|
    then s.(queue := Without(s.queue, i), fates := SetFate(s.fates, s.queue[i].ticket, Removed))
    else s
  }

  function RemovedAll(s: State): State
  {
    s.(queue := [], fates := SetFates(s.fates, s.queue, Removed))
  }

  // ---------------------------------------------------------------- steps

  /** One action of ExecuteAsyncTask; None while it is blocked. */
  function WorkerStep(s: State): (r: Option<State>)
  {
    match s.worker
    case NoThread => None
    case Starting => if s.qMutex.Nobody? then Some(s.(worker := LoopHead, qMutex := Worker)) else None
    case LoopHead => if s.running then Some(s.(worker := Checked)) else Some(s.(worker := Exited, qMutex := Nobody))
    case Checked => if s.queue == [] then Some(s.(worker := Waiting, qMutex := Nobody))
                    else Some(s.(worker := WantEx, qMutex := Nobody))
    case Waiting => None
    case Woken => if s.qMutex.Nobody? then Some(s.(worker := LoopHead, qMutex := Worker)) else None
    case WantEx => if s.exMutex.Nobody? then Some(s.(worker := HasEx, exMutex := Worker)) else None
    case HasEx => if s.qMutex.Nobody? then Some(s.(worker := Picking, qMutex := Worker)) else None
    case Picking => Some(Picked(s))
    case Executing(t) => Some(s.(worker := Returned(t)))
    case Returned(t) =>
      if s.qMutex.Nobody?
      then Some(s.(worker := LoopHead, qMutex := Worker, exMutex := Nobody, fates := SetFate(s.fates, t.ticket, Finished)))
      else None
    case Exited => None
  }

  /** Lines 136-161: the queue may have changed while the worker waited for the execution lock. */
  function Picked(s: State): State
  {
    if s.queue == [] then s.(worker := LoopHead, exMutex := Nobody)
    else
      var t := s.queue[0];
      if t.id == TASK_ID_INVALID then
        s.(queue := s.queue[1..], worker := LoopHead, exMutex := Nobody, fates := SetFate(s.fates, t.ticket, Skipped))
      else if s.dead then
        s.(queue := s.queue[1..], current := t.id, worker := LoopHead, exMutex := Nobody,
           fates := SetFate(s.fates, t.ticket, Skipped))
      else
        s.(queue := s.queue[1..], current := t.id, worker := Executing(t), qMutex := Nobody,
           fates := SetFate(s.fates, t.ticket, Running), started := s.started + [t.ticket])
  }

  /** The next action of a controller call in progress; None while it is blocked. */
  function ControllerStep(s: State): (r: Option<State>)
  {
    match s.controller
    case Outside => None
    case Suspended => None
    case SuspendEx(stop) =>
      if s.exMutex.Nobody? then Some(s.(exMutex := Controller, controller := SuspendQ(stop))) else None
    case SuspendQ(stop) =>
      if s.qMutex.Nobody? then Some(s.(lockOut := true, controller := if stop then StopClear else Suspended)) else None
    case ResumeEx(stop) => Some(s.(exMutex := Nobody, controller := ResumeQ(stop)))
    case ResumeQ(stop) =>
      if s.qMutex.Nobody? then Some(s.(lockOut := false, controller := if stop then StopNotify else Outside)) else None
    case StopCheck => Some(s.(controller := if s.lockOut then StopClear else SuspendEx(true)))
    case StopClear =>
      if s.qMutex.Nobody? then Some(RemovedAll(s).(controller := ResumeEx(true))) else None
    case StopNotify => Some(s.(worker := Notified(s.worker), controller := StopJoin))
    case StopJoin =>
      if s.worker.Exited? || s.worker.NoThread? then Some(s.(worker := NoThread, controller := Outside)) else None
  }

  /** A step, or None where it is not enabled. Suspend, Resume and Stop are bracketed by the one controller. */
  function Do(s: State, step: Step): (r: Option<State>)
  {
    match step
    case Work => WorkerStep(s)
    case SpuriousWakeup => if s.worker.Waiting? then Some(s.(worker := Woken)) else None
    case Start =>
      if s.controller.Outside? && s.worker.NoThread? && s.qMutex.Nobody?
      then Some(s.(worker := Starting, running := true)) else None
    case Suspend => if s.controller.Outside? then Some(s.(controller := SuspendEx(false))) else None
    case Resume => if s.controller.Suspended? then Some(s.(controller := ResumeEx(false))) else None
    case Stop =>
      if s.controller.Outside? || s.controller.Suspended?
      then Some(s.(running := false, controller := StopCheck)) else None
    case Control => ControllerStep(s)
    case ClientCheck(c) => if s.running && !s.dead then Some(s.(passed := s.passed + {c})) else None
    case ClientSchedule(c, name) =>
      if c in s.passed && s.qMutex.Nobody?
      then Some((if s.lockOut then s else Accepted(s, name)).(passed := s.passed - {c})) else None
    case RemoveAll => if s.qMutex.Nobody? then Some(RemovedAll(s)) else None
    case Remove(id) => if s.qMutex.Nobody? then Some(RemovedOne(s, id)) else None
    case SetState(dead) => Some(s.(dead := dead))
  }

  /** Any interleaving, as the sequence of its steps. */
  function Run(s: State, steps: seq<Step>): (r: Option<State>)
    decreases |steps|
  {
    if steps == [] then Some(s)
    else
      var r := Run(s, steps[..|steps| - 1]);
      if r.None? then None else Do(r.value, steps[|steps| - 1])
  }

  // ---------------------------------------------------------------- invariants

  ghost predicate WorkerHoldsQ(w: WorkerPc) { w.LoopHead? || w.Checked? || w.Picking? }

  ghost predicate WorkerHoldsEx(w: WorkerPc) { w.HasEx? || w.Picking? || w.Executing? || w.Returned? }

  ghost predicate ControllerHoldsEx(s: State)
  {
    || s.controller.SuspendQ? || s.controller.Suspended? || s.controller.StopClear? || s.controller.ResumeEx?
    || (s.controller.StopCheck? && s.lockOut)
  }

  /** Who holds which lock, and that a stopping controller has made the queue lock its own since clearing mSchedulerRunning. */
  ghost predicate Locks(s: State)
  {
    && (s.qMutex == if WorkerHoldsQ(s.worker) then Worker else Nobody)
    && (s.exMutex == if WorkerHoldsEx(s.worker) then Worker else if ControllerHoldsEx(s) then Controller else Nobody)
    && !(WorkerHoldsEx(s.worker) && ControllerHoldsEx(s))
    && (s.controller.Outside? || s.controller.SuspendEx? || s.controller.SuspendQ? ==> !s.lockOut)
    && (s.controller.StopNotify? || s.controller.StopJoin? ==> !s.lockOut)
    && (s.controller.Suspended? || s.controller.StopClear? || s.controller.ResumeEx? ==> s.lockOut)
    && (Stopping(s.controller) ==> !s.running)
    && (s.controller == ResumeEx(true) || s.controller == ResumeQ(true) || s.controller.StopNotify? || s.controller.StopJoin?
        ==> !s.worker.Checked?)
    && (s.controller.StopJoin? ==> !s.worker.Waiting?)
  }

  ghost predicate Stopping(c: ControllerPc)
  {
    || c.StopCheck? || c.StopClear? || c.StopNotify? || c.StopJoin?
    || c == SuspendEx(true) || c == SuspendQ(true) || c == ResumeEx(true) || c == ResumeQ(true)
  }

  /** Queued tasks carry valid ids and known tickets, in order of acceptance, with at most one SetRate. */
  ghost predicate QueueInOrder(queue: seq<Task>, accepted: nat)
  {
    && (forall i :: 0 <= i < |queue| ==> queue[i].ticket < accepted && queue[i].id != TASK_ID_INVALID)
    && (forall i, j :: 0 <= i < j < |queue| ==> queue[i].ticket < queue[j].ticket)
    && (forall i, j :: 0 <= i < j < |queue| ==> !(queue[i].name == SET_RATE && queue[j].name == SET_RATE))
  }

  ghost function InHand(w: WorkerPc): set<nat>
  {
    if w.Executing? || w.Returned? then {w.task.ticket} else {}
  }

  /** A task is Queued exactly while it is in the queue, and Running exactly while the worker has its body. */
  ghost predicate FatesMatch(fates: seq<Fate>, queued: set<nat>, inHand: set<nat>, started: seq<nat>)
  {
    && (forall t :: t in inHand ==> t < |fates|)
    && (forall t :: 0 <= t < |fates| ==> (fates[t].Queued? <==> t in queued))
    && (forall t :: 0 <= t < |fates| ==> (fates[t].Running? <==> t in inHand))
    && (forall t :: 0 <= t < |fates| ==> (t in started <==> fates[t].Running? || fates[t].Finished?))
  }

  /** Bodies were entered in order of acceptance, before everything still queued. */
  ghost predicate StartsInOrder(started: seq<nat>, queued: set<nat>, accepted: nat)
  {
    && (forall i :: 0 <= i < |started| ==> started[i] < accepted)
    && (forall i, j :: 0 <= i < j < |started| ==> started[i] < started[j])
    && (forall i, t :: 0 <= i < |started| && t in queued ==> started[i] < t)
  }

  ghost predicate Accounts(s: State)
  {
    && QueueInOrder(s.queue, |s.fates|)
    && FatesMatch(s.fates, Tickets(s.queue), InHand(s.worker), s.started)
    && StartsInOrder(s.started, Tickets(s.queue), |s.fates|)
    && ID_DEFAULT <= s.nextId < ID_MAX_VALUE
  }

  lemma StepKeepsLocks(s: State, step: Step)
    requires Locks(s) && Do(s, step).Some?
    ensures Locks(Do(s, step).value)
  {
    hide SetFates, SetFate, Without, FirstNamed, FirstWithId;
    match step
    case Work => WorkKeepsLocks(s);
    case Control => ControlKeepsLocks(s);
    case _ =>
  }

  /** An action of the worker keeps the lock invariant if it accounts for both locks and respects a stop. */
  lemma WorkerMoves(s: State, s': State)
    requires Locks(s) && s'.controller == s.controller && s'.lockOut == s.lockOut && s'.running == s.running
    requires s'.qMutex == if WorkerHoldsQ(s'.worker) then Worker else Nobody
    requires s'.exMutex == if WorkerHoldsEx(s'.worker) then Worker else if WorkerHoldsEx(s.worker) then Nobody else s.exMutex
    requires WorkerHoldsEx(s'.worker) ==> WorkerHoldsEx(s.worker) || s.exMutex.Nobody?
    requires s'.worker.Checked? ==> s.running
    requires s'.worker.Waiting? ==> s.worker.Checked?
    ensures Locks(s')
  {
  }

  lemma PickKeepsLocks(s: State)
    requires Locks(s) && s.worker.Picking?
    ensures Locks(Picked(s))
  {
    hide SetFate, Locks;
    WorkerOwns(s);
    WorkerMoves(s, Picked(s));
  }

  lemma WorkerOwns(s: State)
    requires Locks(s)
    ensures s.qMutex == if WorkerHoldsQ(s.worker) then Worker else Nobody
    ensures WorkerHoldsEx(s.worker) ==> s.exMutex.Worker?
  {
  }

  lemma WorkKeepsLocks(s: State)
    requires Locks(s) && WorkerStep(s).Some?
    ensures Locks(WorkerStep(s).value)
  {
    hide SetFate, Picked, Locks;
    if s.worker.Picking? {
      PickKeepsLocks(s);
    } else {
      WorkerOwns(s);
      QueueLockMoves(s);
      ExecutionLockMoves(s);
      WorkerMoves(s, WorkerStep(s).value);
    }
  }

  lemma QueueLockMoves(s: State)
    requires s.qMutex == if WorkerHoldsQ(s.worker) then Worker else Nobody
    requires WorkerStep(s).Some? && !s.worker.Picking?
    ensures var s' := WorkerStep(s).value; s'.qMutex == if WorkerHoldsQ(s'.worker) then Worker else Nobody
  {
    hide SetFate, Picked;
  }

  lemma ExecutionLockMoves(s: State)
    requires WorkerHoldsEx(s.worker) ==> s.exMutex.Worker?
    requires WorkerStep(s).Some? && !s.worker.Picking?
    ensures var s' := WorkerStep(s).value;
            s'.exMutex == if WorkerHoldsEx(s'.worker) then Worker else if WorkerHoldsEx(s.worker) then Nobody else s.exMutex
  {
    hide SetFate, Picked;
  }

  lemma ControlKeepsLocks(s: State)
    requires Locks(s) && ControllerStep(s).Some?
    ensures Locks(ControllerStep(s).value)
  {
  }

  // ---------------------------------------------------------------- task accounting, step by step

  lemma WithoutKeepsOrder(queue: seq<Task>, i: nat, n: nat)
    requires QueueInOrder(queue, n) && i < |queue|
    ensures QueueInOrder(Without(queue, i), n)
    ensures Tickets(Without(queue, i)) == Tickets(queue) - {queue[i].ticket}
  {
    var rest := Without(queue, i);
    forall t ensures t in Tickets(rest) <==> t in Tickets(queue) - {queue[i].ticket} {
      if t in Tickets(queue) - {queue[i].ticket} {
        var k :| 0 <= k < |queue| && queue[k].ticket == t;
        assert rest[if k < i then k else k - 1] == queue[k];
      }
    }
  }

  lemma AcceptKeepsAccounts(s: State, name: string)
    requires Accounts(s)
    ensures Accounts(Accepted(s, name))
  {
    hide QueueInOrder, FatesMatch, StartsInOrder, Without, SetFate, Tickets;
    var i := SupersededBy(s.queue, name);
    AcceptedQueue(s, name);
    AcceptedTickets(s, i, Task(s.nextId, name, |s.fates|));
    AcceptedFates(s, i);
    AcceptedStarts(s.started, Tickets(s.queue), if i < |s.queue| then {s.queue[i].ticket} else {}, |s.fates|);
    if i < |s.queue| { SetFateKeepsCount(s.fates, s.queue[i].ticket, Superseded); }
  }

  lemma AcceptedQueue(s: State, name: string)
    requires QueueInOrder(s.queue, |s.fates|) && s.nextId != TASK_ID_INVALID
    ensures QueueInOrder(Accepted(s, name).queue, |s.fates| + 1)
  {
    var i := SupersededBy(s.queue, name);
    if i < |s.queue| {
      WithoutKeepsOrder(s.queue, i, |s.fates|);
      OnlySetRate(s.queue, i, |s.fates|);
    }
    AppendKeepsOrder(Without(s.queue, i), Task(s.nextId, name, |s.fates|), |s.fates|);
  }

  lemma AcceptedTickets(s: State, i: nat, t: Task)
    requires Accounts(s) && i <= |s.queue|
    ensures Tickets(Without(s.queue, i) + [t]) ==
            Tickets(s.queue) - (if i < |s.queue| then {s.queue[i].ticket} else {}) + {t.ticket}
  {
    var rest := Without(s.queue, i);
    if i < |s.queue| { WithoutKeepsOrder(s.queue, i, |s.fates|); }
    forall k ensures k in Tickets(rest + [t]) <==> k in Tickets(rest) + {t.ticket} {
      if k in Tickets(rest) {
        var j :| 0 <= j < |rest| && rest[j].ticket == k;
        assert (rest + [t])[j] == rest[j];
      }
      assert (rest + [t])[|rest|] == t;
    }
  }

  lemma AcceptedFates(s: State, i: nat)
    requires Accounts(s) && i <= |s.queue|
    ensures var dropped := if i < |s.queue| then {s.queue[i].ticket} else {};
            var fates := if i < |s.queue| then SetFate(s.fates, s.queue[i].ticket, Superseded) else s.fates;
            FatesMatch(fates + [Queued], Tickets(s.queue) - dropped + {|s.fates|}, InHand(s.worker), s.started)
  {
    if i < |s.queue| { assert s.queue[i].ticket in Tickets(s.queue); }
    forall t | t in s.started ensures t < |s.fates| { var k :| 0 <= k < |s.started| && s.started[k] == t; }
  }

  lemma AcceptedStarts(started: seq<nat>, queued: set<nat>, dropped: set<nat>, n: nat)
    requires StartsInOrder(started, queued, n)
    ensures StartsInOrder(started, queued - dropped + {n}, n + 1)
  {
  }

  lemma OnlySetRate(queue: seq<Task>, i: nat, n: nat)
    requires QueueInOrder(queue, n) && i < |queue|
    ensures queue[i].name == SET_RATE ==>
              forall k :: 0 <= k < |Without(queue, i)| ==> Without(queue, i)[k].name != SET_RATE
  {
  }

  lemma AppendKeepsOrder(queue: seq<Task>, t: Task, n: nat)
    requires QueueInOrder(queue, n) && t.ticket == n && t.id != TASK_ID_INVALID
    requires t.name == SET_RATE ==> forall k :: 0 <= k < |queue| ==> queue[k].name != SET_RATE
    ensures QueueInOrder(queue + [t], n + 1)
  {
  }

  lemma RemoveOneKeepsAccounts(s: State, id: int)
    requires Accounts(s)
    ensures Accounts(RemovedOne(s, id))
  {
    hide QueueInOrder, FatesMatch, StartsInOrder, Without, SetFate, Tickets;
    var i := FirstWithId(s.queue, id);
    if i < |s.queue| {
      WithoutKeepsOrder(s.queue, i, |s.fates|);
      RemovedFates(s, i);
      SetFateKeepsCount(s.fates, s.queue[i].ticket, Removed);
    }
  }

  lemma RemovedFates(s: State, i: nat)
    requires Accounts(s) && i < |s.queue|
    ensures var t := s.queue[i].ticket;
            && FatesMatch(SetFate(s.fates, t, Removed), Tickets(s.queue) - {t}, InHand(s.worker), s.started)
            && StartsInOrder(s.started, Tickets(s.queue) - {t}, |s.fates|)
  {
    assert s.queue[i].ticket in Tickets(s.queue);
  }

  lemma RemoveAllKeepsAccounts(s: State)
    requires Accounts(s)
    ensures Accounts(RemovedAll(s))
  {
  }

  /** The head of the queue gets a new fate; it is in hand exactly if that is Running. */
  lemma HeadTaken(s: State, fate: Fate)
    requires Accounts(s) && s.queue != [] && InHand(s.worker) == {} && (fate.Running? || fate.Skipped?)
    ensures var t := s.queue[0].ticket;
            && t < |s.fates| && QueueInOrder(s.queue[1..], |s.fates|) && Tickets(s.queue[1..]) == Tickets(s.queue) - {t}
            && (fate.Skipped? ==> FatesMatch(SetFate(s.fates, t, fate), Tickets(s.queue) - {t}, {}, s.started))
            && (fate.Running? ==> FatesMatch(SetFate(s.fates, t, fate), Tickets(s.queue) - {t}, {t}, s.started + [t]))
  {
    WithoutKeepsOrder(s.queue, 0, |s.fates|);
    assert Without(s.queue, 0) == s.queue[1..];
    assert s.queue[0].ticket in Tickets(s.queue);
  }

  lemma HeadStarted(s: State)
    requires Accounts(s) && s.queue != []
    ensures var t := s.queue[0].ticket;
            && StartsInOrder(s.started, Tickets(s.queue) - {t}, |s.fates|)
            && StartsInOrder(s.started + [t], Tickets(s.queue) - {t}, |s.fates|)
  {
    assert s.queue[0].ticket in Tickets(s.queue);
    forall t | t in Tickets(s.queue) - {s.queue[0].ticket} ensures s.queue[0].ticket < t {}
  }

  lemma PickKeepsAccounts(s: State)
    requires Accounts(s) && s.worker.Picking?
    ensures Accounts(Picked(s))
  {
    hide QueueInOrder, FatesMatch, StartsInOrder, SetFate, Tickets;
    if s.queue != [] {
      HeadTaken(s, Skipped);
      HeadTaken(s, Running);
      HeadStarted(s);
      SetFateKeepsCount(s.fates, s.queue[0].ticket, Skipped);
      SetFateKeepsCount(s.fates, s.queue[0].ticket, Running);
    }
  }

  lemma SetFateKeepsCount(fates: seq<Fate>, t: nat, f: Fate)
    ensures |SetFate(fates, t, f)| == |fates|
  {
  }

  lemma SameAccounts(s: State, s': State)
    requires Accounts(s) && s'.queue == s.queue && s'.fates == s.fates && s'.started == s.started
    requires s'.nextId == s.nextId && InHand(s'.worker) == InHand(s.worker)
    ensures Accounts(s')
  {
  }

  lemma ReturnKeepsAccounts(s: State)
    requires Accounts(s) && s.worker.Returned? && WorkerStep(s).Some?
    ensures Accounts(WorkerStep(s).value)
  {
    assert s.worker.task.ticket in InHand(s.worker);
  }

  lemma WorkKeepsAccounts(s: State)
    requires Accounts(s) && WorkerStep(s).Some?
    ensures Accounts(WorkerStep(s).value)
  {
    hide Picked, Accounts;
    if s.worker.Picking? {
      PickKeepsAccounts(s);
    } else if s.worker.Returned? {
      ReturnKeepsAccounts(s);
    } else {
      SameAccounts(s, WorkerStep(s).value);
    }
  }

  lemma ControlKeepsAccounts(s: State)
    requires Accounts(s) && ControllerStep(s).Some?
    ensures Accounts(ControllerStep(s).value)
  {
    hide RemovedAll, Accounts;
    if s.controller.StopClear? {
      RemoveAllKeepsAccounts(s);
      SameAccounts(RemovedAll(s), ControllerStep(s).value);
    } else {
      SameAccounts(s, ControllerStep(s).value);
    }
  }

  lemma StepKeepsAccounts(s: State, step: Step)
    requires Accounts(s) && Do(s, step).Some?
    ensures Accounts(Do(s, step).value)
  {
    hide WorkerStep, ControllerStep, Accepted, RemovedOne, RemovedAll, Accounts;
    match step
    case Work => WorkKeepsAccounts(s);
    case Control => ControlKeepsAccounts(s);
    case ClientSchedule(c, name) =>
      AcceptKeepsAccounts(s, name);
      SameAccounts(if s.lockOut then s else Accepted(s, name), Do(s, step).value);
    case RemoveAll => RemoveAllKeepsAccounts(s);
    case Remove(id) => RemoveOneKeepsAccounts(s, id);
    case _ => SameAccounts(s, Do(s, step).value);
  }

  /** The worker sleeps on the condition only while there is nothing to do. */
  ghost predicate NothingMissed(s: State) { s.worker.Waiting? ==> s.queue == [] }

  lemma StepKeepsNothingMissed(s: State, step: Step)
    requires NothingMissed(s) && Do(s, step).Some?
    ensures NothingMissed(Do(s, step).value)
  {
    hide SetFates, SetFate, FirstNamed, FirstWithId;
  }

  // ---------------------------------------------------------------- every run

  lemma {:induction false} RunKeepsInvariants(steps: seq<Step>)
    requires Run(INITIAL, steps).Some?
    ensures Locks(Run(INITIAL, steps).value) && Accounts(Run(INITIAL, steps).value)
    ensures NothingMissed(Run(INITIAL, steps).value)
  {
    hide Do, Locks, Accounts, NothingMissed;
    if steps == [] {
      InitiallyFine();
    } else {
      var before := steps[..|steps| - 1];
      RunKeepsInvariants(before);
      StepKeepsLocks(Run(INITIAL, before).value, steps[|steps| - 1]);
      StepKeepsAccounts(Run(INITIAL, before).value, steps[|steps| - 1]);
      StepKeepsNothingMissed(Run(INITIAL, before).value, steps[|steps| - 1]);
    }
  }

  lemma InitiallyFine()
    ensures Locks(INITIAL) && Accounts(INITIAL) && NothingMissed(INITIAL)
  {
  }

  /** Reached by some interleaving from a new scheduler. */
  ghost predicate Reachable(s: State)
  {
    exists steps :: Run(INITIAL, steps) == Some(s)
  }

  lemma ReachableFine(s: State)
    requires Reachable(s)
    ensures Locks(s) && Accounts(s) && NothingMissed(s)
  {
    var steps :| Run(INITIAL, steps) == Some(s);
    RunKeepsInvariants(steps);
  }

  /**
   Between the return of SuspendScheduler and the call of ResumeScheduler (or StopScheduler) no task
   body runs, none is entered, and no task is accepted.
   */
  lemma SuspendedIsQuiet(s: State, step: Step)
    requires Reachable(s) && s.controller.Suspended?
    ensures !s.worker.Executing? && s.lockOut
    ensures Do(s, step).Some? ==>
              Do(s, step).value.started == s.started && |Do(s, step).value.fates| == |s.fates|
  {
    ReachableFine(s);
  }

  /** No lost wake-up: whenever a task is queued the worker is not asleep on the condition. */
  lemma QueuedTaskIsNoticed(s: State)
    requires Reachable(s) && s.queue != []
    ensures !s.worker.Waiting?
  {
    ReachableFine(s);
  }

  // ---------------------------------------------------------------- StopScheduler's join

  /** How many more actions the worker needs to exit once mSchedulerRunning is false. */
  function StepsToExit(w: WorkerPc): nat
  {
    match w
    case NoThread => 0
    case Exited => 0
    case LoopHead => 1
    case Starting => 2
    case Woken => 2
    case Returned(_) => 2
    case Executing(_) => 3
    case Picking => 4
    case HasEx => 5
    case WantEx => 6
    case Checked => 7
    case Waiting => 7
  }

  function WorkerActions(steps: seq<Step>): nat
  {
    if steps == [] then 0
    else WorkerActions(steps[..|steps| - 1]) + (if steps[|steps| - 1].Work? then 1 else 0)
  }

  lemma JoinStep(s: State, step: Step)
    requires Locks(s) && s.controller.StopJoin? && step != Control
    ensures StepsToExit(s.worker) <= 6
    ensures StepsToExit(s.worker) > 0 ==> WorkerStep(s).Some?
    ensures Do(s, step).Some? ==>
              && Do(s, step).value.controller.StopJoin?
              && StepsToExit(Do(s, step).value.worker) + (if step.Work? then 1 else 0) <= StepsToExit(s.worker)
  {
  }

  lemma {:induction false} JoinIsBounded(s: State, steps: seq<Step>)
    requires Locks(s) && s.controller.StopJoin? && Run(s, steps).Some? && Control !in steps
    ensures var e := Run(s, steps).value;
            && Locks(e) && e.controller.StopJoin?
            && WorkerActions(steps) + StepsToExit(e.worker) <= StepsToExit(s.worker) <= 6
            && (StepsToExit(e.worker) > 0 ==> WorkerStep(e).Some?)
  {
    hide Do, WorkerStep, ControllerStep;
    if steps == [] {
      JoinStep(s, SetState(s.dead));
    } else {
      var before, last := steps[..|steps| - 1], steps[|steps| - 1];
      JoinIsBounded(s, before);
      assert last in steps;
      StepKeepsLocks(Run(s, before).value, last);
      JoinStep(Run(s, before).value, last);
      JoinStep(Run(s, steps).value, SetState(s.dead));
    }
  }

  /**
   Once StopScheduler is at its join the worker is never left blocked. Whatever the clients do from
   there on, the worker is not in the condition wait, has an enabled action until it exits, and
   exits after at most six of its own actions; then the join returns.
   */
  lemma JoinNeverHangs(s: State, steps: seq<Step>)
    requires Reachable(s) && s.controller.StopJoin? && Run(s, steps).Some? && Control !in steps
    ensures var e := Run(s, steps).value;
            && WorkerActions(steps) <= 6 && !e.worker.Waiting?
            && (WorkerStep(e).Some? || (ControllerStep(e).Some? && ControllerStep(e).value.controller.Outside?))
  {
    ReachableFine(s);
    JoinIsBounded(s, steps);
  }

  /** No call of the controller is stuck for good: it can act, or the worker can. */
  lemma NoDeadlock(s: State)
    requires Reachable(s) && !s.controller.Outside? && !s.controller.Suspended?
    ensures ControllerStep(s).Some? || WorkerStep(s).Some?
  {
    ReachableFine(s);
  }

  // ---------------------------------------------------------------- the controller's calls

  /** How many of its own actions the call in progress needs to return. */
  function ActionsLeft(s: State): nat
  {
    match s.controller
    case Outside => 0
    case Suspended => 0
    case SuspendEx(stop) => if stop then 7 else 2
    case SuspendQ(stop) => if stop then 6 else 1
    case ResumeEx(stop) => if stop then 4 else 2
    case ResumeQ(stop) => if stop then 3 else 1
    case StopCheck => if s.lockOut then 6 else 8
    case StopClear => 5
    case StopNotify => 2
    case StopJoin => 1
  }

  /**
   Every action of a call brings it one closer to its return. SuspendScheduler returns with the lock-out
   set, ResumeScheduler with it cleared, and StopScheduler with it cleared, mSchedulerRunning
   false and no worker thread; a call never turns into another.
   */
  lemma CallsComplete(s: State)
    requires Reachable(s) && ControllerStep(s).Some?
    ensures var s' := ControllerStep(s).value;
            && ActionsLeft(s') + 1 == ActionsLeft(s)
            && (Stopping(s.controller) ==>
                  Stopping(s'.controller) || (s'.controller.Outside? && !s'.lockOut && !s'.running && s'.worker.NoThread?))
            && (s.controller == SuspendEx(false) ==> s'.controller == SuspendQ(false))
            && (s.controller == SuspendQ(false) ==> s'.controller.Suspended? && s'.lockOut)
            && (s.controller == ResumeEx(false) ==> s'.controller == ResumeQ(false))
            && (s.controller == ResumeQ(false) ==> s'.controller.Outside? && !s'.lockOut)
            && (s.controller.StopClear? ==> s'.queue == [])
  {
    hide SetFates, Tickets;
    ReachableFine(s);
  }

  /** Who can act: calls from outside whenever their brackets and the queue lock allow it, the worker unless it waits for a lock, a task or its end. */
  lemma WhoCanAct(s: State, c: nat, name: string, id: int)
    requires Reachable(s)
    ensures Do(s, Suspend).Some? <==> s.controller.Outside?
    ensures Do(s, Resume).Some? <==> s.controller.Suspended?
    ensures Do(s, Stop).Some? <==> s.controller.Outside? || s.controller.Suspended?
    ensures Do(s, Start).Some? <==> s.controller.Outside? && s.worker.NoThread?
    ensures Do(s, RemoveAll).Some? <==> !WorkerHoldsQ(s.worker)
    ensures Do(s, Remove(id)).Some? <==> !WorkerHoldsQ(s.worker)
    ensures Do(s, ClientCheck(c)).Some? <==> s.running && !s.dead
    ensures Do(s, ClientSchedule(c, name)).Some? <==> c in s.passed && !WorkerHoldsQ(s.worker)
    ensures WorkerStep(s).Some? <==>
            !s.worker.NoThread? && !s.worker.Exited? && !s.worker.Waiting? && !(s.worker.WantEx? && ControllerHoldsEx(s))
  {
    hide SetFate, SetFates, Tickets, FirstNamed, FirstWithId, Without, Picked;
    ReachableFine(s);
  }

  /** Calls begin as asked for, and only their own actions move them. */
  lemma CallsBegin(s: State, step: Step)
    requires Do(s, step).Some?
    ensures var s' := Do(s, step).value;
            && (step.Suspend? ==> s'.controller == SuspendEx(false))
            && (step.Resume? ==> s.controller.Suspended? && s'.controller == ResumeEx(false))
            && (step.Stop? ==> s'.controller.StopCheck? && !s'.running)
            && (step.Start? ==> s.worker.NoThread? && s'.running && s'.worker.Starting? && s'.controller == s.controller)
            && (!step.Suspend? && !step.Resume? && !step.Stop? && !step.Control? ==> s'.controller == s.controller)
            && (s'.running != s.running ==> step.Start? || step.Stop?)
            && (s'.lockOut != s.lockOut ==> step.Control?)
            && s'.dead == (if step.SetState? then step.dead else s.dead)
  {
    hide SetFate, SetFates, Tickets, FirstNamed, FirstWithId, Without, Picked, WorkerStep;
    if step.Work? { WorkerLeavesControl(s); }
  }

  lemma WorkerLeavesControl(s: State)
    requires WorkerStep(s).Some?
    ensures WorkerStep(s).value.controller == s.controller && WorkerStep(s).value.running == s.running
    ensures WorkerStep(s).value.lockOut == s.lockOut && WorkerStep(s).value.dead == s.dead
  {
    hide SetFate;
  }

  // ---------------------------------------------------------------- every accepted task

  /** t is queued, and nothing queued was accepted before it. */
  ghost predicate OldestQueued(s: State, t: nat)
  {
    t < |s.fates| && s.fates[t].Queued? && forall u :: 0 <= u < |s.fates| && s.fates[u].Queued? ==> t <= u
  }

  ghost predicate QueuedWith(s: State, t: nat, name: Option<string>, id: Option<int>)
  {
    exists i :: 0 <= i < |s.queue| && s.queue[i].ticket == t &&
      (name.Some? ==> s.queue[i].name == name.value) && (id.Some? ==> s.queue[i].id == id.value)
  }

  /** Why a step may change the fate of task t: which fates follow which, and under what conditions. */
  ghost predicate MayBecome(s: State, step: Step, t: nat, f': Fate)
    requires t < |s.fates|
  {
    var f := s.fates[t];
    || f' == f
    || (f.Queued? && f'.Running? && step.Work? && s.worker.Picking? && !s.dead && OldestQueued(s, t))
    || (f.Queued? && f'.Skipped? && step.Work? && s.worker.Picking? && s.dead && OldestQueued(s, t))
    || (f.Queued? && f'.Superseded? && step.ClientSchedule? && step.name == SET_RATE && !s.lockOut
        && QueuedWith(s, t, Some(SET_RATE), None))
    || (f.Queued? && f'.Removed?
        && (|| step.RemoveAll? || (step.Control? && s.controller.StopClear?)
            || (step.Remove? && step.id != s.current && QueuedWith(s, t, None, Some(step.id)))))
    || (f.Running? && f'.Finished? && step.Work? && s.worker.Returned?)
  }

  /** No task is forgotten, and every fate stays or moves on for a reason. */
  ghost predicate Forward(s: State, step: Step, fates': seq<Fate>)
  {
    |s.fates| <= |fates'| && forall t :: 0 <= t < |s.fates| ==> MayBecome(s, step, t, fates'[t])
  }

  lemma SameIsForward(s: State, step: Step)
    ensures Forward(s, step, s.fates)
  {
  }

  lemma OneMovesForward(s: State, step: Step, t: nat, f: Fate)
    requires t < |s.fates| && MayBecome(s, step, t, f)
    ensures Forward(s, step, SetFate(s.fates, t, f)) && |SetFate(s.fates, t, f)| == |s.fates|
  {
    hide MayBecome;
    forall u | 0 <= u < |s.fates| && u != t ensures MayBecome(s, step, u, s.fates[u]) { FateMayStay(s, step, u); }
  }

  lemma FateMayStay(s: State, step: Step, t: nat)
    requires t < |s.fates|
    ensures MayBecome(s, step, t, s.fates[t])
  {
  }

  lemma QueuedFate(s: State, i: nat)
    requires Accounts(s) && i < |s.queue|
    ensures s.queue[i].ticket < |s.fates| && s.fates[s.queue[i].ticket].Queued?
    ensures QueuedWith(s, s.queue[i].ticket, Some(s.queue[i].name), None) && QueuedWith(s, s.queue[i].ticket, None, Some(s.queue[i].id))
  {
    assert s.queue[i].ticket in Tickets(s.queue);
  }

  lemma HeadIsOldest(s: State)
    requires Accounts(s) && s.queue != []
    ensures OldestQueued(s, s.queue[0].ticket)
  {
    QueuedFate(s, 0);
    forall u | 0 <= u < |s.fates| && s.fates[u].Queued? ensures s.queue[0].ticket <= u {
      assert u in Tickets(s.queue);
    }
  }

  lemma HeadHasId(s: State)
    requires Accounts(s) && s.queue != []
    ensures s.queue[0].id != TASK_ID_INVALID
  {
  }

  lemma WorkIsForward(s: State)
    requires Accounts(s) && WorkerStep(s).Some?
    ensures Forward(s, Work, WorkerStep(s).value.fates)
  {
    hide Accounts, Forward, SetFate;
    SameIsForward(s, Work);
    if s.worker.Picking? && s.queue != [] {
      QueuedFate(s, 0);
      HeadIsOldest(s);
      HeadHasId(s);
      OneMovesForward(s, Work, s.queue[0].ticket, if s.dead then Skipped else Running);
    } else if s.worker.Returned? {
      RunningFate(s);
      OneMovesForward(s, Work, s.worker.task.ticket, Finished);
    }
  }

  lemma RunningFate(s: State)
    requires Accounts(s) && s.worker.Returned?
    ensures s.worker.task.ticket < |s.fates| && s.fates[s.worker.task.ticket].Running?
  {
    assert s.worker.task.ticket in InHand(s.worker);
  }

  lemma ControlIsForward(s: State)
    requires Accounts(s) && ControllerStep(s).Some?
    ensures Forward(s, Control, ControllerStep(s).value.fates)
  {
    hide RemovedAll, Accounts, Forward;
    SameIsForward(s, Control);
    if s.controller.StopClear? { RemoveAllIsForward(s, Control); }
  }

  lemma AcceptIsForward(s: State, c: nat, name: string)
    requires Accounts(s) && !s.lockOut
    ensures Forward(s, ClientSchedule(c, name), Accepted(s, name).fates)
  {
    hide Accounts, SetFate, MayBecome;
    var i, step := SupersededBy(s.queue, name), ClientSchedule(c, name);
    SameIsForward(s, step);
    if i < |s.queue| {
      QueuedFate(s, i);
      MaySupersede(s, c, i);
      OneMovesForward(s, step, s.queue[i].ticket, Superseded);
    }
  }

  lemma MaySupersede(s: State, c: nat, i: nat)
    requires i < |s.queue| && s.queue[i].ticket < |s.fates| && s.fates[s.queue[i].ticket].Queued? && !s.lockOut
    requires QueuedWith(s, s.queue[i].ticket, Some(SET_RATE), None)
    ensures MayBecome(s, ClientSchedule(c, SET_RATE), s.queue[i].ticket, Superseded)
  {
  }

  lemma RemoveOneIsForward(s: State, id: int)
    requires Accounts(s)
    ensures Forward(s, Remove(id), RemovedOne(s, id).fates)
  {
    hide Accounts, SetFate, Forward;
    SameIsForward(s, Remove(id));
    var i := FirstWithId(s.queue, id);
    if id != TASK_ID_INVALID && s.current != id && i < |s.queue| {
      QueuedFate(s, i);
      OneMovesForward(s, Remove(id), s.queue[i].ticket, Removed);
    }
  }

  lemma RemoveAllIsForward(s: State, step: Step)
    requires Accounts(s) && (step.RemoveAll? || (step.Control? && s.controller.StopClear?))
    ensures Forward(s, step, RemovedAll(s).fates)
  {
    hide QueueInOrder, StartsInOrder;
  }

  /**
   A fate only moves forward, and only for a reason: the oldest queued task starts if the player is
   live and is skipped if it is in error or released, a later SetRate supersedes a queued one,
   RemoveTask and RemoveAllTasks remove what they name, and a body in hand finishes.
   */
  lemma FatesMoveForward(s: State, step: Step)
    requires Reachable(s) && Do(s, step).Some?
    ensures Forward(s, step, Do(s, step).value.fates)
  {
    hide WorkerStep, ControllerStep, Accepted, RemovedOne, RemovedAll, Accounts, Forward, Locks, NothingMissed;
    ReachableFine(s);
    SameIsForward(s, step);
    match step
    case Work => WorkIsForward(s);
    case Control => ControlIsForward(s);
    case ClientSchedule(c, name) => if !s.lockOut { AcceptIsForward(s, c, name); }
    case RemoveAll => RemoveAllIsForward(s, step);
    case Remove(id) => RemoveOneIsForward(s, id);
    case _ =>
  }

  /** At the queue with both locks the worker takes the oldest queued task: it runs if the player is live, else it is skipped. */
  lemma PickTakesOldest(s: State)
    requires Reachable(s) && s.worker.Picking? && s.queue != []
    ensures WorkerStep(s).Some? && OldestQueued(s, s.queue[0].ticket)
    ensures var s', t := WorkerStep(s).value, s.queue[0];
            && s'.queue == s.queue[1..] && s'.current == t.id && |s'.fates| == |s.fates|
            && (!s.dead ==> s'.worker == Executing(t) && s'.started == s.started + [t.ticket] && s'.fates[t.ticket].Running?)
            && (s.dead ==> s'.worker == LoopHead && s'.started == s.started && s'.fates[t.ticket].Skipped?)
  {
    ReachableFine(s);
    HeadIsOldest(s);
    HeadHasId(s);
  }

  /** Every queued task but the one superseded is still queued, at the same place in the order. */
  ghost predicate SameButFor(queue: seq<Task>, queue': seq<Task>, i: nat)
  {
    if i < |queue| then queue' == queue[..i] + queue[i + 1..] else queue' == queue
  }

  ghost predicate SupersededAt(s: State, s': State, rest: seq<Task>, i: int)
  {
    && 0 <= i < |s.queue| && s.queue[i].name == SET_RATE && SameButFor(s.queue, rest, i)
    && s.queue[i].ticket < |s'.fates| && s'.fates[s.queue[i].ticket].Superseded?
  }

  /** The first queued task with the id is gone. */
  ghost predicate RemovedFrom(s: State, s': State, id: int, i: int)
  {
    && 0 <= i < |s.queue| && s.queue[i].id == id && SameButFor(s.queue, s'.queue, i)
    && forall j :: 0 <= j < i ==> s.queue[j].id != id
  }

  /**
   ScheduleTask at its queue lock: while locked out nothing changes; otherwise the task is queued last
   under the next ticket, a SetRate takes the place of the one queued before, and the worker is awake.
   */
  lemma ScheduleQueuesLast(s: State, c: nat, name: string)
    requires Reachable(s) && Do(s, ClientSchedule(c, name)).Some?
    ensures c in s.passed
    ensures var s' := Do(s, ClientSchedule(c, name)).value;
            && s'.passed == s.passed - {c}
            && (s.lockOut ==> s'.queue == s.queue && s'.fates == s.fates)
            && (!s.lockOut ==>
                  && |s'.fates| == |s.fates| + 1 && s'.fates[|s.fates|].Queued? && s'.queue != [] && !s'.worker.Waiting?
                  && s'.queue[|s'.queue| - 1].name == name && s'.queue[|s'.queue| - 1].ticket == |s.fates|
                  && (var rest := s'.queue[..|s'.queue| - 1];
                      if name == SET_RATE && exists i :: 0 <= i < |s.queue| && s.queue[i].name == SET_RATE
                      then exists i :: SupersededAt(s, s', rest, i)
                      else rest == s.queue))
  {
    ReachableFine(s);
    var s' := Do(s, ClientSchedule(c, name)).value;
    if !s.lockOut {
      var i, t := SupersededBy(s.queue, name), Task(s.nextId, name, |s.fates|);
      var rest := Without(s.queue, i);
      assert s'.queue == rest + [t];
      assert s'.queue[..|s'.queue| - 1] == rest;
      if i < |s.queue| {
        QueuedFate(s, i);
        assert SupersededAt(s, s', rest, i);
      }
    }
  }

  /** RemoveAllTasks empties the queue and removes exactly what was queued. */
  lemma RemoveAllRemovesQueued(s: State, t: nat)
    requires Reachable(s) && Do(s, RemoveAll).Some? && t < |s.fates|
    ensures var s' := Do(s, RemoveAll).value;
            s'.queue == [] && |s'.fates| == |s.fates| && s'.fates[t] == if s.fates[t].Queued? then Removed else s.fates[t]
  {
    ReachableFine(s);
  }

  /** RemoveTask takes the first queued task with the id out, unless the id is invalid or that of the current task. */
  lemma RemoveTakesFirst(s: State, id: int)
    requires Reachable(s) && Do(s, Remove(id)).Some?
    ensures var s' := Do(s, Remove(id)).value;
            if id != TASK_ID_INVALID && id != s.current && exists i :: 0 <= i < |s.queue| && s.queue[i].id == id
            then exists i :: RemovedFrom(s, s', id, i)
            else s' == s
  {
    var i := FirstWithId(s.queue, id);
    var s' := Do(s, Remove(id)).value;
    if id != TASK_ID_INVALID && id != s.current && i < |s.queue| { assert RemovedFrom(s, s', id, i); }
  }

  /** Tasks are accepted only from clients that found the scheduler running and the player live. */
  lemma OnlyCheckedClients(s: State, step: Step, c: nat)
    requires Do(s, step).Some?
    ensures var s' := Do(s, step).value;
            && (c in s'.passed && c !in s.passed ==> step == ClientCheck(c) && s.running && !s.dead)
            && (step == ClientCheck(c) ==> c in s'.passed)
            && (|s'.fates| > |s.fates| ==> step.ClientSchedule? && step.client in s.passed && !s.lockOut)
  {
    hide FirstNamed, FirstWithId, Without, Tickets, WorkerStep;
    if step.Work? { WorkKeepsCount(s); }
  }

  lemma WorkKeepsCount(s: State)
    requires WorkerStep(s).Some?
    ensures |WorkerStep(s).value.fates| == |s.fates| && WorkerStep(s).value.passed == s.passed
  {
  }

  // ---------------------------------------------------------------- task ids

  /** Ids are handed out in turn, from ID_DEFAULT up and around. */
  ghost function IdOf(ticket: nat): int { ID_DEFAULT + ticket % (ID_MAX_VALUE - ID_DEFAULT) }

  ghost predicate IdsInTurn(s: State)
  {
    s.nextId == IdOf(|s.fates|) && forall i :: 0 <= i < |s.queue| ==> s.queue[i].id == IdOf(s.queue[i].ticket)
  }

  lemma NextIdInTurn(n: nat)
    ensures NextId(IdOf(n)) == IdOf(n + 1)
  {
  }

  lemma StepKeepsIds(s: State, step: Step)
    requires IdsInTurn(s) && Do(s, step).Some?
    ensures IdsInTurn(Do(s, step).value)
  {
    hide IdOf, NextId, WorkerStep, ControllerStep, Accepted, RemovedOne, RemovedAll, IdsInTurn;
    match step
    case Work => WorkKeepsIds(s);
    case Control => ControlKeepsIds(s);
    case ClientSchedule(c, name) =>
      AcceptKeepsIds(s, name);
      FewerIds(if s.lockOut then s else Accepted(s, name), Do(s, step).value);
    case RemoveAll => RemoveAllKeepsIds(s);
    case Remove(id) => RemoveOneKeepsIds(s, id);
    case _ => FewerIds(s, Do(s, step).value);
  }

  lemma FewerIds(s: State, s': State)
    requires IdsInTurn(s) && s'.nextId == s.nextId && |s'.fates| == |s.fates|
    requires forall i :: 0 <= i < |s'.queue| ==> s'.queue[i] in s.queue
    ensures IdsInTurn(s')
  {
  }

  lemma WorkKeepsIds(s: State)
    requires IdsInTurn(s) && WorkerStep(s).Some?
    ensures IdsInTurn(WorkerStep(s).value)
  {
    hide IdsInTurn, WorkerStep;
    WorkKeepsCount(s);
    WorkTakesHead(s);
    FewerIds(s, WorkerStep(s).value);
  }

  lemma WorkTakesHead(s: State)
    requires WorkerStep(s).Some?
    ensures WorkerStep(s).value.nextId == s.nextId
    ensures WorkerStep(s).value.queue == s.queue || (s.queue != [] && WorkerStep(s).value.queue == s.queue[1..])
  {
    hide SetFate;
  }

  lemma ControlKeepsIds(s: State)
    requires IdsInTurn(s) && ControllerStep(s).Some?
    ensures IdsInTurn(ControllerStep(s).value)
  {
    hide IdsInTurn;
    FewerIds(s, ControllerStep(s).value);
  }

  lemma RemoveAllKeepsIds(s: State)
    requires IdsInTurn(s)
    ensures IdsInTurn(RemovedAll(s))
  {
    hide IdsInTurn;
    FewerIds(s, RemovedAll(s));
  }

  lemma RemoveOneKeepsIds(s: State, id: int)
    requires IdsInTurn(s)
    ensures IdsInTurn(RemovedOne(s, id))
  {
    hide IdsInTurn;
    FewerIds(s, RemovedOne(s, id));
  }

  lemma AcceptKeepsIds(s: State, name: string)
    requires IdsInTurn(s)
    ensures IdsInTurn(Accepted(s, name))
  {
    hide IdOf, NextId;
    NextIdInTurn(|s.fates|);
    var i, s' := SupersededBy(s.queue, name), Accepted(s, name);
    var rest := Without(s.queue, i);
    forall k | 0 <= k < |rest| ensures rest[k] in s.queue {}
    forall k | 0 <= k < |s'.queue| ensures s'.queue[k].id == IdOf(s'.queue[k].ticket) {
      if k < |rest| { assert s'.queue[k] == rest[k]; }
    }
  }

  lemma {:induction false} RunKeepsIds(steps: seq<Step>)
    requires Run(INITIAL, steps).Some?
    ensures IdsInTurn(Run(INITIAL, steps).value)
  {
    hide Do;
    if steps != [] {
      RunKeepsIds(steps[..|steps| - 1]);
      StepKeepsIds(Run(INITIAL, steps[..|steps| - 1]).value, steps[|steps| - 1]);
    }
  }

  /** So two queued tasks have different ids as long as fewer than all ids lie between them. */
  lemma QueuedIdsDiffer(s: State, i: nat, j: nat)
    requires Reachable(s) && i < j < |s.queue| && s.queue[j].ticket - s.queue[i].ticket < ID_MAX_VALUE - ID_DEFAULT
    ensures s.queue[i].id != s.queue[j].id && s.queue[i].id == IdOf(s.queue[i].ticket)
  {
    hide IdOf, Locks, NothingMissed;
    ReachableFine(s);
    var steps :| Run(INITIAL, steps) == Some(s);
    RunKeepsIds(steps);
    IdsDiffer(s.queue[i].ticket, s.queue[j].ticket);
  }

  lemma IdsDiffer(x: nat, y: nat)
    requires x < y < x + ID_MAX_VALUE - ID_DEFAULT
    ensures IdOf(x) != IdOf(y)
  {
  }

  // ---------------------------------------------------------------- every queued task gets its turn

  /** How many actions the worker needs until it has entered the body of the task at the head of the queue. */
  function StepsToStart(w: WorkerPc): nat
  {
    match w
    case Picking => 1
    case HasEx => 2
    case WantEx => 3
    case Checked => 4
    case LoopHead => 5
    case Starting => 6
    case Woken => 6
    case Returned(_) => 6
    case Executing(_) => 7
    case _ => 8
  }

  function Works(n: nat): seq<Step> { seq(n, _ => Work) }

  lemma {:induction false} RunFirst(s: State, step: Step, steps: seq<Step>)
    requires Do(s, step).Some?
    ensures Run(s, [step] + steps) == Run(Do(s, step).value, steps)
  {
    hide Do;
    var all := [step] + steps;
    if steps == [] {
      assert all == [step] && all[..0] == [];
      assert Run(s, all[..0]) == Some(s);
    } else {
      RunFirst(s, step, steps[..|steps| - 1]);
      assert all[..|all| - 1] == [step] + steps[..|steps| - 1];
    }
  }

  /** The scheduler is up, nobody suspends or stops it, and a task waits. */
  ghost predicate HasWork(s: State)
  {
    s.controller.Outside? && s.running && !s.dead && s.queue != [] && !s.worker.NoThread? && !s.worker.Exited?
  }

  lemma WorkTowardsStart(s: State)
    requires Locks(s) && NothingMissed(s) && HasWork(s) && !s.worker.Picking?
    ensures WorkerStep(s).Some?
    ensures var s' := WorkerStep(s).value;
            && HasWork(s') && NothingMissed(s') && s'.queue == s.queue && s'.started == s.started
            && StepsToStart(s'.worker) + 1 == StepsToStart(s.worker)
  {
    hide SetFate;
  }

  lemma {:induction false} WorkerStarts(s: State, n: nat)
    requires Locks(s) && NothingMissed(s) && HasWork(s) && s.queue[0].id != TASK_ID_INVALID && n == StepsToStart(s.worker)
    ensures n <= 7 && Run(s, Works(n)).Some?
    ensures var e := Run(s, Works(n)).value; e.worker == Executing(s.queue[0]) && e.started == s.started + [s.queue[0].ticket]
    decreases n
  {
    hide Locks;
    if s.worker.Picking? {
      assert Works(1) == [Work] + [];
      RunFirst(s, Work, []);
      assert Run(Do(s, Work).value, []) == Some(Do(s, Work).value);
    } else {
      WorkTowardsStart(s);
      StepKeepsLocks(s, Work);
      WorkerStarts(WorkerStep(s).value, n - 1);
      assert Works(n) == [Work] + Works(n - 1);
      RunFirst(s, Work, Works(n - 1));
    }
  }

  lemma StepReaches(s: State, step: Step)
    requires Reachable(s) && Do(s, step).Some?
    ensures Reachable(Do(s, step).value)
  {
    hide Do;
    var steps :| Run(INITIAL, steps) == Some(s);
    assert (steps + [step])[..|steps|] == steps;
    assert Run(INITIAL, steps + [step]) == Do(s, step);
  }

  /** Such states exist: a scheduler just started to which a client has given its first task. */
  lemma FirstTaskWaits(c: nat, name: string) returns (e: State)
    ensures Reachable(e) && HasWork(e) && e.queue == [Task(1, name, 0)] && e.started == []
  {
    assert Run(INITIAL, []) == Some(INITIAL);
    StepReaches(INITIAL, Start);
    var s1 := Do(INITIAL, Start).value;
    StepReaches(s1, ClientCheck(c));
    var s2 := Do(s1, ClientCheck(c)).value;
    StepReaches(s2, ClientSchedule(c, name));
    e := Do(s2, ClientSchedule(c, name)).value;
  }

  /** With the scheduler up and the player live, the worker alone enters the oldest queued task within seven actions. */
  lemma QueuedTaskStarts(s: State)
    requires Reachable(s) && HasWork(s)
    ensures exists n: nat :: n <= 7 && Run(s, Works(n)).Some? && OldestQueued(s, s.queue[0].ticket)
              && Run(s, Works(n)).value.worker == Executing(s.queue[0])
              && Run(s, Works(n)).value.started == s.started + [s.queue[0].ticket]
  {
    ReachableFine(s);
    HeadIsOldest(s);
    HeadHasId(s);
    var n := StepsToStart(s.worker);
    WorkerStarts(s, n);
    assert n <= 7 && Run(s, Works(n)).Some?;
  }

  /** Bodies start in order of acceptance, before everything still queued, and at most one SetRate is queued. */
  lemma TasksInOrder(s: State)
    requires Reachable(s)
    ensures forall i, j :: 0 <= i < j < |s.started| ==> s.started[i] < s.started[j]
    ensures forall i, j :: 0 <= i < |s.started| && 0 <= j < |s.queue| ==> s.started[i] < s.queue[j].ticket
    ensures forall i, j :: 0 <= i < j < |s.queue| ==>
              s.queue[i].ticket < s.queue[j].ticket && !(s.queue[i].name == SET_RATE && s.queue[j].name == SET_RATE)
    ensures forall t :: 0 <= t < |s.fates| ==>
              && (s.fates[t].Queued? <==> exists i :: 0 <= i < |s.queue| && s.queue[i].ticket == t)
              && (s.fates[t].Running? <==> (s.worker.Executing? || s.worker.Returned?) && s.worker.task.ticket == t)
              && (s.fates[t].Running? || s.fates[t].Finished? <==> t in s.started)
  {
    ReachableFine(s);
    forall j | 0 <= j < |s.queue| ensures s.queue[j].ticket in Tickets(s.queue) {}
  }

  // ---------------------------------------------------------------- the code of the critical sections

  class AampScheduler {
    var mTaskQueue: seq<Task>
    var mNextTaskId: int
    var mCurrentTaskId: int
    var mLockOut: bool
    var accepted: nat  // tasks accepted so far, the next ticket

    constructor ()
      ensures mTaskQueue == [] && mNextTaskId == ID_DEFAULT && mCurrentTaskId == TASK_ID_INVALID && !mLockOut
      ensures accepted == 0
    {
      mTaskQueue, mNextTaskId, mCurrentTaskId, mLockOut, accepted := [], ID_DEFAULT, TASK_ID_INVALID, false, 0;
    }

    /** ScheduleTask from line 75 on; the new queue is that of Accepted. */
    method ScheduleTask(name: string) returns (id: int)
      modifies this
      ensures mLockOut == old(mLockOut) && mCurrentTaskId == old(mCurrentTaskId)
      ensures mLockOut ==> id == TASK_ID_INVALID && mTaskQueue == old(mTaskQueue) && accepted == old(accepted)
      ensures mLockOut ==> mNextTaskId == old(mNextTaskId)
      ensures !mLockOut ==> id == old(mNextTaskId) && mNextTaskId == NextId(old(mNextTaskId))
      ensures !mLockOut ==> accepted == old(accepted) + 1
      ensures !mLockOut ==> mTaskQueue == NewQueue(old(mTaskQueue), Task(id, name, old(accepted)))
    {
      id := TASK_ID_INVALID;
      if !mLockOut {
        id := mNextTaskId;
        mNextTaskId := mNextTaskId + 1;
        if mNextTaskId >= ID_MAX_VALUE {
          mNextTaskId := ID_DEFAULT;
        }
        if name == SET_RATE {
          var i := 0;
          while i < |mTaskQueue| && mTaskQueue[i].name != SET_RATE
            invariant 0 <= i <= |mTaskQueue|
            invariant mTaskQueue == old(mTaskQueue)
            invariant forall j :: 0 <= j < i ==> mTaskQueue[j].name != SET_RATE
          {
            i := i + 1;
          }
          if i != |mTaskQueue| {
            mTaskQueue := mTaskQueue[..i] + mTaskQueue[i + 1..];
          }
        }
        mTaskQueue := mTaskQueue + [Task(id, name, accepted)];
        accepted := accepted + 1;
      }
    }

    /** RemoveTask; the new queue is that of RemovedOne. */
    method RemoveTask(id: int) returns (ret: bool)
      modifies this`mTaskQueue
      ensures forall s: State :: s.queue == old(mTaskQueue) && s.current == mCurrentTaskId ==>
                mTaskQueue == RemovedOne(s, id).queue
      ensures ret <==> |mTaskQueue| < |old(mTaskQueue)|
    {
      ret := false;
      if id != TASK_ID_INVALID && mCurrentTaskId != id {
        var i := 0;
        while i < |mTaskQueue|
          invariant 0 <= i <= |mTaskQueue| && !ret && mTaskQueue == old(mTaskQueue)
          invariant forall j :: 0 <= j < i ==> mTaskQueue[j].id != id
        {
          if mTaskQueue[i].id == id {
            mTaskQueue := mTaskQueue[..i] + mTaskQueue[i + 1..];
            ret := true;
            break;
          } else {
            i := i + 1;
          }
        }
      }
    }
  }
}
