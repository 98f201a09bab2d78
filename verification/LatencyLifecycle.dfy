/**
 AampLatencyMonitor's threads: the worker of Run() with its two interruptible waits, one Start/Stop
 caller at a time (mStartStopMutex), and any number of EnableRateCorrection and OnBufferLevelUpdate
 callers. A step is one action between shared accesses; mSleepMutex sections that cannot block
 are one step, enabled only while no other thread holds the mutex.
 */
module LatencyLifecycle {
  import opened Prelude

  datatype Lifecycle = Idle | Starting | Running | Stopping

  /** WaitMs(monitorDelayMs), WaitMs(monitorIntervalMs), WaitUntilSignalled() */
  datatype Wait = Delay | Interval | Indefinite

  datatype WorkerPc =
    | NoThread
    | Launched                // before the compare-exchange, line 225
    | Entering(wait: Wait)    // wants mSleepMutex
    | Evaluating(wait: Wait)  // holds it, evaluates the wait predicate
    | Blocking(wait: Wait)    // holds it, predicate was false, about to wait
    | Blocked(wait: Wait)     // waiting on mSleepCv
    | Woken(wait: Wait)       // notified, wants mSleepMutex back
    | TimedOut(wait: Wait)    // timed wait over, wants mSleepMutex back
    | LoopTop                 // line 241
    | Slept                   // line 246
    | AtCorrection            // line 252
    | Suppressed              // correction was off; resetting the rate, line 255
    | Polling                 // lines 264-364
    | Exiting                 // line 369
    | Exited

  /** The one Start or Stop call that holds mStartStopMutex. */
  datatype SessionPc =
    | Free
    | StartClear      // line 110
    | StartPublish    // line 116
    | StartLaunch     // line 117
    | StopSignal      // line 144
    | StopJoin        // line 153
    | StopFinish      // line 172

  datatype EnablePc = WillStore(enable: bool) | WillSignal(enable: bool)

  datatype State = State(
    life: Lifecycle, correction: bool, signalled: bool, sleepMutexHeld: bool,
    worker: WorkerPc, session: SessionPc,
    enabling: map<nat, EnablePc>,   // EnableRateCorrection calls past the check of line 186
    notifying: set<nat>)            // OnBufferLevelUpdate calls about to signal

  const INITIAL := State(Idle, true, false, false, NoThread, Free, map[], {})

  datatype Step =
    | Work | Timeout | SpuriousWakeup
    | Start | Stop | Session | LaunchFails
    | EnableBegin(caller: nat, enable: bool) | EnableNext(caller: nat)
    | BufferBegin(caller: nat) | BufferSignal(caller: nat)

  // mWakeupSignalled = true; notify: both are done under mSleepMutex
  function Signal(s: State): State
  {
    s.(signalled := true, worker := if s.worker.Blocked? then Woken(s.worker.wait) else s.worker)
  }

  /** Where the worker goes on after a wait. */
  function AfterWait(w: Wait): WorkerPc { if w.Interval? then Slept else LoopTop }

  function EndWait(s: State, w: Wait): State
  {
    s.(signalled := false, sleepMutexHeld := false, worker := AfterWait(w))
  }

  function WorkerStep(s: State): Option<State>
  {
    match s.worker
    case Launched =>
      Some(if s.life.Starting? then s.(life := Running, worker := Entering(Delay)) else s.(worker := Exited))
    case Entering(w) => if s.sleepMutexHeld then None else Some(s.(sleepMutexHeld := true, worker := Evaluating(w)))
    case Evaluating(w) =>
      Some(if s.signalled || s.life.Stopping? then EndWait(s, w) else s.(worker := Blocking(w)))
    case Blocking(w) => Some(s.(sleepMutexHeld := false, worker := Blocked(w)))
    case Woken(w) => if s.sleepMutexHeld then None else Some(s.(sleepMutexHeld := true, worker := Evaluating(w)))
    case TimedOut(w) => if s.sleepMutexHeld then None else Some(EndWait(s, w))
    case LoopTop => Some(s.(worker := if s.life.Running? then Entering(Interval) else Exiting))
    case Slept => Some(s.(worker := if s.life.Running? then AtCorrection else Exiting))
    case AtCorrection => Some(s.(worker := if s.correction then Polling else Suppressed))
    case Suppressed => Some(s.(worker := Entering(Indefinite)))
    case Polling => Some(s.(worker := LoopTop))
    case Exiting => Some(s.(worker := Exited))
    case _ => None
  }

  function SessionStep(s: State): Option<State>
  {
    match s.session
    case Free => None
    case StartClear => if s.sleepMutexHeld then None else Some(s.(signalled := false, session := StartPublish))
    case StartPublish => Some(s.(life := Starting, session := StartLaunch))
    case StartLaunch => Some(s.(worker := Launched, session := Free))
    case StopSignal => if s.sleepMutexHeld then None else Some(Signal(s).(session := StopJoin))
    case StopJoin =>
      if s.worker.Exited? || s.worker.NoThread? then Some(s.(worker := NoThread, session := StopFinish)) else None
    case StopFinish => Some(s.(life := Idle, session := Free))
  }

  function Do(s: State, step: Step): Option<State>
  {
    match step
    case Work => WorkerStep(s)
    case Timeout => if s.worker.Blocked? && !s.worker.wait.Indefinite? then Some(s.(worker := TimedOut(s.worker.wait))) else None
    case SpuriousWakeup => if s.worker.Blocked? then Some(s.(worker := Woken(s.worker.wait))) else None
    case Start =>
      if !s.session.Free? then None
      else Some(if s.life.Idle? then s.(correction := true, session := StartClear) else s)
    case Stop =>
      if !s.session.Free? then None
      else Some(if s.life.Idle? then s else s.(life := Stopping, session := StopSignal))
    case Session => SessionStep(s)
    case LaunchFails => if s.session.StartLaunch? then Some(s.(life := Idle, session := Free)) else None
    case EnableBegin(c, v) =>
      if c in s.enabling then None
      else Some(if s.correction == v then s else s.(enabling := s.enabling[c := WillStore(v)]))
    case EnableNext(c) =>
      if c !in s.enabling then None
      else if s.enabling[c].WillStore? then
        Some(s.(correction := s.enabling[c].enable, enabling := s.enabling[c := WillSignal(s.enabling[c].enable)]))
      else if s.sleepMutexHeld then None
      else Some(Signal(s).(enabling := s.enabling - {c}))
    case BufferBegin(c) => if s.correction then Some(s.(notifying := s.notifying + {c})) else Some(s)
    case BufferSignal(c) =>
      if c in s.notifying && !s.sleepMutexHeld then Some(Signal(s).(notifying := s.notifying - {c})) else None
  }

  function Run(s: State, steps: seq<Step>): Option<State>
  {
    if steps == [] then Some(s)
    else
      var r := Run(s, steps[..|steps| - 1]);
      if r.None? then None else Do(r.value, steps[|steps| - 1])
  }

  ghost predicate Reachable(s: State) { exists steps :: Run(INITIAL, steps) == Some(s) }

  // ---------------------------------------------------------------- invariant

  ghost predicate HoldsSleepMutex(w: WorkerPc) { w.Evaluating? || w.Blocking? }

  /** The worker has seen correction off and has not yet left the indefinite wait that follows. */
  ghost predicate HeadedForIndefiniteWait(w: WorkerPc)
  {
    || w.Suppressed?
    || ((w.Entering? || w.Evaluating? || w.Blocking? || w.Blocked? || w.Woken?) && w.wait.Indefinite?)
  }

  /** Some caller has stored true and still has its signal to issue. */
  ghost predicate EnableSignalDue(s: State)
  {
    exists c :: c in s.enabling && s.enabling[c] == WillSignal(true)
  }

  ghost predicate LifecycleMatches(s: State)
  {
    && (s.worker.NoThread? <==> s.life.Idle? || s.session.StartLaunch? || s.session.StopFinish?)
    && (s.session.StartClear? || s.session.StartPublish? ==> s.life.Idle?)
    && (s.session.StartLaunch? ==> s.life.Starting?)
    && (s.session.StopSignal? || s.session.StopJoin? || s.session.StopFinish? <==> s.life.Stopping?)
    && (s.life.Starting? && s.session.Free? ==> s.worker.Launched?)
    && (s.life.Running? ==> !s.worker.Launched? && !s.worker.Exiting? && !s.worker.Exited?)
    && (s.worker.TimedOut? ==> !s.worker.wait.Indefinite?)
  }

  ghost predicate Waits(s: State)
  {
    && (s.sleepMutexHeld <==> HoldsSleepMutex(s.worker))
    && (s.worker.Blocking? || s.worker.Blocked? ==> !s.signalled)
    && (s.session.StopJoin? ==> !s.worker.Blocking? && !s.worker.Blocked?)
    && (HeadedForIndefiniteWait(s.worker) && !s.signalled && s.correction ==> EnableSignalDue(s))
  }

  lemma StepKeepsLifecycle(s: State, step: Step)
    requires LifecycleMatches(s) && Do(s, step).Some?
    ensures LifecycleMatches(Do(s, step).value)
  {
    hide WorkerStep, SessionStep;
    match step
    case Work => WorkKeepsLifecycle(s);
    case Session => SessionKeepsLifecycle(s);
    case _ =>
  }

  lemma WorkKeepsLifecycle(s: State)
    requires LifecycleMatches(s) && WorkerStep(s).Some?
    ensures LifecycleMatches(WorkerStep(s).value)
  {
  }

  lemma SessionKeepsLifecycle(s: State)
    requires LifecycleMatches(s) && SessionStep(s).Some?
    ensures LifecycleMatches(SessionStep(s).value)
  {
  }

  lemma StepKeepsWaits(s: State, step: Step)
    requires LifecycleMatches(s) && Waits(s) && Do(s, step).Some?
    ensures Waits(Do(s, step).value)
  {
    hide WorkerStep, SessionStep, LifecycleMatches, Waits, EnableSignalDue;
    match step
    case Work => WorkKeepsWaits(s);
    case Session => SessionKeepsWaits(s);
    case EnableBegin(c, v) => EnableBeginKeepsWaits(s, c, v);
    case EnableNext(c) => EnableNextKeepsWaits(s, c);
    case _ => OthersKeepWaits(s, step);
  }

  lemma SameSignalsDue(s: State, s': State)
    requires s'.enabling == s.enabling
    ensures EnableSignalDue(s') == EnableSignalDue(s)
  {
  }

  lemma WorkKeepsWaits(s: State)
    requires LifecycleMatches(s) && Waits(s) && WorkerStep(s).Some?
    ensures Waits(WorkerStep(s).value)
  {
    hide EnableSignalDue;
    SameSignalsDue(s, WorkerStep(s).value);
  }

  lemma SessionKeepsWaits(s: State)
    requires LifecycleMatches(s) && Waits(s) && SessionStep(s).Some?
    ensures Waits(SessionStep(s).value)
  {
    hide EnableSignalDue;
    SameSignalsDue(s, SessionStep(s).value);
  }

  lemma EnableBeginKeepsWaits(s: State, c: nat, v: bool)
    requires Waits(s) && Do(s, EnableBegin(c, v)).Some?
    ensures Waits(Do(s, EnableBegin(c, v)).value)
  {
    if EnableSignalDue(s) {
      var d :| d in s.enabling && s.enabling[d] == WillSignal(true);
      var s' := Do(s, EnableBegin(c, v)).value;
      assert d in s'.enabling && s'.enabling[d] == WillSignal(true);
    }
  }

  lemma EnableNextKeepsWaits(s: State, c: nat)
    requires Waits(s) && Do(s, EnableNext(c)).Some?
    ensures Waits(Do(s, EnableNext(c)).value)
  {
    var s' := Do(s, EnableNext(c)).value;
    if s.enabling[c].WillStore? {
      assert c in s'.enabling && s'.enabling[c] == WillSignal(s.enabling[c].enable);
      assert s.enabling[c].enable ==> EnableSignalDue(s');
    } else {
      assert s'.signalled;
    }
  }

  lemma OthersKeepWaits(s: State, step: Step)
    requires LifecycleMatches(s) && Waits(s) && Do(s, step).Some?
    requires !step.Work? && !step.Session? && !step.EnableBegin? && !step.EnableNext?
    ensures Waits(Do(s, step).value)
  {
    hide EnableSignalDue, WorkerStep, SessionStep;
    SameSignalsDue(s, Do(s, step).value);
  }

  lemma InitiallyFine()
    ensures LifecycleMatches(INITIAL) && Waits(INITIAL)
  {
  }

  lemma {:induction false} RunKeepsInvariants(steps: seq<Step>)
    requires Run(INITIAL, steps).Some?
    ensures LifecycleMatches(Run(INITIAL, steps).value) && Waits(Run(INITIAL, steps).value)
  {
    hide Do, LifecycleMatches, Waits;
    if steps == [] {
      InitiallyFine();
    } else {
      var before := steps[..|steps| - 1];
      RunKeepsInvariants(before);
      StepKeepsLifecycle(Run(INITIAL, before).value, steps[|steps| - 1]);
      StepKeepsWaits(Run(INITIAL, before).value, steps[|steps| - 1]);
    }
  }

  lemma ReachableFine(s: State)
    requires Reachable(s)
    ensures LifecycleMatches(s) && Waits(s)
  {
    var steps :| Run(INITIAL, steps) == Some(s);
    RunKeepsInvariants(steps);
  }

  // ---------------------------------------------------------------- what every interleaving guarantees

  /** A worker exists only outside kIdle, and the monitor runs only with a worker that has not finished. */
  lemma WorkerOnlyOutsideIdle(s: State)
    requires Reachable(s)
    ensures !s.worker.NoThread? ==> !s.life.Idle?
    ensures s.life.Running? ==> !s.worker.NoThread? && !s.worker.Exited?
  {
    ReachableFine(s);
  }

  /**
   No lost wake-up: a blocked worker has no signal set, and if it is in the indefinite wait then
   correction is off or an enabling caller still has its signal to issue.
   */
  lemma NoLostEnable(s: State)
    requires Reachable(s) && s.worker.Blocked?
    ensures !s.signalled
    ensures s.worker.wait.Indefinite? ==> !s.correction || EnableSignalDue(s)
  {
    ReachableFine(s);
  }

  // ---------------------------------------------------------------- switching correction on and off

  /** Only Start, which switches it on, and the store of an EnableRateCorrection call change the setting. */
  lemma CorrectionChangesOnlyThere(s: State, step: Step)
    requires Do(s, step).Some? && Do(s, step).value.correction != s.correction
    ensures || (step.Start? && s.life.Idle? && Do(s, step).value.correction)
            || (step.EnableNext? && s.enabling[step.caller] == WillStore(!s.correction))
  {
  }

  /** Start switches it on whenever the monitor was idle. */
  lemma StartEnables(s: State)
    requires s.session.Free? && s.life.Idle?
    ensures Do(s, Start).Some? && Do(s, Start).value.correction && Do(s, Start).value.session.StartClear?
  {
  }

  /**
   EnableRateCorrection(v): a call that finds the setting equal to v is over; any other call stores v in
   its next action and then signals, which leaves the signal set and no worker blocked in a wait.
   */
  lemma EnableTakesEffect(s: State, c: nat, v: bool)
    ensures c !in s.enabling ==>
              && Do(s, EnableBegin(c, v)).Some?
              && (s.correction == v ==> Do(s, EnableBegin(c, v)).value == s)
              && (s.correction != v ==> Do(s, EnableBegin(c, v)).value == s.(enabling := s.enabling[c := WillStore(v)]))
    ensures c in s.enabling && s.enabling[c] == WillStore(v) ==>
              && Do(s, EnableNext(c)).Some? && Do(s, EnableNext(c)).value.correction == v
              && c in Do(s, EnableNext(c)).value.enabling && Do(s, EnableNext(c)).value.enabling[c] == WillSignal(v)
    ensures c in s.enabling && s.enabling[c] == WillSignal(v) && !s.sleepMutexHeld ==>
              && Do(s, EnableNext(c)).Some? && c !in Do(s, EnableNext(c)).value.enabling
              && Do(s, EnableNext(c)).value.signalled && !Do(s, EnableNext(c)).value.worker.Blocked?
  {
  }

  /** Start clears a signal left from before; a buffer notification signals exactly if it found correction on. */
  lemma StartAndNotifications(s: State, c: nat)
    ensures s.session.StartClear? && !s.sleepMutexHeld ==>
              Do(s, Session).Some? && !Do(s, Session).value.signalled && Do(s, Session).value.session.StartPublish?
    ensures Do(s, BufferBegin(c)).Some?
    ensures Do(s, BufferBegin(c)).value == if s.correction then s.(notifying := s.notifying + {c}) else s
    ensures c in s.notifying && !s.sleepMutexHeld ==>
              && Do(s, BufferSignal(c)).Some? && c !in Do(s, BufferSignal(c)).value.notifying
              && Do(s, BufferSignal(c)).value.signalled && !Do(s, BufferSignal(c)).value.worker.Blocked?
  {
  }

  /** Who can act: Start and Stop one at a time, a call in progress unless it joins a live worker, the worker unless it is blocked or done. */
  lemma WhoCanAct(s: State)
    requires Reachable(s)
    ensures (Do(s, Start).Some? <==> s.session.Free?) && (Do(s, Stop).Some? <==> s.session.Free?)
    ensures SessionStep(s).Some? <==>
            && !s.session.Free? && !(s.session.StopJoin? && !s.worker.Exited?)
            && !((s.session.StartClear? || s.session.StopSignal?) && HoldsSleepMutex(s.worker))
    ensures WorkerStep(s).Some? <==> !s.worker.NoThread? && !s.worker.Exited? && !s.worker.Blocked?
  {
    ReachableFine(s);
  }

  /** How many of its own actions a Start or Stop call needs to return. */
  function ActionsLeft(c: SessionPc): nat
  {
    match c
    case Free => 0
    case StartClear => 3
    case StartPublish => 2
    case StartLaunch => 1
    case StopSignal => 3
    case StopJoin => 2
    case StopFinish => 1
  }

  /**
   Start on an idle monitor and Stop on any other begin a call, and each action brings it closer to its
   return: Start's with a worker launched (or none if the thread could not be created), Stop's with an
   idle monitor and no worker. Otherwise neither does anything.
   */
  lemma CallsComplete(s: State)
    requires Reachable(s)
    ensures s.session.Free? ==>
              && (s.life.Idle? ==> Do(s, Start).value.session.StartClear? && Do(s, Stop).value == s)
              && (!s.life.Idle? ==> Do(s, Start).value == s && Do(s, Stop).value == s.(life := Stopping, session := StopSignal))
    ensures SessionStep(s).Some? ==>
              var s' := SessionStep(s).value;
              && ActionsLeft(s'.session) + 1 == ActionsLeft(s.session)
              && (s.session.StartLaunch? ==> s'.life.Starting? && s'.worker.Launched?)
              && (s.session.StopSignal? ==> s'.signalled && !s'.worker.Blocked?)
              && (s.session.StopFinish? ==> s'.life.Idle? && s'.worker.NoThread?)
    ensures s.session.StartLaunch? ==> Do(s, LaunchFails).Some? && Do(s, LaunchFails).value == s.(life := Idle, session := Free)
  {
    ReachableFine(s);
  }

  /** Nobody else moves a call in progress. */
  lemma CallIsItsOwn(s: State, step: Step, c: nat)
    requires Do(s, step).Some? && c in s.enabling && step != EnableNext(c)
    ensures c in Do(s, step).value.enabling && Do(s, step).value.enabling[c] == s.enabling[c]
  {
    hide WorkerStep, SessionStep;
    if step.Work? { WorkerLeavesCallers(s); }
    if step.Session? { SessionLeavesCallers(s); }
  }

  lemma WorkerLeavesCallers(s: State)
    requires WorkerStep(s).Some?
    ensures WorkerStep(s).value.enabling == s.enabling && WorkerStep(s).value.notifying == s.notifying
  {
  }

  lemma SessionLeavesCallers(s: State)
    requires SessionStep(s).Some?
    ensures SessionStep(s).value.enabling == s.enabling && SessionStep(s).value.notifying == s.notifying
  {
  }

  /** A worker that finds correction off goes to the indefinite wait; only one that finds it on takes a poll. */
  lemma WorkerReadsCorrection(s: State, step: Step)
    ensures s.worker.AtCorrection? ==> WorkerStep(s).Some? && WorkerStep(s).value.worker == if s.correction then Polling else Suppressed
    ensures s.worker.Suppressed? ==> WorkerStep(s).Some? && WorkerStep(s).value.worker == Entering(Indefinite)
    ensures Do(s, step).Some? && Do(s, step).value.worker.Polling? && !s.worker.Polling? ==>
              step.Work? && s.worker.AtCorrection? && s.correction
  {
  }

  /** A worker leaves a wait only for a signal, for Stop, or (unless it is the indefinite one) for its time being up. */
  lemma WaitsEndForAReason(s: State)
    ensures s.worker.Evaluating? && !s.signalled && !s.life.Stopping? ==>
              WorkerStep(s).Some? && WorkerStep(s).value.worker == Blocking(s.worker.wait)
    ensures s.worker.Evaluating? && (s.signalled || s.life.Stopping?) ==>
              WorkerStep(s).Some? && !WorkerStep(s).value.signalled
              && WorkerStep(s).value.worker == if s.worker.wait.Interval? then Slept else LoopTop
    ensures s.worker.Blocking? ==> WorkerStep(s).Some? && WorkerStep(s).value.worker == Blocked(s.worker.wait)
    ensures s.worker.Blocked? ==> WorkerStep(s).None? && (Do(s, Timeout).Some? <==> !s.worker.wait.Indefinite?)
  {
  }

  // ---------------------------------------------------------------- runs that exist

  lemma StepReaches(s: State, step: Step)
    requires Reachable(s) && Do(s, step).Some?
    ensures Reachable(Do(s, step).value)
  {
    hide Do;
    var steps :| Run(INITIAL, steps) == Some(s);
    assert (steps + [step])[..|steps|] == steps;
    assert Run(INITIAL, steps + [step]) == Do(s, step);
  }

  /** The worker's own actions through a wait that nobody has signalled, up to the block. */
  lemma BlocksInWait(s: State, w: Wait) returns (e: State)
    requires Reachable(s) && s.worker == Entering(w) && !s.sleepMutexHeld && !s.signalled && !s.life.Stopping?
    ensures Reachable(e) && e == s.(worker := Blocked(w))
  {
    StepReaches(s, Work);
    var s1 := Do(s, Work).value;
    StepReaches(s1, Work);
    var s2 := Do(s1, Work).value;
    StepReaches(s2, Work);
    e := Do(s2, Work).value;
  }

  /** From the top of the loop of a running monitor, through one interval without a signal, to the look at the setting. */
  lemma IntervalPasses(s: State) returns (e: State)
    requires Reachable(s) && s.worker == LoopTop && s.life.Running? && !s.sleepMutexHeld && !s.signalled
    ensures Reachable(e) && e == s.(worker := AtCorrection)
  {
    StepReaches(s, Work);
    var s1 := BlocksInWait(Do(s, Work).value, Interval);
    StepReaches(s1, Timeout);
    var s2 := Do(s1, Timeout).value;
    StepReaches(s2, Work);
    var s3 := Do(s2, Work).value;
    StepReaches(s3, Work);
    e := Do(s3, Work).value;
  }

  /** A started worker in its first wait. */
  lemma FirstWait() returns (e: State)
    ensures Reachable(e) && e == State(Running, true, false, false, Blocked(Delay), Free, map[], {})
  {
    assert Run(INITIAL, []) == Some(INITIAL);
    StepReaches(INITIAL, Start);
    var s1 := Do(INITIAL, Start).value;
    StepReaches(s1, Session);
    var s2 := Do(s1, Session).value;
    StepReaches(s2, Session);
    var s3 := Do(s2, Session).value;
    StepReaches(s3, Session);
    var s4 := Do(s3, Session).value;
    StepReaches(s4, Work);
    e := BlocksInWait(Do(s4, Work).value, Delay);
  }

  /** One whole EnableRateCorrection(v) call that changes the setting, and the woken worker back at the top of its loop. */
  lemma EnableWakesWorker(s: State, c: nat, v: bool) returns (e: State)
    requires Reachable(s) && s.worker.Blocked? && !s.worker.wait.Interval? && !s.sleepMutexHeld && c !in s.enabling && s.correction != v
    ensures Reachable(e) && e == s.(correction := v, signalled := false, worker := LoopTop)
  {
    StepReaches(s, EnableBegin(c, v));
    var s1 := Do(s, EnableBegin(c, v)).value;
    StepReaches(s1, EnableNext(c));
    var s2 := Do(s1, EnableNext(c)).value;
    StepReaches(s2, EnableNext(c));
    var s3 := Do(s2, EnableNext(c)).value;
    assert s3.enabling == s.enabling;
    StepReaches(s3, Work);
    var s4 := Do(s3, Work).value;
    StepReaches(s4, Work);
    e := Do(s4, Work).value;
  }

  /** The indefinite wait is reached: by a monitor whose correction is switched off while it runs. */
  lemma IndefiniteWaitIsReached(c: nat) returns (e: State)
    ensures Reachable(e) && e.worker == Blocked(Indefinite) && e.life.Running? && !e.correction && e.enabling == map[]
  {
    var s := FirstWait();
    s := EnableWakesWorker(s, c, false);
    s := IntervalPasses(s);
    StepReaches(s, Work);
    s := Do(s, Work).value;
    StepReaches(s, Work);
    e := BlocksInWait(Do(s, Work).value, Indefinite);
  }

  /** And left again: switched on in any such state, the monitor can go on to take a poll. */
  lemma EnabledWorkerPolls(s: State, c: nat) returns (e: State)
    requires Reachable(s) && s.worker == Blocked(Indefinite) && s.life.Running? && !s.correction && c !in s.enabling
    ensures Reachable(e) && e == s.(correction := true, worker := Polling)
  {
    ReachableFine(s);
    e := EnableWakesWorker(s, c, true);
    e := IntervalPasses(e);
    StepReaches(e, Work);
    e := Do(e, Work).value;
  }

  // ---------------------------------------------------------------- Stop

  /** How many more actions the worker needs to exit once Stop has signalled. */
  function StepsToExit(w: WorkerPc): nat
  {
    match w
    case NoThread => 0
    case Exited => 0
    case Exiting => 1
    case Launched => 1
    case LoopTop => 2
    case Slept => 2
    case Evaluating(_) => 3
    case TimedOut(_) => 3
    case Polling => 3
    case Entering(_) => 4
    case Woken(_) => 4
    case Suppressed => 5
    case AtCorrection => 6
    case Blocking(_) => 7
    case Blocked(_) => 8
  }

  function WorkerActions(steps: seq<Step>): nat
  {
    if steps == [] then 0
    else WorkerActions(steps[..|steps| - 1]) + (if steps[|steps| - 1].Work? then 1 else 0)
  }

  lemma JoinStep(s: State, step: Step)
    requires LifecycleMatches(s) && Waits(s) && s.session.StopJoin? && step != Session
    ensures StepsToExit(s.worker) <= 6
    ensures StepsToExit(s.worker) > 0 ==> WorkerStep(s).Some?
    ensures Do(s, step).Some? ==>
              && Do(s, step).value.session.StopJoin?
              && StepsToExit(Do(s, step).value.worker) + (if step.Work? then 1 else 0) <= StepsToExit(s.worker)
  {
  }

  lemma {:induction false} JoinIsBounded(s: State, steps: seq<Step>)
    requires LifecycleMatches(s) && Waits(s) && s.session.StopJoin? && Run(s, steps).Some? && Session !in steps
    ensures var e := Run(s, steps).value;
            && LifecycleMatches(e) && Waits(e) && e.session.StopJoin?
            && WorkerActions(steps) + StepsToExit(e.worker) <= StepsToExit(s.worker) <= 6
            && (StepsToExit(e.worker) > 0 ==> WorkerStep(e).Some?)
  {
    hide Do, WorkerStep, LifecycleMatches, Waits;
    if steps == [] {
      JoinStep(s, Work);
    } else {
      var before, last := steps[..|steps| - 1], steps[|steps| - 1];
      JoinIsBounded(s, before);
      assert last in steps;
      StepKeepsLifecycle(Run(s, before).value, last);
      StepKeepsWaits(Run(s, before).value, last);
      JoinStep(Run(s, before).value, last);
      JoinStep(Run(s, steps).value, Work);
    }
  }

  /**
   After Stop's signal the worker cannot stay blocked in either wait. Whatever the other callers do
   from there on, it has an enabled action until it exits, and exits after at most six of its own
   actions; then the join returns.
   */
  lemma StopNeverHangs(s: State, steps: seq<Step>)
    requires Reachable(s) && s.session.StopJoin? && Run(s, steps).Some? && Session !in steps
    ensures var e := Run(s, steps).value;
            && WorkerActions(steps) <= 6 && !e.worker.Blocked?
            && (WorkerStep(e).Some? || (SessionStep(e).Some? && SessionStep(e).value.session.StopFinish?))
  {
    ReachableFine(s);
    JoinIsBounded(s, steps);
  }
}
