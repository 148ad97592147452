/** Progress of the completion monitor: who can be stuck, and a measure that bounds shutdown. */
module MonitorProgress {
  import opened Monitor

  /** Steps the library's own threads take. The others are the client's calls, the device starting a host function, and
      spurious wake-ups. */
  predicate Internal(e: Event) {
    e.Complete? || e.Notify? || e.HostFinish? || e.WorkerLock? || e.WorkerStep? || e.WorkerRelock? || e.WorkerTest?
    || e.WorkerRelease? || e.DestructorNotify? || e.Join?
  }

  ghost predicate CanStep(s: State) {
    exists e :: Internal(e) && Enabled(s, e)
  }

  /** Asleep with nothing completed and no shutdown under way. */
  predicate Idle(s: State) { s.worker == Waiting && s.completed == [] && !s.isFinished }

  predicate ShutDown(s: State) { s.worker == Exited && s.destructor.Joined? }

  lemma HostCanStep(s: State, op: nat)
    requires op in s.phase && HostActive(s.phase[op]) && !s.mutex
    ensures CanStep(s)
  {
    var e := if s.phase[op].Running? then Complete(op) else if s.phase[op].Notifying? then Notify(op) else HostFinish(op);
    assert Internal(e) && Enabled(s, e);
  }

  lemma QuietCanStep(s: State)
    requires Inv(s) && !s.mutex && HostsQuiet(s) && !Idle(s) && !ShutDown(s)
    ensures CanStep(s)
  {
    if s.worker == Waiting {
      assert forall op :: InPhase(s, op, Notifying) ==> HostActive(s.phase[op]);
    }
    var e := match s.worker
      case Top => WorkerLock
      case Woken => WorkerRelock
      case Releasing(_) => WorkerRelease
      case Exited => if s.destructor == NotifyPending then DestructorNotify else Join
      case _ => DestructorNotify;
    assert Internal(e) && Enabled(s, e);
  }

  /** Deadlock freedom: the library's threads are all blocked exactly when no host function is running and the worker
      is asleep with nothing to do or the shutdown is complete. */
  lemma StuckOnlyWhenDone(s: State)
    requires Inv(s)
    ensures !CanStep(s) <==> HostsQuiet(s) && (Idle(s) || ShutDown(s))
  {
    if HostsQuiet(s) && (Idle(s) || ShutDown(s)) {
      assert forall op :: op in s.phase && HostActive(s.phase[op]) ==> !HostsQuiet(s);
    } else if s.mutex {
      var e := if s.worker == Locked then WorkerStep else WorkerTest;
      assert Internal(e) && Enabled(s, e);
    } else if HostsQuiet(s) {
      QuietCanStep(s);
    } else {
      var op :| op in s.phase && HostActive(s.phase[op]);
      HostCanStep(s, op);
    }
  }

  function Holding(phase: map<nat, Phase>, p: Phase): set<nat> {
    set op | op in phase && phase[op] == p
  }

  lemma MoveCounts(phase: map<nat, Phase>, op: nat, p: Phase, q: Phase)
    requires op in phase && phase[op] != p
    ensures |Holding(phase[op := p], q)| ==
            |Holding(phase, q)| + (if q == p then 1 else if q == phase[op] then -1 else 0)
  {
    var after := Holding(phase[op := p], q);
    if q == p {
      assert after == Holding(phase, q) + {op};
    } else if q == phase[op] {
      assert after == Holding(phase, q) - {op};
    } else {
      assert after == Holding(phase, q);
    }
  }

  lemma NewCounts(phase: map<nat, Phase>, op: nat, p: Phase, q: Phase)
    requires op !in phase && p != q
    ensures Holding(phase[op := p], q) == Holding(phase, q)
  {
  }

  function HostWork(phase: map<nat, Phase>): nat {
    11 * |Holding(phase, Running)| + 2 * |Holding(phase, Notifying)| + |Holding(phase, Finishing)|
  }

  function WorkerWork(w: Worker): nat {
    match w
    case Waiting => 5
    case Woken => 4
    case Testing => 3
    case Releasing(_) => 3
    case Top => 2
    case Locked => 1
    case Exited => 0
  }

  function DestructorWork(d: Destructor): nat {
    match d
    case Alive => 3
    case NotifyPending => 2
    case Joining => 1
    case Joined(_) => 0
  }

  /** Bounds the steps left to the library's own threads once shutdown has been requested. */
  function Work(s: State): nat {
    8 * |s.completed| + HostWork(s.phase) + WorkerWork(s.worker) + DestructorWork(s.destructor)
  }

  function PhaseWork(p: Phase): nat {
    match p
    case Running => 11
    case Notifying => 2
    case Finishing => 1
    case _ => 0
  }

  lemma MoveWork(phase: map<nat, Phase>, op: nat, p: Phase)
    requires op in phase && phase[op] != p
    ensures HostWork(phase[op := p]) == HostWork(phase) + PhaseWork(p) - PhaseWork(phase[op])
  {
    MoveCounts(phase, op, p, Running);
    MoveCounts(phase, op, p, Notifying);
    MoveCounts(phase, op, p, Finishing);
  }

  lemma NewWork(phase: map<nat, Phase>, op: nat)
    requires op !in phase
    ensures HostWork(phase[op := Launching]) == HostWork(phase)
  {
    NewCounts(phase, op, Launching, Running);
    NewCounts(phase, op, Launching, Notifying);
    NewCounts(phase, op, Launching, Finishing);
  }

  predicate MovesPhase(e: Event) {
    e.AddOp? || e.Enqueue? || e.Leak? || e.HostStart? || e.Complete? || e.Notify? || e.HostFinish?
  }

  lemma PhaseStepWork(s: State, e: Event)
    requires Enabled(s, e) && MovesPhase(e)
    requires e.Complete? ==> e.op in s.submitted
    ensures Work(Apply(s, e)) + (if Internal(e) then 1 else 0) <= Work(s) + (if e.HostStart? then 11 else 0)
  {
    match e {
      case AddOp(op) => NewWork(s.phase, op);
      case Enqueue(op) => MoveWork(s.phase, op, Queued);
      case Leak(op) => MoveWork(s.phase, op, Leaked);
      case HostStart(op) => MoveWork(s.phase, op, Running);
      case Complete(op) => MoveWork(s.phase, op, Notifying);
      case Notify(op) => MoveWork(s.phase, op, Finishing);
      case HostFinish(op) => MoveWork(s.phase, op, Finished);
      case _ =>
    }
  }

  lemma ControlStepWork(s: State, e: Event)
    requires Enabled(s, e) && !MovesPhase(e) && s.isFinished && s.destructor != Alive
    ensures Work(Apply(s, e)) + (if Internal(e) then 1 else 0) <= Work(s)
  {
    assert HostWork(Apply(s, e).phase) == HostWork(s.phase);
  }

  /** After shutdown was requested an internal step pays for itself; only a host function that starts adds work. */
  lemma StepWork(s: State, e: Event)
    requires Inv(s) && Enabled(s, e) && s.isFinished
    ensures Work(Apply(s, e)) + (if Internal(e) then 1 else 0) <= Work(s) + (if e.HostStart? then 11 else 0)
  {
    if MovesPhase(e) {
      if e.Complete? { PushFindsOp(s, e.op); }
      PhaseStepWork(s, e);
    } else {
      ControlStepWork(s, e);
    }
  }

  lemma ShutdownIsRequestedForGood(s: State, e: Event)
    requires s.isFinished
    ensures Apply(s, e).isFinished
  {
  }

  function InternalSteps(events: seq<Event>): nat {
    if events == [] then 0 else (if Internal(events[0]) then 1 else 0) + InternalSteps(events[1..])
  }

  function HostStarts(events: seq<Event>): nat {
    if events == [] then 0 else (if events[0].HostStart? then 1 else 0) + HostStarts(events[1..])
  }

  /** Shutdown takes boundedly many steps under every schedule, whatever clients do meanwhile. */
  lemma {:induction false} ShutdownIsBounded(s: State, events: seq<Event>, s': State)
    requires Inv(s) && s.isFinished && Reaches(s, events, s')
    ensures InternalSteps(events) + Work(s') <= Work(s) + 11 * HostStarts(events)
    ensures Inv(s') && s'.isFinished
    decreases |events|
  {
    if events != [] {
      StepWork(s, events[0]);
      StepKeepsInv(s, events[0]);
      ShutdownIsRequestedForGood(s, events[0]);
      ShutdownIsBounded(Apply(s, events[0]), events[1..], s');
    }
  }

  /** A run after shutdown that cannot be extended has drained: the worker has left and the destructor has joined it;
      every operation whose completion was pushed before the worker left has been released, and what is still
      completed was pushed after it. */
  lemma ShutdownDrains(before: seq<Event>, s: State, events: seq<Event>, s': State)
    requires Reaches(Initial(), before, s) && s.isFinished && Reaches(s, events, s') && !CanStep(s')
    ensures ShutDown(s') && HostsQuiet(s')
    ensures InternalSteps(events) <= Work(s) + 11 * HostStarts(events)
    ensures forall op :: op in s'.drained <==> op in s'.released
    ensures forall op :: op in s'.completed ==> op !in s'.drained
    ensures forall op :: op in s'.phase && Pushed(s'.phase[op]) ==> op in s'.drained || op in s'.completed
  {
    InitialInv();
    RunKeepsInv(Initial(), before, s);
    ShutdownIsBounded(s, events, s');
    StuckOnlyWhenDone(s');
    JoinedLeftovers(s');
    forall op | op in s'.phase && Pushed(s'.phase[op])
      ensures op in s'.drained || op in s'.completed
    {
      assert op !in s'.submitted ==> Extracted(s', op);
    }
  }
}
