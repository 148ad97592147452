/** AsyncMonitor: a mutex, a condition variable and a worker thread that releases completed operations.
    Steps are split at lock, wait and notify boundaries; every interleaving is a sequence of events. */
module Monitor {

  /** Top: about to lock. Waiting: blocked in cv.wait, mutex released. Woken: must lock again before it tests its
      predicate. Releasing: has extracted an operation and unlocked, about to drop the reference. */
  datatype Worker = Top | Locked | Waiting | Woken | Testing | Releasing(op: nat) | Exited

  /** An operation's cleanup: still being launched by async_io, enqueued, running as a host function (before, between
      and after the two halves of completeOp), finished, or never enqueued because both launches failed. */
  datatype Phase = Launching | Queued | Running | Notifying | Finishing | Finished | Leaked

  datatype Destructor = Alive | NotifyPending | Joining | Joined(logged: bool)

  /** calling: operations whose async_io still holds its own reference. released and freed count how often the
      monitor dropped its reference and how often the operation was destroyed. drained: the operations whose
      completion had been pushed when the worker left. */
  datatype State = State(
    phase: map<nat, Phase>, submitted: set<nat>, completed: seq<nat>, isFinished: bool, mutex: bool, worker: Worker,
    calling: set<nat>, destructor: Destructor, released: multiset<nat>, freed: multiset<nat>, drained: set<nat>)

  datatype Event =
    | AddOp(op: nat) | Enqueue(op: nat) | Leak(op: nat) | CallerReturns(op: nat)
    | HostStart(op: nat) | Complete(op: nat) | Notify(op: nat) | HostFinish(op: nat)
    | WorkerLock | WorkerStep | WorkerWake | WorkerRelock | WorkerTest | WorkerRelease
    | SetFinished | DestructorNotify | Join

  predicate HostActive(p: Phase) { p.Running? || p.Notifying? || p.Finishing? }

  /** hipHostFree synchronises the device: it returns once no host function is running. */
  ghost predicate HostsQuiet(s: State) {
    forall op :: op in s.phase ==> !HostActive(s.phase[op])
  }

  ghost predicate InPhase(s: State, op: nat, p: Phase) { op in s.phase && s.phase[op] == p }

  ghost predicate Enabled(s: State, e: Event) {
    match e
    case AddOp(op) => op !in s.phase && !s.mutex && !s.destructor.Joined?
    case Enqueue(op) => InPhase(s, op, Launching)
    case Leak(op) => InPhase(s, op, Launching)
    case CallerReturns(op) =>
      op in s.calling && op in s.phase && s.phase[op] != Launching && (op in s.released ==> HostsQuiet(s))
    case HostStart(op) => InPhase(s, op, Queued)
    case Complete(op) => InPhase(s, op, Running) && !s.mutex
    case Notify(op) => InPhase(s, op, Notifying)
    case HostFinish(op) => InPhase(s, op, Finishing)
    case WorkerLock => s.worker == Top && !s.mutex
    case WorkerStep => s.worker == Locked
    case WorkerWake => s.worker == Waiting
    case WorkerRelock => s.worker == Woken && !s.mutex
    case WorkerTest => s.worker == Testing
    case WorkerRelease => s.worker.Releasing? && (s.worker.op !in s.calling ==> HostsQuiet(s))
    case SetFinished => s.destructor == Alive && !s.mutex
    case DestructorNotify => s.destructor == NotifyPending
    case Join => s.destructor == Joining && s.worker == Exited
  }

  function WakeUp(w: Worker): Worker { if w == Waiting then Woken else w }

  /** The worker's loop body under the lock: take an operation, wait, or leave. */
  function WorkerBody(s: State): State {
    if s.completed != [] then
      var op := s.completed[|s.completed| - 1];
      s.(completed := s.completed[..|s.completed| - 1], submitted := s.submitted - {op}, mutex := false,
         worker := Releasing(op))
    else if !s.isFinished then s.(mutex := false, worker := Waiting)
    else s.(mutex := false, worker := Exited, drained := set op | op in s.phase && Pushed(s.phase[op]))
  }

  function Apply(s: State, e: Event): State {
    match e
    case AddOp(op) =>
      s.(phase := s.phase[op := Launching], submitted := s.submitted + {op}, calling := s.calling + {op})
    case Enqueue(op) => s.(phase := s.phase[op := Queued])
    case Leak(op) => s.(phase := s.phase[op := Leaked])
    case CallerReturns(op) =>
      s.(calling := s.calling - {op}, freed := if op in s.released then s.freed + multiset{op} else s.freed)
    case HostStart(op) => s.(phase := s.phase[op := Running])
    case Complete(op) =>
      if op in s.submitted then s.(phase := s.phase[op := Notifying], completed := s.completed + [op])
      else s.(phase := s.phase[op := Finishing])
    case Notify(op) => s.(phase := s.phase[op := Finishing], worker := WakeUp(s.worker))
    case HostFinish(op) => s.(phase := s.phase[op := Finished])
    case WorkerLock => s.(worker := Locked, mutex := true)
    case WorkerStep => WorkerBody(s)
    case WorkerWake => s.(worker := Woken)
    case WorkerRelock => s.(worker := Testing, mutex := true)
    case WorkerTest => s.(mutex := false, worker := if s.isFinished || s.completed != [] then Top else Waiting)
    case WorkerRelease =>
      if !s.worker.Releasing? then s
      else
        var op := s.worker.op;
        s.(worker := Top, released := s.released + multiset{op},
           freed := if op in s.calling then s.freed else s.freed + multiset{op})
    case SetFinished => s.(isFinished := true, destructor := NotifyPending)
    case DestructorNotify => s.(destructor := Joining, worker := WakeUp(s.worker))
    case Join => s.(destructor := Joined(s.submitted != {}))
  }

  function Initial(): State {
    State(map[], {}, [], false, false, Top, {}, Alive, multiset{}, multiset{}, {})
  }

  ghost predicate Reaches(s: State, events: seq<Event>, s': State)
    decreases |events|
  {
    if events == [] then s' == s else Enabled(s, events[0]) && Reaches(Apply(s, events[0]), events[1..], s')
  }

  predicate Pushed(p: Phase) { p.Notifying? || p.Finishing? || p.Finished? }

  ghost predicate NoDuplicates(q: seq<nat>) {
    forall i, j :: 0 <= i < j < |q| ==> q[i] != q[j]
  }

  /** Extracted from submitted_ops: being released, or released. */
  ghost predicate Extracted(s: State, op: nat) {
    s.worker == Releasing(op) || op in s.released
  }

  ghost predicate LocksOk(s: State) {
    && (s.mutex <==> s.worker == Locked || s.worker == Testing)
    && (s.isFinished <==> s.destructor != Alive)
    && (s.destructor.Joined? ==> s.worker == Exited)
    && (s.worker == Exited ==> s.isFinished)
    && (s.destructor.Joined? ==> s.destructor.logged == (s.submitted != {}))
  }

  ghost predicate QueueOk(s: State) {
    && s.submitted <= s.phase.Keys && s.calling <= s.phase.Keys
    && NoDuplicates(s.completed)
    && (forall op :: op in s.completed ==> op in s.submitted && Pushed(s.phase[op]))
    && (forall op :: op in s.submitted && Pushed(s.phase[op]) ==> op in s.completed)
    && (forall op :: op in s.phase && s.phase[op] == Launching ==> op in s.calling)
  }

  ghost predicate OwnershipOk(s: State) {
    && (forall op :: op in s.phase && op !in s.submitted ==> Extracted(s, op) && Pushed(s.phase[op]))
    && (forall op :: Extracted(s, op) ==> op in s.phase && op !in s.submitted)
    && (forall op :: s.released[op] <= 1 && s.freed[op] <= 1)
    && (s.worker.Releasing? ==> s.worker.op !in s.released)
    && (forall op :: op in s.freed <==> op in s.released && op !in s.calling)
    && (forall op :: op in s.freed ==> s.phase[op] == Finished)
    && (s.worker == Exited ==> s.drained <= s.phase.Keys && s.submitted == s.phase.Keys - s.drained)
  }

  /** No lost wake-up: a blocked worker has nothing to do, or somebody's notify is still to come. */
  ghost predicate WakeupOk(s: State) {
    s.worker == Waiting ==>
      || (s.completed == [] && !s.isFinished)
      || s.destructor == NotifyPending
      || exists op :: InPhase(s, op, Notifying)
  }

  ghost predicate Inv(s: State) {
    LocksOk(s) && QueueOk(s) && OwnershipOk(s) && WakeupOk(s)
  }

  lemma LocksStep(s: State, e: Event)
    requires Inv(s) && Enabled(s, e)
    ensures LocksOk(Apply(s, e))
  {
  }

  /** Events that touch only the mutex, the worker's control point and the destructor. */
  predicate IsControl(s: State, e: Event) {
    e.WorkerLock? || e.WorkerWake? || e.WorkerRelock? || e.WorkerTest? || e.SetFinished? || e.DestructorNotify? || e.Join?
    || (e.WorkerStep? && s.completed == [])
  }

  lemma ControlStep(s: State, e: Event)
    requires Inv(s) && Enabled(s, e) && IsControl(s, e)
    ensures QueueOk(Apply(s, e)) && OwnershipOk(Apply(s, e))
  {
    var s' := Apply(s, e);
    assert forall op :: Extracted(s', op) <==> Extracted(s, op);
  }

  /** Events that move one operation's phase without crossing completeOp's push. */
  predicate IsPhaseMove(e: Event) {
    e.Enqueue? || e.Leak? || e.HostStart? || e.Notify? || e.HostFinish?
  }

  /** Moving one operation within the phases before, or after, the push; the worker may be woken up. */
  ghost predicate Moves(s: State, op: nat, p: Phase, s': State) {
    && op in s.phase && s.phase[op] != Finished && Pushed(p) == Pushed(s.phase[op]) && p != Launching
    && s' == s.(phase := s.phase[op := p], worker := s'.worker)
    && (s'.worker == s.worker || s'.worker == WakeUp(s.worker))
  }

  lemma MoveKeepsQueue(s: State, op: nat, p: Phase, s': State)
    requires QueueOk(s) && Moves(s, op, p, s')
    ensures QueueOk(s')
  {
  }

  lemma MoveKeepsOwnership(s: State, op: nat, p: Phase, s': State)
    requires OwnershipOk(s) && Moves(s, op, p, s')
    ensures OwnershipOk(s')
  {
    assert s'.phase.Keys == s.phase.Keys;
    assert forall x :: Extracted(s', x) <==> Extracted(s, x);
  }

  lemma PhaseMoveStep(s: State, e: Event)
    requires Inv(s) && Enabled(s, e) && IsPhaseMove(e)
    ensures QueueOk(Apply(s, e)) && OwnershipOk(Apply(s, e))
  {
    var s' := Apply(s, e);
    assert Moves(s, e.op, s'.phase[e.op], s');
    MoveKeepsQueue(s, e.op, s'.phase[e.op], s');
    MoveKeepsOwnership(s, e.op, s'.phase[e.op], s');
  }

  lemma AddStep(s: State, op: nat)
    requires Inv(s) && Enabled(s, AddOp(op))
    ensures QueueOk(Apply(s, AddOp(op))) && OwnershipOk(Apply(s, AddOp(op)))
  {
    var s' := Apply(s, AddOp(op));
    assert forall x :: Extracted(s', x) <==> Extracted(s, x);
    assert op !in s.completed && op !in s.submitted && !Extracted(s, op);
  }

  /** The push finds its operation still submitted: the throw in completeOp is unreachable. */
  lemma PushFindsOp(s: State, op: nat)
    requires Inv(s) && InPhase(s, op, Running)
    ensures op in s.submitted && op !in s.completed
  {
  }

  lemma PushStep(s: State, op: nat)
    requires Inv(s) && Enabled(s, Complete(op))
    ensures QueueOk(Apply(s, Complete(op))) && OwnershipOk(Apply(s, Complete(op)))
  {
    PushFindsOp(s, op);
    var s' := Apply(s, Complete(op));
    assert forall x :: Extracted(s', x) <==> Extracted(s, x);
    assert forall x :: x in s'.completed <==> x in s.completed || x == op;
  }

  /** Popping the last of distinct operations leaves the others. */
  lemma PopLast(q: seq<nat>)
    requires NoDuplicates(q) && q != []
    ensures NoDuplicates(q[..|q| - 1])
    ensures forall x :: x in q[..|q| - 1] <==> x in q && x != q[|q| - 1]
  {
    assert q == q[..|q| - 1] + [q[|q| - 1]];
  }

  lemma TakeKeepsQueue(s: State)
    requires QueueOk(s) && s.completed != []
    ensures QueueOk(WorkerBody(s))
  {
    PopLast(s.completed);
  }

  lemma TakeKeepsOwnership(s: State)
    requires OwnershipOk(s) && s.completed != [] && s.worker == Locked && s.completed[|s.completed| - 1] in s.submitted
    requires var op := s.completed[|s.completed| - 1]; op in s.phase && Pushed(s.phase[op])
    ensures OwnershipOk(WorkerBody(s))
  {
    var op := s.completed[|s.completed| - 1];
    assert !Extracted(s, op);
    assert forall x :: Extracted(WorkerBody(s), x) <==> Extracted(s, x) || x == op;
  }

  lemma TakeStep(s: State)
    requires Inv(s) && Enabled(s, WorkerStep) && s.completed != []
    ensures QueueOk(Apply(s, WorkerStep)) && OwnershipOk(Apply(s, WorkerStep))
  {
    assert s.completed[|s.completed| - 1] in s.completed;
    TakeKeepsQueue(s);
    TakeKeepsOwnership(s);
  }

  lemma ReleaseStep(s: State)
    requires Inv(s) && Enabled(s, WorkerRelease)
    ensures QueueOk(Apply(s, WorkerRelease)) && OwnershipOk(Apply(s, WorkerRelease))
  {
    var s' := Apply(s, WorkerRelease);
    var op := s.worker.op;
    assert Extracted(s, op);
    assert forall x :: Extracted(s', x) <==> Extracted(s, x);
    assert op !in s.freed;
  }

  lemma ReturnStep(s: State, op: nat)
    requires Inv(s) && Enabled(s, CallerReturns(op))
    ensures QueueOk(Apply(s, CallerReturns(op))) && OwnershipOk(Apply(s, CallerReturns(op)))
  {
    var s' := Apply(s, CallerReturns(op));
    assert forall x :: Extracted(s', x) <==> Extracted(s, x);
    if op in s.released { assert Extracted(s, op) && op !in s.freed; }
  }

  lemma WakeupStep(s: State, e: Event)
    requires Inv(s) && Enabled(s, e)
    ensures WakeupOk(Apply(s, e))
  {
    var s' := Apply(s, e);
    if s'.worker == Waiting && s.worker == Waiting && (exists op :: InPhase(s, op, Notifying)) {
      var op :| InPhase(s, op, Notifying);
      assert InPhase(s', op, Notifying);
    }
    if e.Complete? { assert InPhase(s', e.op, Notifying) || e.op !in s.submitted; }
  }

  lemma StepKeepsInv(s: State, e: Event)
    requires Inv(s) && Enabled(s, e)
    ensures Inv(Apply(s, e))
  {
    LocksStep(s, e);
    WakeupStep(s, e);
    if IsControl(s, e) {
      ControlStep(s, e);
    } else if IsPhaseMove(e) {
      PhaseMoveStep(s, e);
    } else {
      match e {
        case AddOp(op) => AddStep(s, op);
        case Complete(op) => PushStep(s, op);
        case WorkerStep => TakeStep(s);
        case WorkerRelease => ReleaseStep(s);
        case CallerReturns(op) => ReturnStep(s, op);
        case _ =>
      }
    }
  }

  /** Every state of every run keeps all invariants: no lost wake-up; completed operations are distinct and still
      submitted; an operation is released at most once, and destroyed at most once, only after its cleanup host
      function has finished; the worker never releases while it holds the mutex. */
  lemma {:induction false} RunKeepsInv(s: State, events: seq<Event>, s': State)
    requires Inv(s) && Reaches(s, events, s')
    ensures Inv(s')
    decreases |events|
  {
    if events != [] {
      StepKeepsInv(s, events[0]);
      RunKeepsInv(Apply(s, events[0]), events[1..], s');
    }
  }

  lemma ReachesCons(s: State, e: Event, rest: seq<Event>, s': State)
    requires Enabled(s, e) && Reaches(Apply(s, e), rest, s')
    ensures Reaches(s, [e] + rest, s')
  {
    assert ([e] + rest)[1..] == rest;
  }

  /** What a client relies on. A blocked worker has nothing to do or is about to be notified; every completed
      operation is still owned by the monitor, once; each operation is released and destroyed at most once, never
      before its cleanup has finished, and the worker holds no lock while it releases; a cleanup that is running finds
      its operation submitted, so completeOp does not throw. */
  ghost predicate Safe(s: State) {
    && (s.worker == Waiting && (s.completed != [] || s.isFinished) ==>
          s.destructor == NotifyPending || exists op :: InPhase(s, op, Notifying))
    && NoDuplicates(s.completed)
    && (forall op :: op in s.completed ==> op in s.submitted && op !in s.released)
    && (forall op :: s.released[op] <= 1 && s.freed[op] <= 1)
    && (forall op :: op in s.freed ==> InPhase(s, op, Finished) && op in s.released && op !in s.calling)
    && (s.worker.Releasing? ==> !s.mutex)
    && (forall op :: InPhase(s, op, Running) ==> op in s.submitted && op !in s.completed)
  }

  lemma InvIsSafe(s: State)
    requires Inv(s)
    ensures Safe(s)
  {
    forall op | op in s.completed
      ensures op in s.submitted && op !in s.released
    {
      assert op in s.released ==> Extracted(s, op);
    }
    forall op | op in s.freed
      ensures InPhase(s, op, Finished) && op in s.released && op !in s.calling
    {
      assert Extracted(s, op);
    }
  }

  lemma InitialInv()
    ensures Inv(Initial())
  {
  }

  lemma ReachableMonitorIsSafe(events: seq<Event>, s: State)
    requires Reaches(Initial(), events, s)
    ensures Safe(s)
  {
    InitialInv();
    RunKeepsInv(Initial(), events, s);
    InvIsSafe(s);
  }

  /** Once shutdown has been requested the worker never goes to sleep again. */
  lemma FinishedWorkerStaysAwake(s: State, e: Event)
    requires Inv(s) && Enabled(s, e) && (s.isFinished || e == SetFinished) && Apply(s, e).worker == Waiting
    ensures s.worker == Waiting && Apply(s, e).isFinished
  {
  }

  /** A worker that wakes up goes back to sleep exactly when it finds nothing completed and no shutdown requested; under
      the lock it sleeps or leaves exactly when nothing is completed, and leaves exactly after shutdown was requested. */
  lemma WorkerDecides(s: State)
    requires Inv(s)
    ensures Enabled(s, WorkerTest) ==>
              && (Apply(s, WorkerTest).worker == Waiting <==> s.completed == [] && !s.isFinished)
              && Apply(s, WorkerTest).worker in {Waiting, Top} && !Apply(s, WorkerTest).mutex
    ensures Enabled(s, WorkerStep) ==>
              && (Apply(s, WorkerStep).worker == Waiting <==> s.completed == [] && !s.isFinished)
              && (Apply(s, WorkerStep).worker == Exited <==> s.completed == [] && s.isFinished)
              && (s.completed != [] ==> Apply(s, WorkerStep).worker.Releasing? && Apply(s, WorkerStep).worker.op in s.completed)
              && !Apply(s, WorkerStep).mutex
  {
  }

  /** The worker leaves only when every operation completed so far has been released, and what it has drained by then
      does not change any more. */
  lemma WorkerLeavesDrained(s: State, e: Event)
    requires Inv(s) && Enabled(s, e) && Apply(s, e).worker == Exited
    ensures s.worker != Exited ==>
              forall op :: op in Apply(s, e).drained <==> op in s.phase && Pushed(s.phase[op])
    ensures s.worker != Exited ==> forall op :: op in Apply(s, e).drained ==> op in s.released
    ensures s.worker == Exited ==> Apply(s, e).drained == s.drained
  {
    if s.worker != Exited {
      assert e == WorkerStep && s.completed == [];
      forall op | op in s.phase && Pushed(s.phase[op])
        ensures op in s.released
      {
        assert op !in s.submitted && Extracted(s, op);
      }
    }
  }

  /** What has been drained is exactly what has been released, so the destructor logs if and only if some added
      operation was not completed before the worker left. */
  lemma DestructorLogsExactlyLeftovers(events: seq<Event>, s: State)
    requires Reaches(Initial(), events, s) && s.destructor.Joined?
    ensures forall op :: op in s.drained <==> op in s.released
    ensures s.destructor.logged <==> exists op :: op in s.phase && op !in s.drained
    ensures forall op :: op in s.phase && (!Pushed(s.phase[op]) || op in s.completed) ==> op !in s.drained
  {
    InitialInv();
    RunKeepsInv(Initial(), events, s);
    JoinedLeftovers(s);
  }

  lemma JoinedLeftovers(s: State)
    requires Inv(s) && s.destructor.Joined?
    ensures forall op :: op in s.drained <==> op in s.released
    ensures s.destructor.logged <==> exists op :: op in s.phase && op !in s.drained
    ensures forall op :: op in s.phase && (!Pushed(s.phase[op]) || op in s.completed) ==> op !in s.drained
  {
    assert s.worker == Exited && s.submitted == s.phase.Keys - s.drained;
    forall op
      ensures op in s.drained <==> op in s.released
    {
      if op in s.drained { assert op in s.phase && op !in s.submitted && Extracted(s, op); }
      if op in s.released { assert Extracted(s, op) && op in s.phase && op !in s.submitted; }
    }
    if s.submitted != {} {
      var op :| op in s.submitted;
      assert op in s.phase && op !in s.drained;
    }
  }

  /** An operation dies with its last reference, whoever drops it: the caller's when the monitor's is gone already, the
      monitor's when the caller has returned. */
  lemma LastReferenceDestroys(s: State, op: nat)
    requires Inv(s)
    ensures Enabled(s, CallerReturns(op)) ==>
              var s' := Apply(s, CallerReturns(op));
              op !in s'.calling && s'.released == s.released
              && s'.freed[op] == s.freed[op] + (if op in s.released then 1 else 0)
    ensures s.worker == Releasing(op) && Enabled(s, WorkerRelease) ==>
              var s' := Apply(s, WorkerRelease);
              s'.worker == Top && s'.released[op] == 1 && s'.calling == s.calling
              && s'.freed[op] == (if op in s.calling then 0 else 1)
  {
    if s.worker == Releasing(op) { assert Extracted(s, op) && op !in s.released && op !in s.freed; }
  }
}
