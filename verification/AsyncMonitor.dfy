/** The monitor object: what each critical section does to its fields, tied to the steps of the interleaving model. */
module AsyncMonitor {
  import Monitor

  datatype Action = Drop(op: nat) | Wait | Leave

  function LastFirst(q: seq<nat>): seq<nat> {
    if q == [] then [] else [q[|q| - 1]] + LastFirst(q[..|q| - 1])
  }

  /** What one turn may do: take the latest completed operation out of both collections, block, or leave. */
  ghost predicate IsTurn(submitted: set<nat>, completed: seq<nat>, isFinished: bool, action: Action,
                         submitted': set<nat>, completed': seq<nat>) {
    match action
    case Drop(op) => completed == completed' + [op] && submitted' == submitted - {op}
    case Wait => completed == completed' == [] && submitted' == submitted && !isFinished
    case Leave => completed == completed' == [] && submitted' == submitted && isFinished
  }

  function WorkerAfter(action: Action): Monitor.Worker {
    match action
    case Drop(op) => Monitor.Releasing(op)
    case Wait => Monitor.Waiting
    case Leave => Monitor.Exited
  }

  /** A turn is exactly the worker's locked step in the interleaving model, and leaves the mutex free. */
  lemma TurnIsWorkerStep(s: Monitor.State, action: Action, submitted': set<nat>, completed': seq<nat>)
    ensures IsTurn(s.submitted, s.completed, s.isFinished, action, submitted', completed') <==>
            var s' := Monitor.Apply(s, Monitor.WorkerStep);
            s'.submitted == submitted' && s'.completed == completed' && s'.worker == WorkerAfter(action) && !s'.mutex
  {
    if s.completed != [] {
      var n := |s.completed| - 1;
      assert s.completed == s.completed[..n] + [s.completed[n]];
    }
  }

  class AsyncMonitor {
    var submittedOps: set<nat>
    var completedOps: seq<nat>
    var isFinished: bool
    /** Operations that still hold their file, buffer and stream references. */
    var holding: set<nat>

    constructor ()
      ensures Models(Monitor.Initial()) && holding == {}
    {
      submittedOps, completedOps, isFinished, holding := {}, [], false, {};
    }

    /** The fields as the interleaving model has them. */
    ghost predicate Models(s: Monitor.State)
      reads this
    {
      submittedOps == s.submitted && completedOps == s.completed && isFinished == s.isFinished
    }

    method AddOp(op: nat, ghost s: Monitor.State)
      requires Models(s)
      modifies this
      ensures Models(Monitor.Apply(s, Monitor.AddOp(op)))
      ensures holding == old(holding) + {op}
    {
      submittedOps := submittedOps + {op};
      holding := holding + {op};
    }

    /** An unknown operation is refused and nothing changes; otherwise its references are dropped before it can be
        seen as completed. */
    method CompleteOp(op: nat, ghost s: Monitor.State) returns (found: bool)
      requires Models(s)
      modifies this
      ensures found == (op in old(submittedOps))
      ensures Models(Monitor.Apply(s, Monitor.Complete(op)))
      ensures found ==> completedOps == old(completedOps) + [op] && holding == old(holding) - {op}
      ensures !found ==> completedOps == old(completedOps) && holding == old(holding)
    {
      if op !in submittedOps { return false; }
      holding := holding - {op};
      completedOps := completedOps + [op];
      return true;
    }

    method Finish(ghost s: Monitor.State)
      requires Models(s)
      modifies this
      ensures Models(Monitor.Apply(s, Monitor.SetFinished)) && holding == old(holding)
    {
      isFinished := true;
    }

    /** One turn of the worker's loop, up to the point where it unlocks, blocks or breaks. */
    method Turn() returns (action: Action)
      modifies this
      ensures IsTurn(old(submittedOps), old(completedOps), isFinished, action, submittedOps, completedOps)
      ensures holding == old(holding) && isFinished == old(isFinished)
    {
      if completedOps != [] {
        var op := completedOps[|completedOps| - 1];
        completedOps := completedOps[..|completedOps| - 1];
        submittedOps := submittedOps - {op};
        return Drop(op);
      } else if !isFinished {
        return Wait;
      } else {
        return Leave;
      }
    }

    /** Left to itself after shutdown, the worker drops every completed operation, the latest first, and leaves. */
    method Drain() returns (dropped: seq<nat>)
      requires isFinished
      modifies this
      ensures dropped == LastFirst(old(completedOps))
      ensures completedOps == [] && holding == old(holding) && isFinished
      ensures submittedOps == old(submittedOps) - (set op | op in old(completedOps))
    {
      dropped := [];
      while true
        invariant isFinished && holding == old(holding)
        invariant dropped + LastFirst(completedOps) == LastFirst(old(completedOps))
        invariant old(completedOps)[..|completedOps|] == completedOps && |completedOps| <= |old(completedOps)|
        invariant submittedOps == old(submittedOps) - (set op | op in old(completedOps)[|completedOps|..])
        decreases |completedOps|
      {
        ghost var before := completedOps;
        var action := Turn();
        if action.Leave? {
          assert old(completedOps)[0..] == old(completedOps);
          return;
        }
        assert LastFirst(before) == [action.op] + LastFirst(completedOps);
        assert old(completedOps)[|completedOps|..] == [action.op] + old(completedOps)[|before|..];
        dropped := dropped + [action.op];
      }
    }
  }
}
