/** Progress of the calls that submit to a stream: each takes boundedly many steps, and some call can always take one. */
module StreamProgress {
  import opened AsyncOp
  import opened StreamQueue
  import opened StreamOrder

  /** Steps a call has left at most. */
  function StepsLeft(op: Op, c: Call): nat {
    match c
    case Ready => |StagesOf(op)| + 3
    case Launching(k) => if k <= |StagesOf(op)| then |StagesOf(op)| - k + 2 else 2
    case Recovering => 1
    case _ => 0
  }

  /** Every step brings its own call nearer its end and leaves the others where they are. */
  lemma EachStepSettles(ops: map<nat, Op>, st: Stream, e: Event)
    requires Enabled(ops, st, e)
    ensures e.id in Apply(ops, st, e).calls
    ensures StepsLeft(ops[e.id], Apply(ops, st, e).calls[e.id]) < StepsLeft(ops[e.id], st.calls[e.id])
    ensures forall id :: id != e.id ==>
              (id in Apply(ops, st, e).calls <==> id in st.calls)
              && (id in st.calls ==> Apply(ops, st, e).calls[id] == st.calls[id])
  {
  }

  function StepsOf(events: seq<Event>, id: nat): nat {
    if events == [] then 0 else (if events[0].id == id then 1 else 0) + StepsOf(events[1..], id)
  }

  /** Under every schedule, with failures or without, a call takes no more steps than it had left. */
  lemma {:induction false} CallsAreBounded(ops: map<nat, Op>, st: Stream, events: seq<Event>, st': Stream, id: nat)
    requires Reaches(ops, st, events, st') && id in ops && id in st.calls
    ensures id in st'.calls && StepsOf(events, id) + StepsLeft(ops[id], st'.calls[id]) <= StepsLeft(ops[id], st.calls[id])
    decreases |events|
  {
    if events != [] {
      EachStepSettles(ops, st, events[0]);
      CallsAreBounded(ops, Apply(ops, st, events[0]), events[1..], st', id);
    }
  }

  /** The stream lock is never left behind: the calls are stuck exactly when every one of them has settled, and then the
      lock is free. */
  lemma StuckOnlyWhenSettled(ops: map<nat, Op>, st: Stream)
    requires StreamInv(ops, st)
    ensures (forall e :: !Enabled(ops, st, e)) <==> (forall id :: id in st.calls ==> Settled(st.calls[id]))
    ensures (forall id :: id in st.calls ==> Settled(st.calls[id])) ==> st.lock == FREE
  {
    if id :| id in st.calls && !Settled(st.calls[id]) {
      var e := if st.lock != FREE then Launch(st.lock)
               else if st.calls[id] == Ready then Lock(id) else RecoverLaunch(id);
      assert Enabled(ops, st, e);
    }
  }
}
