/** The order of entries in a stream's queue: cleanup comes once and last for every operation, and only stray
    cleanups ever separate the stages of one operation. */
module StreamOrder {
  import opened AsyncOp
  import opened StreamQueue

  predicate Settled(c: Call) { c.Succeeded? || c.Raised? }

  /** The cleanup a failed call enqueued after releasing the lock. */
  predicate IsStray(st: Stream, i: nat)
    requires i < |st.queue|
  {
    st.queue[i].1 == Cleanup && st.queue[i].0 in st.calls && st.calls[st.queue[i].0].Raised?
  }

  ghost predicate CleanupIsLast(st: Stream) {
    forall i, j :: 0 <= i < j < |st.queue| && st.queue[i].1 == Cleanup ==> st.queue[j].0 != st.queue[i].0
  }

  ghost predicate OnlyStraysBetween(st: Stream) {
    forall i, j, l :: 0 <= i < j < l < |st.queue| && st.queue[i].0 == st.queue[l].0 && st.queue[j].0 != st.queue[i].0 ==>
      IsStray(st, j) || IsStray(st, l)
  }

  ghost predicate OrderInv(st: Stream) {
    && CleanupIsLast(st) && OnlyStraysBetween(st)
    && (forall i :: 0 <= i < |st.queue| ==> st.queue[i].0 in st.calls && !st.calls[st.queue[i].0].Ready?)
    && (forall i :: 0 <= i < |st.queue| && st.queue[i].1 == Cleanup ==> Settled(st.calls[st.queue[i].0]))
    && (forall i, j :: 0 <= i < j < |st.queue| && st.queue[i].0 == st.lock && st.queue[j].0 != st.lock ==> IsStray(st, j))
  }

  lemma OnlyLastStageCleansUp(op: Op, k: nat)
    requires k < |StagesOf(op)|
    ensures StagesOf(op)[k] == Cleanup <==> k + 1 == |StagesOf(op)|
  {
  }

  /** Strays stay strays: a call that has raised does nothing more. */
  lemma StraysStay(ops: map<nat, Op>, st: Stream, e: Event)
    requires StreamInv(ops, st) && Enabled(ops, st, e)
    ensures |st.queue| <= |Apply(ops, st, e).queue| && Apply(ops, st, e).queue[..|st.queue|] == st.queue
    ensures forall i :: 0 <= i < |st.queue| && IsStray(st, i) ==> IsStray(Apply(ops, st, e), i)
  {
    var st' := Apply(ops, st, e);
    assert forall i :: 0 <= i < |st.queue| ==> st'.queue[i] == st.queue[i];
  }

  lemma QuietStep(ops: map<nat, Op>, st: Stream, e: Event)
    requires StreamInv(ops, st) && OrderInv(st) && Enabled(ops, st, e) && !e.Launch? && !e.RecoverLaunch?
    ensures OrderInv(Apply(ops, st, e))
  {
    var st' := Apply(ops, st, e);
    StraysStay(ops, st, e);
    assert st'.queue == st.queue;
    assert forall i :: 0 <= i < |st.queue| ==> st.queue[i].0 in st.calls;
  }

  /** Appending entry x of an unsettled call keeps the order: either that call holds the lock, or x is a stray. */
  lemma AppendKeepsOrder(st: Stream, st': Stream, x: Entry)
    requires OrderInv(st) && x.0 in st.calls && !Settled(st.calls[x.0])
    requires x.0 in st'.calls && st'.queue == st.queue + [x] && st'.calls == st.calls[x.0 := st'.calls[x.0]] && !st'.calls[x.0].Ready?
    requires st'.lock == st.lock || st'.lock == FREE
    requires x.1 == Cleanup ==> Settled(st'.calls[x.0])
    requires if x.0 == st.lock then true else IsStray(st', |st.queue|)
    requires forall i :: 0 <= i < |st.queue| && IsStray(st, i) ==> IsStray(st', i)
    ensures OrderInv(st')
  {
    var n := |st.queue|;
    assert st'.queue[n] == x;
    assert forall i :: 0 <= i < n ==> st'.queue[i] == st.queue[i] && st.queue[i].0 in st.calls;
    forall i, j, l | 0 <= i < j < l < |st'.queue| && st'.queue[i].0 == st'.queue[l].0 && st'.queue[j].0 != st'.queue[i].0
      ensures IsStray(st', j) || IsStray(st', l)
    {
      if l < n {
        assert IsStray(st, j) || IsStray(st, l);
      } else if x.0 == st.lock {
        assert st.queue[i].0 == st.lock && st.queue[j].0 != st.lock;
        assert IsStray(st, j);
      }
    }
  }

  lemma LaunchStep(ops: map<nat, Op>, st: Stream, id: nat)
    requires StreamInv(ops, st) && OrderInv(st) && Enabled(ops, st, Launch(id))
    ensures OrderInv(Apply(ops, st, Launch(id)))
  {
    StraysStay(ops, st, Launch(id));
    OnlyLastStageCleansUp(ops[id], st.calls[id].k);
    AppendKeepsOrder(st, Apply(ops, st, Launch(id)), (id, StagesOf(ops[id])[st.calls[id].k]));
  }

  lemma RecoverStep(ops: map<nat, Op>, st: Stream, id: nat)
    requires StreamInv(ops, st) && OrderInv(st) && Enabled(ops, st, RecoverLaunch(id))
    ensures OrderInv(Apply(ops, st, RecoverLaunch(id)))
  {
    StraysStay(ops, st, RecoverLaunch(id));
    AppendKeepsOrder(st, Apply(ops, st, RecoverLaunch(id)), (id, Cleanup));
  }

  lemma StepKeepsOrder(ops: map<nat, Op>, st: Stream, e: Event)
    requires StreamInv(ops, st) && OrderInv(st) && Enabled(ops, st, e)
    ensures OrderInv(Apply(ops, st, e))
  {
    match e {
      case Launch(id) => LaunchStep(ops, st, id);
      case RecoverLaunch(id) => RecoverStep(ops, st, id);
      case _ => QuietStep(ops, st, e);
    }
  }

  /** In every run of concurrent, failing and recovering calls: at most one cleanup per operation and nothing of it
      afterwards, so every bind or copy stage finds its references set; and the stages of an operation are
      contiguous but for the cleanups of calls that failed. */
  lemma {:induction false} QueueOrder(ops: map<nat, Op>, st: Stream, events: seq<Event>, st': Stream)
    requires StreamInv(ops, st) && OrderInv(st) && Reaches(ops, st, events, st')
    ensures OrderInv(st') && CleanupIsLast(st') && OnlyStraysBetween(st')
    decreases |events|
  {
    if events != [] {
      EventKeepsInv(ops, st, events[0]);
      StepKeepsOrder(ops, st, events[0]);
      QueueOrder(ops, Apply(ops, st, events[0]), events[1..], st');
    }
  }

  lemma InitialOrder(ops: map<nat, Op>)
    ensures StreamInv(ops, InitialStream(ops)) && OrderInv(InitialStream(ops))
  {
  }

  lemma ReachableQueueOrder(ops: map<nat, Op>, events: seq<Event>, st: Stream)
    requires Reaches(ops, InitialStream(ops), events, st)
    ensures CleanupIsLast(st) && OnlyStraysBetween(st)
  {
    InitialOrder(ops);
    QueueOrder(ops, InitialStream(ops), events, st);
  }

  /** Some run of calls leads to this state of the stream. */
  ghost predicate Reachable(ops: map<nat, Op>, st: Stream) {
    exists events: seq<Event> :: Reaches(ops, InitialStream(ops), events, st)
  }

  lemma {:induction false} ReachesSnoc(ops: map<nat, Op>, st: Stream, events: seq<Event>, st': Stream, e: Event)
    requires Reaches(ops, st, events, st') && Enabled(ops, st', e)
    ensures Reaches(ops, st, events + [e], Apply(ops, st', e))
    decreases |events|
  {
    if events == [] {
      assert ([] + [e])[1..] == [];
      assert Reaches(ops, Apply(ops, st', e), [], Apply(ops, st', e));
    } else {
      ReachesSnoc(ops, Apply(ops, st, events[0]), events[1..], st', e);
      assert (events + [e])[1..] == events[1..] + [e];
    }
  }

  lemma StepStaysReachable(ops: map<nat, Op>, st: Stream, e: Event)
    requires Reachable(ops, st) && Enabled(ops, st, e)
    ensures Reachable(ops, Apply(ops, st, e))
  {
    var events :| Reaches(ops, InitialStream(ops), events, st);
    ReachesSnoc(ops, InitialStream(ops), events, st, e);
  }

  lemma InitialReachable(ops: map<nat, Op>)
    ensures Reachable(ops, InitialStream(ops))
  {
    assert Reaches(ops, InitialStream(ops), [], InitialStream(ops));
  }

  /** What a queue looks like in every reachable state: known operations only, one cleanup each, last, and after the
      call has settled. */
  lemma QueueFacts(ops: map<nat, Op>, st: Stream)
    requires Reachable(ops, st)
    ensures st.calls.Keys == ops.Keys && CleanupIsLast(st)
    ensures forall i :: 0 <= i < |st.queue| ==> st.queue[i].0 in ops
    ensures forall i :: 0 <= i < |st.queue| && st.queue[i].1 == Cleanup ==> Settled(st.calls[st.queue[i].0])
  {
    var events :| Reaches(ops, InitialStream(ops), events, st);
    InitialOrder(ops);
    QueueOrder(ops, InitialStream(ops), events, st);
    InvReaches(ops, InitialStream(ops), events, st);
  }

  lemma {:induction false} InvReaches(ops: map<nat, Op>, st: Stream, events: seq<Event>, st': Stream)
    requires StreamInv(ops, st) && Reaches(ops, st, events, st')
    ensures StreamInv(ops, st')
    decreases |events|
  {
    if events != [] {
      EventKeepsInv(ops, st, events[0]);
      InvReaches(ops, Apply(ops, st, events[0]), events[1..], st');
    }
  }

  /** The stages of every operation are next to each other. */
  ghost predicate Unsplit(q: seq<Entry>) {
    forall i, j, l :: 0 <= i < j < l < |q| && q[i].0 == q[l].0 ==> q[j].0 == q[i].0
  }

  ghost predicate Contiguous(st: Stream) { Unsplit(st.queue) }

  /** An entry of id may come next without splitting its stages: it is the first, or follows its own. */
  predicate Adjoins(q: seq<Entry>, id: nat) {
    (forall i :: 0 <= i < |q| ==> q[i].0 != id) || (q != [] && q[|q| - 1].0 == id)
  }

  lemma AppendContiguous(q: seq<Entry>, x: Entry)
    ensures Unsplit(q + [x]) <==> Unsplit(q) && Adjoins(q, x.0)
  {
    var q' := q + [x];
    assert q'[|q|] == x && forall i :: 0 <= i < |q| ==> q'[i] == q[i];
    if i :| Unsplit(q') && 0 <= i < |q| && q[i].0 == x.0 {
      var last := |q| - 1;
      assert i < last ==> q'[i].0 == q'[|q|].0 && q'[last].0 == q'[i].0;
    }
  }

  /** Every launch of the run, and every cleanup retried after a failure, adjoins the queue it finds. */
  ghost predicate NoSplit(ops: map<nat, Op>, st: Stream, events: seq<Event>)
    decreases |events|
  {
    events != [] && Enabled(ops, st, events[0]) ==>
      && (events[0].Launch? || events[0].RecoverLaunch? ==> Adjoins(st.queue, events[0].id))
      && NoSplit(ops, Apply(ops, st, events[0]), events[1..])
  }

  lemma StepContiguous(ops: map<nat, Op>, st: Stream, e: Event)
    requires Enabled(ops, st, e)
    ensures Contiguous(Apply(ops, st, e)) <==>
            Contiguous(st) && (e.Launch? || e.RecoverLaunch? ==> Adjoins(st.queue, e.id))
  {
    match e {
      case Launch(id) => AppendContiguous(st.queue, (id, StagesOf(ops[id])[st.calls[id].k]));
      case RecoverLaunch(id) => AppendContiguous(st.queue, (id, Cleanup));
      case _ =>
    }
  }

  /** Contiguity, exactly: a run leaves every operation's stages together if and only if none of its launches and
      retried cleanups found an entry of another operation behind its own. */
  lemma {:induction false} ContiguousIffNoSplit(ops: map<nat, Op>, st: Stream, events: seq<Event>, st': Stream)
    requires Reaches(ops, st, events, st')
    ensures Contiguous(st') <==> Contiguous(st) && NoSplit(ops, st, events)
    decreases |events|
  {
    if events != [] {
      StepContiguous(ops, st, events[0]);
      ContiguousIffNoSplit(ops, Apply(ops, st, events[0]), events[1..], st');
    }
  }

  lemma ReachableContiguity(ops: map<nat, Op>, events: seq<Event>, st: Stream)
    requires Reaches(ops, InitialStream(ops), events, st)
    ensures Contiguous(st) <==> NoSplit(ops, InitialStream(ops), events)
  {
    ContiguousIffNoSplit(ops, InitialStream(ops), events, st);
  }

  /** In particular the lock keeps stages contiguous as long as no call on the stream has raised an error. */
  lemma ContiguousUnlessRaised(ops: map<nat, Op>, events: seq<Event>, st: Stream)
    requires Reaches(ops, InitialStream(ops), events, st)
    requires forall id :: id in st.calls ==> !st.calls[id].Raised?
    ensures Contiguous(st)
  {
    ReachableQueueOrder(ops, events, st);
    forall i, j, l | 0 <= i < j < l < |st.queue| && st.queue[i].0 == st.queue[l].0
      ensures st.queue[j].0 == st.queue[i].0
    {
      assert !IsStray(st, j) && !IsStray(st, l);
    }
  }

  /** Once any call may fail the lock does not keep stages contiguous, whichever the two
      operations: the cleanup of a failed call can land between the stages of the other. */
  lemma StrayCleanupSplitsStages(ops: map<nat, Op>, a: nat, b: nat) returns (events: seq<Event>, st: Stream)
    requires a in ops && b in ops && a != b
    ensures Reaches(ops, InitialStream(ops), events, st)
    ensures |st.queue| == 3 && st.queue[0].0 == b && st.queue[1] == (a, Cleanup) && st.queue[2].0 == b
    ensures !Contiguous(st)
  {
    events := [AttributeFails(a), Lock(b), Launch(b), RecoverLaunch(a), Launch(b)];
    var s0 := InitialStream(ops);
    var s1 := Apply(ops, s0, events[0]);
    var s2 := Apply(ops, s1, events[1]);
    var s3 := Apply(ops, s2, events[2]);
    var s4 := Apply(ops, s3, events[3]);
    st := Apply(ops, s4, events[4]);
    assert events[1..] == [Lock(b), Launch(b), RecoverLaunch(a), Launch(b)];
    assert events[1..][1..] == [Launch(b), RecoverLaunch(a), Launch(b)];
    assert events[1..][1..][1..] == [RecoverLaunch(a), Launch(b)];
    assert events[1..][1..][1..][1..] == [Launch(b)];
    assert Reaches(ops, st, [], st);
    assert Reaches(ops, s4, [Launch(b)], st) by { assert [Launch(b)][1..] == []; }
    assert Reaches(ops, s3, [RecoverLaunch(a), Launch(b)], st) by { assert [RecoverLaunch(a), Launch(b)][1..] == [Launch(b)]; }
  }
}
