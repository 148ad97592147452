/** Lifetimes across the library: the driver's holders, the streams with their queues, the completion monitor and the
    batch contexts as one machine. A stream launches and runs on its own guards only; that the monitor and the driver are
    always ready for what it does is proved. */
module Lifetime {
  import opened Memory
  import opened AsyncOp
  import M = Monitor
  import D = Driver
  import S = DriverSafety
  import Q = StreamQueue
  import O = StreamOrder
  import RC = RefCounts
  import R = FileRegistry
  import B = BufferRegistry
  import L = FdLedger
  import Descriptor
  import Batch

  /** Who keeps the file and buffer references of a token. */
  datatype User = AsyncUser(id: nat) | BatchUser(context: nat)

  datatype Context = Context(capacity: nat, outstanding: set<nat>)

  /** done: how many entries of its queue each stream has run. token: the references an operation was made with.
      owner: the tokens whose references belong to an operation; the others belong to calls in progress. */
  datatype Joint = Joint(driver: D.State, monitor: M.State, streams: map<nat, Q.Stream>, done: map<nat, nat>,
                         token: map<nat, nat>, owner: map<nat, User>, batch: map<nat, Context>)

  /** The operations that are ever submitted to each stream. */
  type Plan = map<nat, map<nat, Op>>

  datatype Event =
    | DriverEvent(d: D.Event) | Adopt(stream: nat, id: nat, t: nat) | Submit(stream: nat, q: Q.Event)
    | RunEntry(stream: nat) | MonitorEvent(m: M.Event) | CompleteOp(id: nat)
    | BatchCreate(context: nat, capacity: nat) | BatchSubmit(context: nat, tokens: set<nat>)
    | BatchDestroy(context: nat, order: seq<nat>)

  /** Steps of the monitor that nobody else takes part in. */
  predicate MonitorOnly(m: M.Event) {
    !m.AddOp? && !m.Enqueue? && !m.Leak? && !m.HostStart? && !m.Complete?
  }

  /** References of operations are dropped by completion alone. */
  predicate DropsOwned(owner: map<nat, User>, d: D.Event) {
    (d.DropFileRef? || d.DropBufferRef?) && d.t in owner
  }

  ghost predicate Held(s: Joint, t: nat) {
    t in s.driver.files.holders && t in s.driver.buffers.holders
  }

  /** The elements of a set, each once, in some order. */
  ghost predicate Enumerates(order: seq<nat>, ts: set<nat>) {
    M.NoDuplicates(order) && forall t :: t in order <==> t in ts
  }

  ghost predicate Enabled(plan: Plan, s: Joint, e: Event) {
    match e
    case DriverEvent(d) => D.Enabled(s.driver, d) && !DropsOwned(s.owner, d)
    case Adopt(k, id, t) =>
      k in plan && id in plan[k] && Held(s, t) && t !in s.owner && M.Enabled(s.monitor, M.AddOp(id))
    case Submit(k, q) => k in plan && k in s.streams && q.id in s.monitor.phase && Q.Enabled(plan[k], s.streams[k], q)
    case RunEntry(k) => k in plan && k in s.streams && k in s.done && s.done[k] < |s.streams[k].queue|
    case MonitorEvent(m) => MonitorOnly(m) && M.Enabled(s.monitor, m)
    case CompleteOp(id) => M.Enabled(s.monitor, M.Complete(id))
    case BatchCreate(c, capacity) => c !in s.batch && 1 <= capacity <= Batch.MAX_SIZE
    case BatchSubmit(c, ts) =>
      && c in s.batch && |ts| <= Batch.Room(s.batch[c].capacity, |s.batch[c].outstanding|)
      && forall t :: t in ts ==> Held(s, t) && t !in s.owner
    case BatchDestroy(c, order) => c in s.batch && Enumerates(order, s.batch[c].outstanding)
  }

  function WithoutTokens(owner: map<nat, User>, ts: set<nat>): map<nat, User> {
    map t | t in owner && t !in ts :: owner[t]
  }

  /** The monitor's side of a call's step: a cleanup is enqueued, or both attempts to enqueue it have failed. */
  function SubmitPart(ops: map<nat, Op>, st: Q.Stream, q: Q.Event): seq<M.Event>
    requires Q.Enabled(ops, st, q)
  {
    match q
    case Launch(id) => if st.calls[id].k + 1 == |StagesOf(ops[id])| then [M.Enqueue(id)] else []
    case RecoverLaunch(id) => [M.Enqueue(id)]
    case RecoverFails(id) => [M.Leak(id)]
    case _ => []
  }

  function RunPart(entry: Q.Entry): seq<M.Event> {
    if entry.1 == Cleanup then [M.HostStart(entry.0)] else []
  }

  /** What the monitor does in a joint step. */
  ghost function MonitorPart(plan: Plan, s: Joint, e: Event): seq<M.Event>
    requires Enabled(plan, s, e)
  {
    match e
    case Adopt(_, id, _) => [M.AddOp(id)]
    case Submit(k, q) => SubmitPart(plan[k], s.streams[k], q)
    case RunEntry(k) => RunPart(s.streams[k].queue[s.done[k]])
    case MonitorEvent(m) => [m]
    case CompleteOp(id) => [M.Complete(id)]
    case _ => []
  }

  /** Completion that finds its operation. */
  predicate Completes(s: Joint, id: nat) {
    id in s.monitor.submitted && id in s.token && s.token[id] in s.owner
  }

  /** The file and buffer references of tokens, dropped one after the other. */
  function DropsOf(order: seq<nat>): seq<D.Event> {
    if order == [] then [] else [D.DropFileRef(order[0]), D.DropBufferRef(order[0])] + DropsOf(order[1..])
  }

  /** What the driver does: completeOp drops the operation's references as it pushes it, and a context that is destroyed
      takes its outstanding operations, in any order, and their references with it. */
  ghost function DriverPart(s: Joint, e: Event): seq<D.Event> {
    match e
    case DriverEvent(d) => [d]
    case CompleteOp(id) => if Completes(s, id) then DropsOf([s.token[id]]) else []
    case BatchDestroy(_, order) => DropsOf(order)
    case _ => []
  }

  function MonitorAfter(m: M.State, events: seq<M.Event>): M.State
    decreases |events|
  {
    if events == [] then m else MonitorAfter(M.Apply(m, events[0]), events[1..])
  }

  ghost function StreamsAfter(plan: Plan, s: Joint, e: Event): map<nat, Q.Stream>
    requires Enabled(plan, s, e)
  {
    if e.Submit? then s.streams[e.stream := Q.Apply(plan[e.stream], s.streams[e.stream], e.q)] else s.streams
  }

  function DoneAfter(s: Joint, e: Event): map<nat, nat> {
    if e.RunEntry? && e.stream in s.done then s.done[e.stream := s.done[e.stream] + 1] else s.done
  }

  ghost function OwnerAfter(s: Joint, e: Event): map<nat, User> {
    match e
    case Adopt(_, id, t) => s.owner[t := AsyncUser(id)]
    case CompleteOp(id) => if Completes(s, id) then WithoutTokens(s.owner, {s.token[id]}) else s.owner
    case BatchSubmit(c, ts) => s.owner + map t | t in ts :: BatchUser(c)
    case BatchDestroy(c, _) => if c in s.batch then WithoutTokens(s.owner, s.batch[c].outstanding) else s.owner
    case _ => s.owner
  }

  ghost function BatchAfter(batch: map<nat, Context>, e: Event): map<nat, Context> {
    match e
    case BatchCreate(c, capacity) => batch[c := Context(capacity, {})]
    case BatchSubmit(c, ts) =>
      if c in batch then batch[c := batch[c].(outstanding := batch[c].outstanding + ts)] else batch
    case BatchDestroy(c, _) => batch - {c}
    case _ => batch
  }

  ghost function Apply(plan: Plan, s: Joint, e: Event): Joint
    requires Enabled(plan, s, e)
  {
    Joint(S.After(s.driver, DriverPart(s, e)), MonitorAfter(s.monitor, MonitorPart(plan, s, e)),
          StreamsAfter(plan, s, e), DoneAfter(s, e), if e.Adopt? then s.token[e.id := e.t] else s.token,
          OwnerAfter(s, e), BatchAfter(s.batch, e))
  }

  function Initial(plan: Plan): Joint {
    Joint(D.Initial(), M.Initial(), map k | k in plan :: Q.InitialStream(plan[k]), map k | k in plan :: 0,
          map[], map[], map[])
  }

  ghost predicate Reaches(plan: Plan, s: Joint, events: seq<Event>, s': Joint)
    decreases |events|
  {
    if events == [] then s' == s
    else Enabled(plan, s, events[0]) && Reaches(plan, Apply(plan, s, events[0]), events[1..], s')
  }

  // ---- A stream against the monitor's phases ----

  /** The cleanup's host function has begun. */
  predicate Begun(p: M.Phase) { M.HostActive(p) || p.Finished? }

  type Phases = map<nat, M.Phase>

  /** An operation is launching in the monitor's eyes exactly while its call has not settled. */
  ghost predicate CallsLink(ops: map<nat, Op>, calls: map<nat, Q.Call>, phase: Phases) {
    && calls.Keys == ops.Keys
    && forall id :: id in calls ==>
         if id in phase then phase[id] == M.Launching <==> !O.Settled(calls[id]) else calls[id] == Q.Ready
  }

  /** A cleanup in the queue is still queued, or has begun, as the stream has reached it. */
  ghost predicate QueueLink(queue: seq<Q.Entry>, done: nat, phase: Phases) {
    && done <= |queue|
    && (forall i :: 0 <= i < |queue| ==> queue[i].0 in phase)
    && (forall i :: 0 <= i < |queue| && queue[i].1 == Cleanup ==>
          if i >= done then phase[queue[i].0] == M.Queued else Begun(phase[queue[i].0]))
  }

  ghost predicate BegunLink(ops: map<nat, Op>, queue: seq<Q.Entry>, done: nat, phase: Phases) {
    forall id :: id in ops && id in phase && Begun(phase[id]) ==> CleanedBefore(queue, done, id)
  }

  ghost predicate CleanedBefore(queue: seq<Q.Entry>, done: nat, id: nat) {
    exists i :: 0 <= i < done && i < |queue| && queue[i] == (id, Cleanup)
  }

  ghost predicate Link(ops: map<nat, Op>, st: Q.Stream, done: nat, phase: Phases) {
    && O.Reachable(ops, st)
    && CallsLink(ops, st.calls, phase) && QueueLink(st.queue, done, phase) && BegunLink(ops, st.queue, done, phase)
  }

  /** Phases that agree on a set of operations, but for progress after the cleanup has begun. */
  ghost predicate Agree(ops: map<nat, Op>, phase: Phases, phase': Phases) {
    forall id :: id in ops ==>
      && (id in phase <==> id in phase')
      && (id in phase ==> phase'[id] == phase[id] || (Begun(phase[id]) && Begun(phase'[id])))
  }

  lemma LinkFrame(ops: map<nat, Op>, st: Q.Stream, done: nat, phase: Phases, phase': Phases)
    requires Link(ops, st, done, phase) && Agree(ops, phase, phase')
    ensures Link(ops, st, done, phase')
  {
    O.QueueFacts(ops, st);
  }

  lemma LinkAdopt(ops: map<nat, Op>, st: Q.Stream, done: nat, phase: Phases, id: nat)
    requires Link(ops, st, done, phase) && id !in phase
    ensures Link(ops, st, done, phase[id := M.Launching])
  {
  }

  lemma LinkRun(ops: map<nat, Op>, st: Q.Stream, done: nat, phase: Phases)
    requires Link(ops, st, done, phase) && done < |st.queue|
    ensures var (id, stage) := st.queue[done];
            && id in phase && !Begun(phase[id]) && (stage == Cleanup ==> phase[id] == M.Queued)
            && Link(ops, st, done + 1, if stage == Cleanup then phase[id := M.Running] else phase)
  {
    var (id, stage) := st.queue[done];
    O.QueueFacts(ops, st);
    assert !CleanedBefore(st.queue, done, id);
    var phase' := if stage == Cleanup then phase[id := M.Running] else phase;
    forall x | x in ops && x in phase' && Begun(phase'[x])
      ensures CleanedBefore(st.queue, done + 1, x)
    {
      if x == id {
        assert st.queue[done] == (id, Cleanup);
      } else {
        assert CleanedBefore(st.queue, done, x);
      }
    }
  }

  /** The phases after a step of a call. */
  function PhaseSide(ops: map<nat, Op>, st: Q.Stream, phase: Phases, q: Q.Event): Phases
    requires Q.Enabled(ops, st, q)
  {
    match q
    case Launch(id) => if st.calls[id].k + 1 == |StagesOf(ops[id])| then phase[id := M.Queued] else phase
    case RecoverLaunch(id) => phase[id := M.Queued]
    case RecoverFails(id) => phase[id := M.Leaked]
    case _ => phase
  }

  lemma CallsStepLinks(ops: map<nat, Op>, st: Q.Stream, phase: Phases, q: Q.Event)
    requires CallsLink(ops, st.calls, phase) && Q.Enabled(ops, st, q) && q.id in phase
    ensures phase[q.id] == M.Launching
    ensures CallsLink(ops, Q.Apply(ops, st, q).calls, PhaseSide(ops, st, phase, q))
  {
  }

  /** At most one known operation changes its phase. */
  ghost predicate MovesOne(phase: Phases, phase': Phases, id: nat) {
    id in phase && id in phase' && (phase' == phase || phase' == phase[id := phase'[id]])
  }

  /** A step that appends at most one entry, of an operation that is still launching. */
  lemma QueueStepLinks(queue: seq<Q.Entry>, queue': seq<Q.Entry>, done: nat, phase: Phases, phase': Phases, id: nat)
    requires QueueLink(queue, done, phase) && id in phase && phase[id] == M.Launching
    requires MovesOne(phase, phase', id) && !Begun(phase'[id])
    requires queue' == queue || (|queue'| == |queue| + 1 && queue' == queue + [(id, queue'[|queue|].1)])
    requires |queue'| > |queue| && queue'[|queue|].1 == Cleanup ==> phase'[id] == M.Queued
    ensures QueueLink(queue', done, phase')
  {
    assert forall i :: 0 <= i < |queue| ==> queue'[i] == queue[i];
  }

  lemma BegunStepLinks(ops: map<nat, Op>, queue: seq<Q.Entry>, queue': seq<Q.Entry>, done: nat, phase: Phases,
                       phase': Phases, id: nat)
    requires BegunLink(ops, queue, done, phase) && done <= |queue| <= |queue'| && queue'[..|queue|] == queue
    requires MovesOne(phase, phase', id) && !Begun(phase'[id])
    ensures BegunLink(ops, queue', done, phase')
  {
    forall x | x in ops && x in phase' && Begun(phase'[x])
      ensures CleanedBefore(queue', done, x)
    {
      assert x != id && CleanedBefore(queue, done, x);
      var i :| 0 <= i < done && i < |queue| && queue[i] == (x, Cleanup);
      assert queue'[i] == queue'[..|queue|][i];
    }
  }

  lemma LinkSubmit(ops: map<nat, Op>, st: Q.Stream, done: nat, phase: Phases, q: Q.Event)
    requires Link(ops, st, done, phase) && Q.Enabled(ops, st, q) && q.id in phase
    ensures phase[q.id] == M.Launching
    ensures Link(ops, Q.Apply(ops, st, q), done, PhaseSide(ops, st, phase, q))
  {
    var st', phase' := Q.Apply(ops, st, q), PhaseSide(ops, st, phase, q);
    O.QueueFacts(ops, st);
    O.StepStaysReachable(ops, st, q);
    CallsStepLinks(ops, st, phase, q);
    if q.Launch? { O.OnlyLastStageCleansUp(ops[q.id], st.calls[q.id].k); }
    QueueStepLinks(st.queue, st'.queue, done, phase, phase', q.id);
    assert st'.queue[..|st.queue|] == st.queue;
    BegunStepLinks(ops, st.queue, st'.queue, done, phase, phase', q.id);
  }

  ghost predicate StreamsOk(plan: Plan, streams: map<nat, Q.Stream>, done: map<nat, nat>, phase: Phases) {
    forall k :: k in plan ==> k in streams && k in done && Link(plan[k], streams[k], done[k], phase)
  }

  /** An operation belongs to one stream. */
  ghost predicate PlanOk(plan: Plan) {
    forall k, k' :: k in plan && k' in plan && k != k' ==> plan[k].Keys !! plan[k'].Keys
  }

  lemma StreamsFrame(plan: Plan, streams: map<nat, Q.Stream>, done: map<nat, nat>, phase: Phases, phase': Phases)
    requires StreamsOk(plan, streams, done, phase) && forall k :: k in plan ==> Agree(plan[k], phase, phase')
    ensures StreamsOk(plan, streams, done, phase')
  {
    forall k | k in plan
      ensures Link(plan[k], streams[k], done[k], phase')
    {
      LinkFrame(plan[k], streams[k], done[k], phase, phase');
    }
  }

  /** One stream's new state is linked, and the phases changed for an operation of its own alone. */
  lemma StreamsUpdate(plan: Plan, streams: map<nat, Q.Stream>, done: map<nat, nat>, phase: Phases, k: nat, st: Q.Stream,
                      d: nat, phase': Phases, id: nat)
    requires PlanOk(plan) && StreamsOk(plan, streams, done, phase) && k in plan && id in plan[k]
    requires Link(plan[k], st, d, phase') && MovesOne(phase, phase', id)
    ensures StreamsOk(plan, streams[k := st], done[k := d], phase')
  {
    forall x | x in plan && x != k
      ensures Link(plan[x], streams[x], done[x], phase')
    {
      assert id !in plan[x];
      LinkFrame(plan[x], streams[x], done[x], phase, phase');
    }
  }

  // ---- Who holds references ----

  /** Added and not yet completed. */
  predicate Incomplete(phase: Phases, id: nat) { id in phase && !M.Pushed(phase[id]) }

  /** Owned references are held, and those of operations belong to exactly the operations that are incomplete. */
  ghost predicate UsersOk(owner: map<nat, User>, token: map<nat, nat>, phase: Phases, held: set<nat>) {
    && (forall t :: t in owner ==> t in held)
    && (forall id :: Incomplete(phase, id) ==> id in token && token[id] in owner && owner[token[id]] == AsyncUser(id))
    && (forall t :: t in owner && owner[t].AsyncUser? ==>
          Incomplete(phase, owner[t].id) && owner[t].id in token && token[owner[t].id] == t)
  }

  /** Contexts are within their capacity, and own exactly the references of their outstanding operations. */
  ghost predicate BatchesOk(owner: map<nat, User>, batch: map<nat, Context>) {
    && (forall c :: c in batch ==>
          && 1 <= batch[c].capacity <= Batch.MAX_SIZE && |batch[c].outstanding| <= batch[c].capacity
          && forall t :: t in batch[c].outstanding ==> t in owner && owner[t] == BatchUser(c))
    && (forall t :: t in owner && owner[t].BatchUser? ==>
          owner[t].context in batch && t in batch[owner[t].context].outstanding)
  }

  function HeldTokens(d: D.State): set<nat> { d.files.holders.Keys * d.buffers.holders.Keys }

  ghost predicate Inv(plan: Plan, s: Joint) {
    && StreamsOk(plan, s.streams, s.done, s.monitor.phase)
    && UsersOk(s.owner, s.token, s.monitor.phase, HeldTokens(s.driver))
    && BatchesOk(s.owner, s.batch)
  }

  // ---- Every step is a step of the parts ----

  /** The phases after a joint step. */
  ghost function PhaseAfter(plan: Plan, s: Joint, e: Event): Phases
    requires Enabled(plan, s, e)
  {
    var phase := s.monitor.phase;
    match e
    case Adopt(_, id, _) => phase[id := M.Launching]
    case Submit(k, q) => PhaseSide(plan[k], s.streams[k], phase, q)
    case RunEntry(k) =>
      var entry := s.streams[k].queue[s.done[k]]; if entry.1 == Cleanup then phase[entry.0 := M.Running] else phase
    case MonitorEvent(m) => M.Apply(s.monitor, m).phase
    case CompleteOp(id) => M.Apply(s.monitor, M.Complete(id)).phase
    case _ => phase
  }

  lemma PhaseAfterIsRight(plan: Plan, s: Joint, e: Event)
    requires Enabled(plan, s, e)
    ensures MonitorAfter(s.monitor, MonitorPart(plan, s, e)).phase == PhaseAfter(plan, s, e)
  {
    var part := MonitorPart(plan, s, e);
    assert |part| <= 1;
    if part != [] { assert part[1..] == []; }
  }

  /** The operation of the entry a stream runs next: its cleanup has not begun. */
  lemma EntryKnown(plan: Plan, s: Joint, k: nat)
    requires StreamsOk(plan, s.streams, s.done, s.monitor.phase) && k in plan && s.done[k] < |s.streams[k].queue|
    ensures var (id, stage) := s.streams[k].queue[s.done[k]];
            && id in plan[k] && id in s.monitor.phase && !Begun(s.monitor.phase[id])
            && (stage == Cleanup ==> s.monitor.phase[id] == M.Queued)
  {
    LinkRun(plan[k], s.streams[k], s.done[k], s.monitor.phase);
    O.QueueFacts(plan[k], s.streams[k]);
  }

  /** The monitor is ready for whatever a stream does: a cleanup is enqueued while the operation is still launching, so
      at most once, and begins while it is queued. */
  lemma MonitorIsReady(plan: Plan, s: Joint, e: Event)
    requires StreamsOk(plan, s.streams, s.done, s.monitor.phase) && Enabled(plan, s, e)
    ensures M.Reaches(s.monitor, MonitorPart(plan, s, e), MonitorAfter(s.monitor, MonitorPart(plan, s, e)))
  {
    if e.Submit? {
      assert Link(plan[e.stream], s.streams[e.stream], s.done[e.stream], s.monitor.phase);
      CallsStepLinks(plan[e.stream], s.streams[e.stream], s.monitor.phase, e.q);
    }
    if e.RunEntry? { EntryKnown(plan, s, e.stream); }
    MonitorRunsOne(s.monitor, MonitorPart(plan, s, e));
  }

  lemma MonitorRunsOne(m: M.State, part: seq<M.Event>)
    requires |part| <= 1 && (part != [] ==> M.Enabled(m, part[0]))
    ensures M.Reaches(m, part, MonitorAfter(m, part))
  {
    if part != [] {
      assert part[1..] == [];
      assert M.Reaches(M.Apply(m, part[0]), [], M.Apply(m, part[0]));
    }
  }

  /** d' is d after the references of some tokens have been given back: these tokens hold nothing any more, everybody
      else holds what they held, and what is registered does not change. */
  ghost predicate GivenBack(d: D.State, ts: set<nat>, d': D.State) {
    && d' == d.(files := d.files.(holders := d'.files.holders, uses := d'.files.uses),
                buffers := d.buffers.(holders := d'.buffers.holders, uses := d'.buffers.uses))
    && d'.files.holders == d.files.holders - ts && d'.buffers.holders == d.buffers.holders - ts
  }

  lemma DropBoth(d: D.State, t: nat)
    requires t in HeldTokens(d)
    ensures var part := [D.DropFileRef(t), D.DropBufferRef(t)];
            && D.Reaches(d, part, D.Apply(D.Apply(d, part[0]), part[1]))
            && GivenBack(d, {t}, D.Apply(D.Apply(d, part[0]), part[1]))
  {
    var part := [D.DropFileRef(t), D.DropBufferRef(t)];
    var d2 := D.Apply(D.Apply(d, part[0]), part[1]);
    assert part[1..] == [D.DropBufferRef(t)] && part[1..][1..] == [];
    assert D.Reaches(d2, [], d2);
  }

  lemma GivenBackTwice(d: D.State, t: nat, d1: D.State, ts: set<nat>, d2: D.State)
    requires GivenBack(d, {t}, d1) && GivenBack(d1, ts, d2)
    ensures GivenBack(d, {t} + ts, d2)
  {
    assert d.files.holders - {t} - ts == d.files.holders - ({t} + ts);
    assert d.buffers.holders - {t} - ts == d.buffers.holders - ({t} + ts);
  }

  lemma {:induction false} DropsRun(d: D.State, order: seq<nat>, ts: set<nat>)
    requires Enumerates(order, ts) && ts <= HeldTokens(d)
    ensures D.Reaches(d, DropsOf(order), S.After(d, DropsOf(order)))
    ensures GivenBack(d, ts, S.After(d, DropsOf(order)))
    decreases |order|
  {
    if order == [] {
      assert ts == {};
      assert d.files.holders - {} == d.files.holders && d.buffers.holders - {} == d.buffers.holders;
    } else {
      var t, rest := order[0], order[1..];
      var part := [D.DropFileRef(t), D.DropBufferRef(t)];
      var d1 := D.Apply(D.Apply(d, part[0]), part[1]);
      assert order == [t] + rest;
      DropBoth(d, t);
      DropsRun(d1, rest, ts - {t});
      S.ReachesAppend(d, part, d1, DropsOf(rest), S.After(d1, DropsOf(rest)));
      AfterBoth(d, t, DropsOf(rest));
      GivenBackTwice(d, t, d1, ts - {t}, S.After(d1, DropsOf(rest)));
      assert {t} + (ts - {t}) == ts;
    }
  }

  lemma AfterBoth(d: D.State, t: nat, rest: seq<D.Event>)
    ensures var part := [D.DropFileRef(t), D.DropBufferRef(t)];
            S.After(d, part + rest) == S.After(D.Apply(D.Apply(d, part[0]), part[1]), rest)
  {
    var part := [D.DropFileRef(t), D.DropBufferRef(t)];
    var d1 := D.Apply(d, part[0]);
    assert (part + rest)[0] == part[0] && (part + rest)[1..] == [part[1]] + rest;
    assert ([part[1]] + rest)[1..] == rest;
    assert S.After(d1, [part[1]] + rest) == S.After(D.Apply(d1, part[1]), rest);
  }

  /** What a completion gives back. */
  lemma CompletionRuns(s: Joint, id: nat)
    requires UsersOk(s.owner, s.token, s.monitor.phase, HeldTokens(s.driver)) && Completes(s, id)
    ensures var d' := S.After(s.driver, DriverPart(s, CompleteOp(id)));
            D.Reaches(s.driver, DriverPart(s, CompleteOp(id)), d') && GivenBack(s.driver, {s.token[id]}, d')
  {
    DropsRun(s.driver, [s.token[id]], {s.token[id]});
  }

  /** What the end of a context gives back. */
  lemma DestructionRuns(s: Joint, c: nat, order: seq<nat>)
    requires UsersOk(s.owner, s.token, s.monitor.phase, HeldTokens(s.driver)) && BatchesOk(s.owner, s.batch)
    requires c in s.batch && Enumerates(order, s.batch[c].outstanding)
    ensures var d' := S.After(s.driver, DropsOf(order));
            D.Reaches(s.driver, DropsOf(order), d') && GivenBack(s.driver, s.batch[c].outstanding, d')
  {
    forall t | t in s.batch[c].outstanding
      ensures t in HeldTokens(s.driver)
    {
      assert t in s.owner;
    }
    DropsRun(s.driver, order, s.batch[c].outstanding);
  }

  /** The driver is ready to take references back: what is dropped is held. */
  lemma DriverIsReady(plan: Plan, s: Joint, e: Event)
    requires UsersOk(s.owner, s.token, s.monitor.phase, HeldTokens(s.driver)) && BatchesOk(s.owner, s.batch)
    requires Enabled(plan, s, e)
    ensures D.Reaches(s.driver, DriverPart(s, e), S.After(s.driver, DriverPart(s, e)))
  {
    var part := DriverPart(s, e);
    if e.DriverEvent? {
      assert part[1..] == [];
      assert D.Reaches(D.Apply(s.driver, e.d), [], D.Apply(s.driver, e.d));
    } else if e.BatchDestroy? {
      DestructionRuns(s, e.context, e.order);
    } else if part != [] {
      CompletionRuns(s, e.id);
    }
  }

  // ---- Every step keeps the invariant ----

  /** What the monitor does on its own does not unlink any stream. */
  lemma MonitorAgrees(ops: map<nat, Op>, m: M.State, e: M.Event)
    requires M.Enabled(m, e) && (MonitorOnly(e) || e.Complete?)
    ensures Agree(ops, m.phase, M.Apply(m, e).phase)
  {
  }

  /** The streams stay linked through an event. */
  ghost predicate StaysLinked(plan: Plan, s: Joint, e: Event) {
    Enabled(plan, s, e) ==> StreamsOk(plan, StreamsAfter(plan, s, e), DoneAfter(s, e), PhaseAfter(plan, s, e))
  }

  lemma SubmitKeepsStreams(plan: Plan, s: Joint, k: nat, q: Q.Event)
    requires PlanOk(plan) && StreamsOk(plan, s.streams, s.done, s.monitor.phase)
    ensures StaysLinked(plan, s, Submit(k, q))
  {
    if Enabled(plan, s, Submit(k, q)) {
      LinkSubmit(plan[k], s.streams[k], s.done[k], s.monitor.phase, q);
      StreamsUpdate(plan, s.streams, s.done, s.monitor.phase, k, Q.Apply(plan[k], s.streams[k], q), s.done[k],
                    PhaseSide(plan[k], s.streams[k], s.monitor.phase, q), q.id);
      assert s.done[k := s.done[k]] == s.done;
    }
  }

  lemma RunKeepsStreams(plan: Plan, s: Joint, k: nat)
    requires PlanOk(plan) && StreamsOk(plan, s.streams, s.done, s.monitor.phase)
    ensures StaysLinked(plan, s, RunEntry(k))
  {
    if Enabled(plan, s, RunEntry(k)) {
      EntryKnown(plan, s, k);
      LinkRun(plan[k], s.streams[k], s.done[k], s.monitor.phase);
      StreamsUpdate(plan, s.streams, s.done, s.monitor.phase, k, s.streams[k], s.done[k] + 1,
                    PhaseAfter(plan, s, RunEntry(k)), s.streams[k].queue[s.done[k]].0);
      assert s.streams[k := s.streams[k]] == s.streams;
    }
  }

  lemma AdoptKeepsStreams(plan: Plan, s: Joint, k: nat, id: nat, t: nat)
    requires StreamsOk(plan, s.streams, s.done, s.monitor.phase)
    ensures StaysLinked(plan, s, Adopt(k, id, t))
  {
    if id !in s.monitor.phase {
      forall x | x in plan
        ensures Link(plan[x], s.streams[x], s.done[x], s.monitor.phase[id := M.Launching])
      {
        LinkAdopt(plan[x], s.streams[x], s.done[x], s.monitor.phase, id);
      }
    }
  }

  lemma MonitorKeepsStreams(plan: Plan, s: Joint, m: M.Event)
    requires StreamsOk(plan, s.streams, s.done, s.monitor.phase)
    requires M.Enabled(s.monitor, m) && (MonitorOnly(m) || m.Complete?)
    ensures StreamsOk(plan, s.streams, s.done, M.Apply(s.monitor, m).phase)
  {
    forall k | k in plan
      ensures Agree(plan[k], s.monitor.phase, M.Apply(s.monitor, m).phase)
    {
      MonitorAgrees(plan[k], s.monitor, m);
    }
    StreamsFrame(plan, s.streams, s.done, s.monitor.phase, M.Apply(s.monitor, m).phase);
  }

  lemma QuietKeepsStreams(plan: Plan, s: Joint, e: Event)
    requires StreamsOk(plan, s.streams, s.done, s.monitor.phase) && !e.Adopt? && !e.Submit? && !e.RunEntry?
    ensures StaysLinked(plan, s, e)
  {
    if Enabled(plan, s, e) {
      if e.MonitorEvent? { MonitorKeepsStreams(plan, s, e.m); }
      if e.CompleteOp? { MonitorKeepsStreams(plan, s, M.Complete(e.id)); }
    }
  }

  lemma StreamsStep(plan: Plan, s: Joint, e: Event)
    requires PlanOk(plan) && StreamsOk(plan, s.streams, s.done, s.monitor.phase)
    ensures StaysLinked(plan, s, e)
  {
    match e {
      case Adopt(k, id, t) => AdoptKeepsStreams(plan, s, k, id, t);
      case Submit(k, q) => SubmitKeepsStreams(plan, s, k, q);
      case RunEntry(k) => RunKeepsStreams(plan, s, k);
      case _ => QuietKeepsStreams(plan, s, e);
    }
  }

  ghost predicate SameIncomplete(phase: Phases, phase': Phases) {
    forall id :: Incomplete(phase', id) <==> Incomplete(phase, id)
  }

  lemma MonitorCompletesNothing(m: M.State, e: M.Event)
    requires M.Enabled(m, e) && MonitorOnly(e)
    ensures SameIncomplete(m.phase, M.Apply(m, e).phase)
  {
  }

  lemma CompletionCompletesOne(m: M.State, id: nat)
    requires M.Enabled(m, M.Complete(id))
    ensures Incomplete(m.phase, id)
    ensures forall x :: Incomplete(M.Apply(m, M.Complete(id)).phase, x) <==> Incomplete(m.phase, x) && x != id
  {
  }

  lemma CallCompletesNothing(ops: map<nat, Op>, st: Q.Stream, phase: Phases, q: Q.Event)
    requires Q.Enabled(ops, st, q) && q.id in phase && phase[q.id] == M.Launching
    ensures SameIncomplete(phase, PhaseSide(ops, st, phase, q))
  {
  }

  lemma StartCompletesNothing(phase: Phases, id: nat)
    requires id in phase && !Begun(phase[id])
    ensures SameIncomplete(phase, phase[id := M.Running])
  {
  }

  /** Operations are completed by completion, and added by adoption, alone. */
  lemma MostStepsCompleteNothing(plan: Plan, s: Joint, e: Event)
    requires StreamsOk(plan, s.streams, s.done, s.monitor.phase) && Enabled(plan, s, e) && !e.Adopt? && !e.CompleteOp?
    ensures SameIncomplete(s.monitor.phase, PhaseAfter(plan, s, e))
  {
    if e.Submit? {
      assert Link(plan[e.stream], s.streams[e.stream], s.done[e.stream], s.monitor.phase);
      CallsStepLinks(plan[e.stream], s.streams[e.stream], s.monitor.phase, e.q);
      CallCompletesNothing(plan[e.stream], s.streams[e.stream], s.monitor.phase, e.q);
    } else if e.RunEntry? {
      EntryKnown(plan, s, e.stream);
      StartCompletesNothing(s.monitor.phase, s.streams[e.stream].queue[s.done[e.stream]].0);
    } else if e.MonitorEvent? {
      MonitorCompletesNothing(s.monitor, e.m);
    }
  }

  lemma HoldersStay(d: D.State, e: D.Event, t: nat)
    requires D.Enabled(d, e) && e != D.DropFileRef(t) && e != D.DropBufferRef(t) && t in HeldTokens(d)
    ensures t in HeldTokens(D.Apply(d, e))
  {
    match e {
      case CloseDecrement =>
      case AddFile(_, _) =>
      case RemoveFile(_) =>
      case AddBuffer(_, _, _) =>
      case RemoveBuffer(_) =>
      case Lookup(_, _, _, _, _) =>
      case CopyFileRef(_, _) =>
      case CopyBufferRef(_, _) =>
      case DropFileRef(_) =>
      case DropBufferRef(_) =>
      case _ =>
    }
  }

  /** Owned references stay held through every driver event that is not a completion's. */
  lemma OwnedStayHeld(owner: map<nat, User>, d: D.State, e: D.Event)
    requires D.Enabled(d, e) && !DropsOwned(owner, e) && forall t :: t in owner ==> t in HeldTokens(d)
    ensures forall t :: t in owner ==> t in HeldTokens(S.After(d, [e]))
  {
    assert [e][1..] == [];
    assert S.After(d, [e]) == D.Apply(d, e);
    forall t | t in owner
      ensures t in HeldTokens(D.Apply(d, e))
    {
      HoldersStay(d, e, t);
    }
  }

  lemma UsersFrame(owner: map<nat, User>, token: map<nat, nat>, phase: Phases, held: set<nat>, phase': Phases,
                   held': set<nat>)
    requires UsersOk(owner, token, phase, held) && SameIncomplete(phase, phase')
    requires forall t :: t in owner ==> t in held'
    ensures UsersOk(owner, token, phase', held')
  {
  }

  lemma UsersAdopt(owner: map<nat, User>, token: map<nat, nat>, phase: Phases, held: set<nat>, id: nat, t: nat)
    requires UsersOk(owner, token, phase, held) && t in held && t !in owner && id !in phase
    ensures UsersOk(owner[t := AsyncUser(id)], token[id := t], phase[id := M.Launching], held)
  {
    var phase' := phase[id := M.Launching];
    assert forall x :: Incomplete(phase', x) <==> Incomplete(phase, x) || x == id;
  }

  lemma UsersComplete(owner: map<nat, User>, token: map<nat, nat>, phase: Phases, held: set<nat>, id: nat, phase': Phases)
    requires UsersOk(owner, token, phase, held) && Incomplete(phase, id)
    requires forall x :: Incomplete(phase', x) <==> Incomplete(phase, x) && x != id
    ensures token[id] in owner
    ensures UsersOk(WithoutTokens(owner, {token[id]}), token, phase', held - {token[id]})
  {
  }

  lemma UsersBatch(owner: map<nat, User>, token: map<nat, nat>, phase: Phases, held: set<nat>, c: nat, ts: set<nat>)
    requires UsersOk(owner, token, phase, held) && forall t :: t in ts ==> t in held && t !in owner
    ensures UsersOk(owner + map t | t in ts :: BatchUser(c), token, phase, held)
  {
  }

  lemma UsersDestroy(owner: map<nat, User>, token: map<nat, nat>, phase: Phases, held: set<nat>, c: nat, ts: set<nat>)
    requires UsersOk(owner, token, phase, held) && forall t :: t in ts ==> t in owner && owner[t] == BatchUser(c)
    ensures UsersOk(WithoutTokens(owner, ts), token, phase, held - ts)
  {
  }

  lemma GivenBackHeld(d: D.State, ts: set<nat>, d': D.State)
    requires GivenBack(d, ts, d')
    ensures HeldTokens(d') == HeldTokens(d) - ts
  {
  }

  lemma UsersStep(plan: Plan, s: Joint, e: Event)
    requires StreamsOk(plan, s.streams, s.done, s.monitor.phase) && BatchesOk(s.owner, s.batch) && Enabled(plan, s, e)
    requires UsersOk(s.owner, s.token, s.monitor.phase, HeldTokens(s.driver))
    requires e.CompleteOp? ==> e.id in s.monitor.submitted
    ensures UsersOk(OwnerAfter(s, e), if e.Adopt? then s.token[e.id := e.t] else s.token, PhaseAfter(plan, s, e),
                    HeldTokens(S.After(s.driver, DriverPart(s, e))))
  {
    var phase, held, phase' := s.monitor.phase, HeldTokens(s.driver), PhaseAfter(plan, s, e);
    if !e.Adopt? && !e.CompleteOp? { MostStepsCompleteNothing(plan, s, e); }
    match e {
      case DriverEvent(d) =>
        OwnedStayHeld(s.owner, s.driver, d);
        UsersFrame(s.owner, s.token, phase, held, phase', HeldTokens(S.After(s.driver, [d])));
      case Adopt(_, id, t) => UsersAdopt(s.owner, s.token, phase, held, id, t);
      case CompleteOp(id) =>
        CompletionCompletesOne(s.monitor, id);
        UsersComplete(s.owner, s.token, phase, held, id, phase');
        CompletionRuns(s, id);
        GivenBackHeld(s.driver, {s.token[id]}, S.After(s.driver, DriverPart(s, e)));
      case BatchSubmit(c, ts) => UsersBatch(s.owner, s.token, phase, held, c, ts);
      case BatchDestroy(c, order) =>
        UsersDestroy(s.owner, s.token, phase, held, c, s.batch[c].outstanding);
        DestructionRuns(s, c, order);
        GivenBackHeld(s.driver, s.batch[c].outstanding, S.After(s.driver, DropsOf(order)));
      case _ => UsersFrame(s.owner, s.token, phase, held, phase', held);
    }
  }

  lemma BatchesCreate(owner: map<nat, User>, batch: map<nat, Context>, c: nat, capacity: nat)
    requires BatchesOk(owner, batch) && c !in batch && 1 <= capacity <= Batch.MAX_SIZE
    ensures BatchesOk(owner, batch[c := Context(capacity, {})])
  {
  }

  /** The references of an asynchronous operation come and go beside the batches. */
  lemma BatchesAdopt(owner: map<nat, User>, batch: map<nat, Context>, t: nat, id: nat)
    requires BatchesOk(owner, batch) && t !in owner
    ensures BatchesOk(owner[t := AsyncUser(id)], batch)
  {
  }

  lemma BatchesComplete(owner: map<nat, User>, batch: map<nat, Context>, t: nat)
    requires BatchesOk(owner, batch) && t in owner && owner[t].AsyncUser?
    ensures BatchesOk(WithoutTokens(owner, {t}), batch)
  {
  }

  lemma UnionFits(a: set<nat>, b: set<nat>)
    ensures |a + b| <= |a| + |b|
  {
    assert a + b == a + (b - a);
  }

  /** owner' adds the references ts of context c to owner. */
  ghost predicate GainsBatch(owner: map<nat, User>, c: nat, ts: set<nat>, owner': map<nat, User>) {
    && (forall t :: t in owner' <==> t in owner || t in ts)
    && (forall t :: t in owner ==> owner'[t] == owner[t])
    && (forall t :: t in ts ==> owner'[t] == BatchUser(c))
  }

  lemma GainedBatch(owner: map<nat, User>, c: nat, ts: set<nat>)
    requires forall t :: t in ts ==> t !in owner
    ensures GainsBatch(owner, c, ts, owner + map t | t in ts :: BatchUser(c))
  {
  }

  lemma BatchesGain(owner: map<nat, User>, batch: map<nat, Context>, c: nat, ts: set<nat>, owner': map<nat, User>,
                    outstanding: set<nat>)
    requires BatchesOk(owner, batch) && c in batch && GainsBatch(owner, c, ts, owner')
    requires outstanding == batch[c].outstanding + ts && |outstanding| <= batch[c].capacity
    ensures BatchesOk(owner', batch[c := batch[c].(outstanding := outstanding)])
  {
    var batch' := batch[c := batch[c].(outstanding := outstanding)];
    forall t | t in owner' && owner'[t].BatchUser?
      ensures owner'[t].context in batch' && t in batch'[owner'[t].context].outstanding
    {
      if t in owner { assert owner'[t] == owner[t]; }
    }
    forall x, t | x in batch' && t in batch'[x].outstanding
      ensures t in owner' && owner'[t] == BatchUser(x)
    {
      if x != c || t in batch[c].outstanding { assert t in owner && owner[t] == BatchUser(x); }
    }
  }

  lemma BatchesSubmit(owner: map<nat, User>, batch: map<nat, Context>, c: nat, ts: set<nat>)
    requires BatchesOk(owner, batch) && c in batch && (forall t :: t in ts ==> t !in owner)
    requires |ts| <= Batch.Room(batch[c].capacity, |batch[c].outstanding|)
    ensures BatchesOk(owner + map t | t in ts :: BatchUser(c),
                      batch[c := batch[c].(outstanding := batch[c].outstanding + ts)])
  {
    Batch.RoomIsExact(batch[c].capacity, |batch[c].outstanding|);
    UnionFits(batch[c].outstanding, ts);
    GainedBatch(owner, c, ts);
    BatchesGain(owner, batch, c, ts, owner + map t | t in ts :: BatchUser(c), batch[c].outstanding + ts);
  }

  lemma BatchesDestroy(owner: map<nat, User>, batch: map<nat, Context>, c: nat)
    requires BatchesOk(owner, batch) && c in batch
    ensures BatchesOk(WithoutTokens(owner, batch[c].outstanding), batch - {c})
  {
  }

  lemma BatchesStep(plan: Plan, s: Joint, e: Event)
    requires BatchesOk(s.owner, s.batch) && UsersOk(s.owner, s.token, s.monitor.phase, HeldTokens(s.driver))
    requires Enabled(plan, s, e)
    ensures BatchesOk(OwnerAfter(s, e), BatchAfter(s.batch, e))
  {
    match e {
      case Adopt(_, id, t) => BatchesAdopt(s.owner, s.batch, t, id);
      case CompleteOp(id) =>
        CompletionCompletesOne(s.monitor, id);
        if Completes(s, id) { BatchesComplete(s.owner, s.batch, s.token[id]); }
      case BatchSubmit(c, ts) => BatchesSubmit(s.owner, s.batch, c, ts);
      case BatchDestroy(c, _) => BatchesDestroy(s.owner, s.batch, c);
      case BatchCreate(c, capacity) => BatchesCreate(s.owner, s.batch, c, capacity);
      case _ =>
    }
  }

  lemma StepKeepsInv(plan: Plan, s: Joint, e: Event)
    requires PlanOk(plan) && Inv(plan, s) && Enabled(plan, s, e)
    requires e.CompleteOp? ==> e.id in s.monitor.submitted
    ensures Inv(plan, Apply(plan, s, e))
  {
    PhaseAfterIsRight(plan, s, e);
    StreamsStep(plan, s, e);
    UsersStep(plan, s, e);
    BatchesStep(plan, s, e);
  }

  /** Completion finds its operation, because the monitor's own invariant holds. */
  lemma CompletionFinds(plan: Plan, s: Joint, e: Event)
    requires M.Inv(s.monitor) && Enabled(plan, s, e)
    ensures e.CompleteOp? ==> e.id in s.monitor.submitted
  {
    if e.CompleteOp? { M.PushFindsOp(s.monitor, e.id); }
  }

  /** A joint run is a run of the monitor and a run of the driver, and keeps the joint invariant. */
  lemma {:induction false} RunProjects(plan: Plan, s: Joint, events: seq<Event>, s': Joint)
    returns (ms: seq<M.Event>, ds: seq<D.Event>)
    requires PlanOk(plan) && Inv(plan, s) && M.Inv(s.monitor) && Reaches(plan, s, events, s')
    ensures Inv(plan, s') && M.Reaches(s.monitor, ms, s'.monitor) && D.Reaches(s.driver, ds, s'.driver)
    decreases |events|
  {
    if events == [] {
      ms, ds := [], [];
    } else {
      var mid := Apply(plan, s, events[0]);
      ms, ds := StepProjects(plan, s, events[0]);
      M.RunKeepsInv(s.monitor, ms, mid.monitor);
      CompletionFinds(plan, s, events[0]);
      StepKeepsInv(plan, s, events[0]);
      var ms', ds' := RunProjects(plan, mid, events[1..], s');
      MonitorPrepends(s.monitor, ms, ms', s'.monitor);
      S.ReachesAppend(s.driver, ds, mid.driver, ds', s'.driver);
      ms, ds := ms + ms', ds + ds';
    }
  }

  lemma MonitorPrepends(m: M.State, part: seq<M.Event>, rest: seq<M.Event>, m': M.State)
    requires |part| <= 1 && M.Reaches(m, part, MonitorAfter(m, part)) && M.Reaches(MonitorAfter(m, part), rest, m')
    ensures M.Reaches(m, part + rest, m')
  {
    if part == [] {
      assert part + rest == rest;
    } else {
      assert part[1..] == [] && part + rest == [part[0]] + rest;
      M.ReachesCons(m, part[0], rest, m');
    }
  }

  lemma StepProjects(plan: Plan, s: Joint, e: Event) returns (ms: seq<M.Event>, ds: seq<D.Event>)
    requires Inv(plan, s) && Enabled(plan, s, e)
    ensures M.Reaches(s.monitor, ms, Apply(plan, s, e).monitor) && D.Reaches(s.driver, ds, Apply(plan, s, e).driver)
    ensures |ms| <= 1 && Apply(plan, s, e).monitor == MonitorAfter(s.monitor, ms)
  {
    ms, ds := MonitorPart(plan, s, e), DriverPart(s, e);
    MonitorIsReady(plan, s, e);
    DriverIsReady(plan, s, e);
  }

  lemma InitialInv(plan: Plan)
    ensures Inv(plan, Initial(plan))
  {
    forall k | k in plan
      ensures Link(plan[k], Q.InitialStream(plan[k]), 0, map[])
    {
      O.InitialReachable(plan[k]);
    }
  }

  /** In every reachable state of the whole library each part is in a reachable state of its own. */
  lemma PartsAreReachable(plan: Plan, events: seq<Event>, s: Joint) returns (ms: seq<M.Event>, ds: seq<D.Event>)
    requires PlanOk(plan) && Reaches(plan, Initial(plan), events, s)
    ensures M.Reaches(M.Initial(), ms, s.monitor) && D.Reaches(D.Initial(), ds, s.driver) && Inv(plan, s)
  {
    InitialInv(plan);
    M.InitialInv();
    ms, ds := RunProjects(plan, Initial(plan), events, s);
  }

  // ---- What follows for callers ----

  /** The references of a held token keep both its objects registered. */
  lemma TokenBlocksDeregistration(d: D.State, t: nat, fh: nat, ptr: size_t)
    requires D.Inv(d) && t in HeldTokens(d)
    ensures d.files.holders[t] in d.files.objects && d.buffers.holders[t] in d.buffers.objects
    ensures fh in d.files.fromFh && d.files.fromFh[fh] == d.files.holders[t] ==> D.FileRemoved(d, fh).1 == R.Outstanding
    ensures ptr in d.buffers.fromPtr && d.buffers.fromPtr[ptr] == d.buffers.holders[t] ==>
              D.BufferRemoved(d, ptr).1 == R.Outstanding
  {
    RC.HeldIsAlive(d.files.uses, d.files.holders, d.files.fromFh.Values, R.FILE_WEIGHT, t);
    RC.HeldIsAlive(d.buffers.uses, d.buffers.holders, d.buffers.fromPtr.Values, B.BUFFER_WEIGHT, t);
    R.DeregisterIffUnheld(d.files, fh, d.epoch);
    B.DeregisterBufferIffUnheld(d.buffers, ptr);
  }

  /** Nobody who could still use file object o holds it: no incomplete asynchronous operation, no outstanding batch
      operation, no call in progress. */
  ghost predicate FileUnused(s: Joint, o: nat) {
    && (forall id :: Incomplete(s.monitor.phase, id) && id in s.token && s.token[id] in s.driver.files.holders ==>
          s.driver.files.holders[s.token[id]] != o)
    && (forall c, t :: c in s.batch && t in s.batch[c].outstanding && t in s.driver.files.holders ==>
          s.driver.files.holders[t] != o)
    && (forall t :: t in s.driver.files.holders && t !in s.owner ==> s.driver.files.holders[t] != o)
  }

  lemma UnusedIffUnheld(s: Joint, o: nat)
    requires UsersOk(s.owner, s.token, s.monitor.phase, HeldTokens(s.driver)) && BatchesOk(s.owner, s.batch)
    ensures FileUnused(s, o) <==> forall t :: t in s.driver.files.holders ==> s.driver.files.holders[t] != o
  {
    if FileUnused(s, o) {
      forall t | t in s.driver.files.holders
        ensures s.driver.files.holders[t] != o
      {
        if t in s.owner {
          match s.owner[t]
          case AsyncUser(id) => assert Incomplete(s.monitor.phase, id) && s.token[id] == t;
          case BatchUser(c) => assert t in s.batch[c].outstanding;
        }
      }
    }
  }

  /** Deregistering a file succeeds, in every reachable state of the whole library, if and only if it is registered and
      no incomplete asynchronous operation, outstanding batch operation or call in progress holds it. */
  lemma DeregistrationIsExact(plan: Plan, events: seq<Event>, s: Joint, fh: nat)
    requires PlanOk(plan) && Reaches(plan, Initial(plan), events, s)
    ensures D.FileRemoved(s.driver, fh).1.Done? <==> fh in s.driver.files.fromFh && FileUnused(s, s.driver.files.fromFh[fh])
  {
    var ms, ds := PartsAreReachable(plan, events, s);
    S.DeregisterIffNobodyHolds(ds, s.driver, fh, 0);
    if fh in s.driver.files.fromFh { UnusedIffUnheld(s, s.driver.files.fromFh[fh]); }
  }

  /** An operation that has not been completed holds its file and buffer: both are alive, and neither can be
      deregistered. So does an outstanding batch operation. */
  lemma UsersHoldTheirObjects(plan: Plan, events: seq<Event>, s: Joint, t: nat, fh: nat, ptr: size_t)
    requires PlanOk(plan) && Reaches(plan, Initial(plan), events, s)
    requires (exists id :: Incomplete(s.monitor.phase, id) && id in s.token && s.token[id] == t)
          || (exists c :: c in s.batch && t in s.batch[c].outstanding)
    ensures Held(s, t)
    ensures s.driver.files.holders[t] in s.driver.files.objects && s.driver.buffers.holders[t] in s.driver.buffers.objects
    ensures fh in s.driver.files.fromFh && s.driver.files.fromFh[fh] == s.driver.files.holders[t] ==>
              D.FileRemoved(s.driver, fh).1 == R.Outstanding
    ensures ptr in s.driver.buffers.fromPtr && s.driver.buffers.fromPtr[ptr] == s.driver.buffers.holders[t] ==>
              D.BufferRemoved(s.driver, ptr).1 == R.Outstanding
  {
    var ms, ds := PartsAreReachable(plan, events, s);
    S.ReachableInv(ds, s.driver);
    assert t in HeldTokens(s.driver);
    TokenBlocksDeregistration(s.driver, t, fh, ptr);
  }

  /** One holder less, its object with one use less, and no other change. */
  ghost predicate OneLess(holders: map<nat, nat>, uses: map<nat, nat>, t: nat, holders': map<nat, nat>, uses': map<nat, nat>) {
    && t in holders && holders' == holders - {t}
    && forall x :: RC.Uses(uses', x) == RC.Uses(uses, x) - (if x == holders[t] then 1 else 0)
  }

  lemma GivingBackLowersUses(d: D.State, t: nat, d': D.State)
    requires D.Inv(d) && D.Inv(d') && t in HeldTokens(d) && GivenBack(d, {t}, d')
    ensures OneLess(d.files.holders, d.files.uses, t, d'.files.holders, d'.files.uses)
    ensures OneLess(d.buffers.holders, d.buffers.uses, t, d'.buffers.holders, d'.buffers.uses)
  {
    RC.LeavingLowersUses(d.files.uses, d.files.holders, d.files.fromFh.Values, R.FILE_WEIGHT, t,
                         d'.files.uses, d'.files.holders);
    RC.LeavingLowersUses(d.buffers.uses, d.buffers.holders, d.buffers.fromPtr.Values, B.BUFFER_WEIGHT, t,
                         d'.buffers.uses, d'.buffers.holders);
  }

  lemma ReachableCompletionFinds(plan: Plan, events: seq<Event>, s: Joint, id: nat)
    requires PlanOk(plan) && Reaches(plan, Initial(plan), events, s) && M.Enabled(s.monitor, M.Complete(id))
    ensures Inv(plan, s) && D.Inv(s.driver) && id in s.monitor.submitted
  {
    var ms, ds := PartsAreReachable(plan, events, s);
    M.ReachableMonitorIsSafe(ms, s.monitor);
    S.ReachableInv(ds, s.driver);
  }

  lemma CompletesNow(s: Joint, id: nat)
    requires UsersOk(s.owner, s.token, s.monitor.phase, HeldTokens(s.driver))
    requires M.Enabled(s.monitor, M.Complete(id)) && id in s.monitor.submitted
    ensures Completes(s, id) && s.token[id] in HeldTokens(s.driver)
  {
    CompletionCompletesOne(s.monitor, id);
  }

  /** The driver after a completion, and that the operation's token was held before and is nobody's after it. */
  lemma CompletedState(plan: Plan, events: seq<Event>, s: Joint, id: nat)
    requires PlanOk(plan) && Reaches(plan, Initial(plan), events, s) && Enabled(plan, s, CompleteOp(id))
    ensures id in s.token && s.token[id] in HeldTokens(s.driver) && D.Inv(s.driver)
    ensures var s' := Apply(plan, s, CompleteOp(id));
            GivenBack(s.driver, {s.token[id]}, s'.driver) && D.Inv(s'.driver) && s.token[id] !in s'.owner
  {
    ReachableCompletionFinds(plan, events, s, id);
    CompletesNow(s, id);
    CompletionRuns(s, id);
    S.RunKeepsInv(s.driver, DriverPart(s, CompleteOp(id)), S.After(s.driver, DriverPart(s, CompleteOp(id))));
  }

  /** Completing an operation gives its references up: its token holds neither file nor buffer any more, each loses
      exactly one use, nobody else's references change, and nothing is deregistered. */
  lemma CompletionGivesBack(plan: Plan, events: seq<Event>, s: Joint, id: nat)
    requires PlanOk(plan) && Reaches(plan, Initial(plan), events, s) && Enabled(plan, s, CompleteOp(id))
    ensures id in s.token
    ensures var d, d', t := s.driver, Apply(plan, s, CompleteOp(id)).driver, s.token[id];
            && OneLess(d.files.holders, d.files.uses, t, d'.files.holders, d'.files.uses)
            && OneLess(d.buffers.holders, d.buffers.uses, t, d'.buffers.holders, d'.buffers.uses)
            && d'.files.fromFd == d.files.fromFd && d'.files.fromFh == d.files.fromFh && d'.buffers.fromPtr == d.buffers.fromPtr
            && d'.refCount == d.refCount
  {
    CompletedState(plan, events, s, id);
    GivingBackLowersUses(s.driver, s.token[id], Apply(plan, s, CompleteOp(id)).driver);
  }

  /** The token holds file object and buffer alone. */
  ghost predicate OnlyFileHolder(d: D.State, t: nat, o: nat) {
    forall x :: x in d.files.holders && x != t ==> d.files.holders[x] != o
  }

  ghost predicate OnlyBufferHolder(d: D.State, t: nat, o: nat) {
    forall x :: x in d.buffers.holders && x != t ==> d.buffers.holders[x] != o
  }

  lemma LastReferenceFrees(d: D.State, t: nat, d': D.State, fh: nat, ptr: size_t)
    requires D.Inv(d') && GivenBack(d, {t}, d')
    ensures fh in d.files.fromFh && OnlyFileHolder(d, t, d.files.fromFh[fh]) ==> D.FileRemoved(d', fh).1.Done?
    ensures ptr in d.buffers.fromPtr && OnlyBufferHolder(d, t, d.buffers.fromPtr[ptr]) ==> D.BufferRemoved(d', ptr).1.Done?
  {
    R.DeregisterIffUnheld(d'.files, fh, d'.epoch);
    B.DeregisterBufferIffUnheld(d'.buffers, ptr);
  }

  /** So the completion of the last operation on a file, or on a buffer, lets it be deregistered. */
  lemma LastCompletionFrees(plan: Plan, events: seq<Event>, s: Joint, id: nat, fh: nat, ptr: size_t)
    requires PlanOk(plan) && Reaches(plan, Initial(plan), events, s) && Enabled(plan, s, CompleteOp(id))
    ensures id in s.token
    ensures fh in s.driver.files.fromFh && OnlyFileHolder(s.driver, s.token[id], s.driver.files.fromFh[fh]) ==>
              D.FileRemoved(Apply(plan, s, CompleteOp(id)).driver, fh).1.Done?
    ensures ptr in s.driver.buffers.fromPtr && OnlyBufferHolder(s.driver, s.token[id], s.driver.buffers.fromPtr[ptr]) ==>
              D.BufferRemoved(Apply(plan, s, CompleteOp(id)).driver, ptr).1.Done?
  {
    CompletedState(plan, events, s, id);
    LastReferenceFrees(s.driver, s.token[id], Apply(plan, s, CompleteOp(id)).driver, fh, ptr);
  }

  /** Destroying a batch context gives the references of all its outstanding operations up, and no others. */
  lemma DestructionGivesBack(plan: Plan, events: seq<Event>, s: Joint, c: nat, order: seq<nat>)
    requires PlanOk(plan) && Reaches(plan, Initial(plan), events, s) && Enabled(plan, s, BatchDestroy(c, order))
    ensures var s' := Apply(plan, s, BatchDestroy(c, order));
            && GivenBack(s.driver, s.batch[c].outstanding, s'.driver) && D.Inv(s'.driver) && c !in s'.batch
            && forall t :: t in s.batch[c].outstanding ==>
                 t !in s'.owner && t !in s'.driver.files.holders && t !in s'.driver.buffers.holders
  {
    var ms, ds := PartsAreReachable(plan, events, s);
    S.ReachableInv(ds, s.driver);
    DestructionRuns(s, c, order);
    S.RunKeepsInv(s.driver, DropsOf(order), S.After(s.driver, DropsOf(order)));
  }

  lemma IncompleteIsNotReleased(m: M.State, id: nat)
    requires M.Inv(m) && Incomplete(m.phase, id)
    ensures id !in m.released && id !in m.freed
  {
    assert id in m.released ==> M.Extracted(m, id);
  }

  /** The descriptors of file object o are open. */
  ghost predicate DescriptorsOpen(d: D.State, o: nat) {
    o in d.files.objects && forall fd :: fd in Descriptor.HeldBy(d.files.objects[o]) ==>
      d.ledger.openLog[fd] == d.ledger.closeLog[fd] + 1
  }

  lemma HeldFileIsOpen(d: D.State, t: nat)
    requires D.Inv(d) && t in HeldTokens(d)
    ensures DescriptorsOpen(d, d.files.holders[t]) && d.buffers.holders[t] in d.buffers.objects
  {
    TokenBlocksDeregistration(d, t, 0, 0);
    var o := d.files.holders[t];
    forall fd | fd in Descriptor.HeldBy(d.files.objects[o])
      ensures d.ledger.openLog[fd] == d.ledger.closeLog[fd] + 1
    {
      L.ClosesOnlyItsOwn(d.ledger, d.files.objects, o, fd);
    }
  }

  /** The operation is alive, its references are set, its file and buffer alive and the file's descriptors open. */
  ghost predicate Usable(s: Joint, id: nat) {
    && Incomplete(s.monitor.phase, id) && id !in s.monitor.released && id !in s.monitor.freed
    && id in s.token && Held(s, s.token[id])
    && DescriptorsOpen(s.driver, s.driver.files.holders[s.token[id]])
    && s.driver.buffers.holders[s.token[id]] in s.driver.buffers.objects
  }

  lemma IncompleteIsUsable(s: Joint, id: nat)
    requires UsersOk(s.owner, s.token, s.monitor.phase, HeldTokens(s.driver)) && Incomplete(s.monitor.phase, id)
    requires M.Inv(s.monitor) && D.Inv(s.driver)
    ensures Usable(s, id)
  {
    IncompleteIsNotReleased(s.monitor, id);
    HeldFileIsOpen(s.driver, s.token[id]);
  }

  /** Whatever entry a stream runs next, its operation is usable: it has not been completed, released or destroyed. */
  lemma StageFindsReferences(plan: Plan, events: seq<Event>, s: Joint, k: nat)
    requires PlanOk(plan) && Reaches(plan, Initial(plan), events, s) && Enabled(plan, s, RunEntry(k))
    ensures Usable(s, s.streams[k].queue[s.done[k]].0)
  {
    var ms, ds := PartsAreReachable(plan, events, s);
    EntryKnown(plan, s, k);
    M.InitialInv();
    M.RunKeepsInv(M.Initial(), ms, s.monitor);
    S.ReachableInv(ds, s.driver);
    IncompleteIsUsable(s, s.streams[k].queue[s.done[k]].0);
  }

  /** A joint step is a step of the stream it names, and of no other; running an entry moves the stream on by one. */
  lemma StreamsProject(plan: Plan, s: Joint, e: Event, k: nat)
    requires Enabled(plan, s, e) && k in plan && k in s.streams && k in s.done
    ensures var s' := Apply(plan, s, e);
            && k in s'.streams && k in s'.done
            && (if e.Submit? && e.stream == k then
                  Q.Enabled(plan[k], s.streams[k], e.q) && s'.streams[k] == Q.Apply(plan[k], s.streams[k], e.q)
                else s'.streams[k] == s.streams[k])
            && s'.done[k] == s.done[k] + (if e.RunEntry? && e.stream == k then 1 else 0)
  {
  }

  /** A batch submission takes over the references of all its operations or is not enabled; each counts against the
      capacity, and the other contexts are not touched. */
  lemma SubmissionTakesAll(plan: Plan, s: Joint, c: nat, ts: set<nat>)
    requires BatchesOk(s.owner, s.batch) && Enabled(plan, s, BatchSubmit(c, ts))
    ensures var s' := Apply(plan, s, BatchSubmit(c, ts));
            && c in s'.batch && s'.batch[c].capacity == s.batch[c].capacity
            && s'.batch[c].outstanding == s.batch[c].outstanding + ts
            && |s'.batch[c].outstanding| == |s.batch[c].outstanding| + |ts|
            && (forall t :: t in ts ==> t in s'.owner && s'.owner[t] == BatchUser(c))
            && (forall x :: x != c ==> (x in s'.batch <==> x in s.batch) && (x in s.batch ==> s'.batch[x] == s.batch[x]))
            && s'.driver == s.driver
  {
    assert s.batch[c].outstanding !! ts;
  }

  /** Batch contexts never exceed their capacity, nor that 128. */
  lemma BatchesFit(plan: Plan, events: seq<Event>, s: Joint, c: nat)
    requires PlanOk(plan) && Reaches(plan, Initial(plan), events, s) && c in s.batch
    ensures |s.batch[c].outstanding| <= s.batch[c].capacity <= 128
  {
    var ms, ds := PartsAreReachable(plan, events, s);
  }
}
