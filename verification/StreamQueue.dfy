/** Concurrent callers submitting to one stream, and what running its queue amounts to. */
module StreamQueue {
  import opened Memory
  import opened Device
  import opened AsyncOp
  import opened Runs

  /** Files by identity, one device allocation, and the operations in flight. */
  datatype World = World(files: map<nat, seq<byte>>, dev: seq<byte>, ops: map<nat, Op>, fault: bool)

  /** Constants of a run: the transfer limit, the allocation's address, and the environment's choices per operation. */
  datatype Setting = Setting(maxRw: nat, base: nat, envs: map<nat, Env>)

  type Entry = (nat, Stage)

  predicate Known(s: Setting, w: World, id: nat) {
    id in w.ops && id in s.envs && w.ops[id].fileId in w.files
  }

  function ViewOf(w: World, id: nat): View
    requires id in w.ops && w.ops[id].fileId in w.files
  {
    View(w.ops[id], w.files[w.ops[id].fileId], w.dev, w.fault)
  }

  function Absorb(w: World, id: nat, v: View): World {
    World(w.files[v.op.fileId := v.file], v.dev, w.ops[id := v.op], v.fault)
  }

  /** The stream runs one entry. */
  function ExecEntry(s: Setting, w: World, e: Entry): World {
    if Known(s, w, e.0) then Absorb(w, e.0, StageStep(ViewOf(w, e.0), e.1, s.envs[e.0], s.maxRw, s.base))
    else w.(fault := true)
  }

  /** The stream's step function: what running one queue entry does to the world. */
  ghost function StepOf(s: Setting): (World, Entry) -> World {
    (w: World, e: Entry) => ExecEntry(s, w, e)
  }

  function Entries(id: nat, stages: seq<Stage>): (r: seq<Entry>)
    ensures |r| == |stages|
  {
    seq(|stages|, i requires 0 <= i < |stages| => (id, stages[i]))
  }

  lemma EntriesSnoc(id: nat, stages: seq<Stage>, k: nat)
    requires k < |stages|
    ensures Entries(id, stages[..k]) + [(id, stages[k])] == Entries(id, stages[..k + 1])
  {
  }

  lemma StageKeepsIdentity(v: View, stage: Stage, env: Env, maxRw: nat, base: nat)
    ensures var r := StageStep(v, stage, env, maxRw, base);
            r.op.fileId == v.op.fileId && |r.dev| == |v.dev|
  {
  }

  lemma {:induction false} RunKeepsIdentity(v: View, stages: seq<Stage>, env: Env, maxRw: nat, base: nat)
    ensures var r := RunStages(v, stages, env, maxRw, base);
            r.op.fileId == v.op.fileId && |r.dev| == |v.dev|
    decreases |stages|
  {
    if stages != [] {
      var prefix := stages[..|stages| - 1];
      RunKeepsIdentity(v, prefix, env, maxRw, base);
      StageKeepsIdentity(RunStages(v, prefix, env, maxRw, base), stages[|stages| - 1], env, maxRw, base);
    }
  }

  /** Consecutive stages of one operation run as they would alone. */
  lemma {:induction false} ExecBlock(s: Setting, w: World, id: nat, stages: seq<Stage>)
    requires Known(s, w, id)
    ensures Exec(StepOf(s), w, Entries(id, stages))
         == Absorb(w, id, RunStages(ViewOf(w, id), stages, s.envs[id], s.maxRw, s.base))
    decreases |stages|
  {
    var q := Entries(id, stages);
    if stages == [] {
      assert w.files[w.ops[id].fileId := w.files[w.ops[id].fileId]] == w.files;
      assert w.ops[id := w.ops[id]] == w.ops;
    } else {
      var prefix := stages[..|stages| - 1];
      assert q[..|q| - 1] == Entries(id, prefix);
      ExecBlock(s, w, id, prefix);
      RunKeepsIdentity(ViewOf(w, id), prefix, s.envs[id], s.maxRw, s.base);
      ExecOneMore(s, w, id, RunStages(ViewOf(w, id), prefix, s.envs[id], s.maxRw, s.base), stages[|stages| - 1]);
    }
  }

  lemma ExecOneMore(s: Setting, w: World, id: nat, v: View, stage: Stage)
    requires Known(s, w, id) && v.op.fileId == w.ops[id].fileId
    ensures ExecEntry(s, Absorb(w, id, v), (id, stage))
         == Absorb(w, id, StageStep(v, stage, s.envs[id], s.maxRw, s.base))
  {
    StageKeepsIdentity(v, stage, s.envs[id], s.maxRw, s.base);
    AbsorbTwice(w, id, v, StageStep(v, stage, s.envs[id], s.maxRw, s.base));
  }

  lemma AbsorbTwice(w: World, id: nat, v: View, v': View)
    requires v'.op.fileId == v.op.fileId
    ensures ViewOf(Absorb(w, id, v), id) == v
    ensures Absorb(Absorb(w, id, v), id, v') == Absorb(w, id, v')
  {
    assert w.files[v.op.fileId := v.file][v.op.fileId := v'.file] == w.files[v.op.fileId := v'.file];
    assert w.ops[id := v.op][id := v'.op] == w.ops[id := v'.op];
  }

  // ---- The queue as a log of submissions ----

  /** Complete: all stages of an operation, contiguous. Partial: the stages launched before a launch failed.
      Stray: the cleanup that the failed call enqueues after it has released the stream lock. */
  datatype Item = Complete(id: nat) | Partial(id: nat, k: nat) | Stray(id: nat)

  ghost function ItemEntries(ops: map<nat, Op>, item: Item): seq<Entry>
    requires item.id in ops
  {
    match item
    case Complete(id) => Entries(id, StagesOf(ops[id]))
    case Partial(id, k) => Entries(id, if k <= |DataStages(ops[id])| then DataStages(ops[id])[..k] else [])
    case Stray(id) => [(id, Cleanup)]
  }

  ghost function Used(log: seq<Item>): set<nat> {
    if log == [] then {} else
      var item := log[|log| - 1];
      Used(log[..|log| - 1]) + (if item.Stray? then {} else {item.id})
  }

  /** Operations whose call failed and whose cleanup is not in the queue. */
  ghost function Broken(log: seq<Item>): set<nat> {
    if log == [] then {} else BrokenAfter(Broken(log[..|log| - 1]), log[|log| - 1])
  }

  ghost function BrokenAfter(rest: set<nat>, item: Item): set<nat> {
    match item
    case Complete(_) => rest
    case Partial(id, _) => rest + {id}
    case Stray(id) => rest - {id}
  }

  ghost predicate ItemOk(ops: map<nat, Op>, log: seq<Item>, item: Item) {
    && item.id in ops
    && (if item.Stray? then item.id in Broken(log) else item.id !in Used(log))
    && (item.Partial? ==> item.k <= |DataStages(ops[item.id])|)
  }

  ghost predicate LogOk(ops: map<nat, Op>, log: seq<Item>) {
    log != [] ==> LogOk(ops, log[..|log| - 1]) && ItemOk(ops, log[..|log| - 1], log[|log| - 1])
  }

  ghost function Flatten(ops: map<nat, Op>, log: seq<Item>): seq<Entry>
    requires LogOk(ops, log)
  {
    if log == [] then [] else Flatten(ops, log[..|log| - 1]) + ItemEntries(ops, log[|log| - 1])
  }

  lemma LogSnoc(ops: map<nat, Op>, log: seq<Item>, item: Item)
    requires LogOk(ops, log) && ItemOk(ops, log, item)
    ensures LogOk(ops, log + [item])
    ensures Flatten(ops, log + [item]) == Flatten(ops, log) + ItemEntries(ops, item)
    ensures Used(log + [item]) == Used(log) + (if item.Stray? then {} else {item.id})
    ensures Broken(log + [item]) == BrokenAfter(Broken(log), item)
  {
    var l := log + [item];
    assert l[..|l| - 1] == log && l[|l| - 1] == item;
  }

  /** What callers can see: files, device memory and the results of calls that succeeded. */
  datatype Visible = Visible(files: map<nat, seq<byte>>, dev: seq<byte>, results: map<nat, int>)

  /** One atomic transfer, or nothing. */
  ghost function FoldItem(s: Setting, ops: map<nat, Op>, vis: Visible, item: Item): Visible {
    if !(item.id in ops && item.id in s.envs && ops[item.id].fileId in vis.files
         && Inside(ops[item.id].buffer, s.base, |vis.dev|)) then vis
    else
      var op := ops[item.id];
      var a := AtomicOp(op, vis.files[op.fileId], vis.dev, s.envs[item.id], s.maxRw, s.base);
      match item
      case Complete(id) => Visible(vis.files[op.fileId := a.file], a.dev, vis.results[id := a.result])
      case Partial(id, k) =>
        if k == |DataStages(op)| then vis.(files := vis.files[op.fileId := a.file], dev := a.dev) else vis
      case Stray(_) => vis
  }

  /** Atomic transfers folded in submission order. */
  ghost function Fold(s: Setting, w0: World, log: seq<Item>): Visible {
    if log == [] then Visible(w0.files, w0.dev, map[])
    else FoldItem(s, w0.ops, Fold(s, w0, log[..|log| - 1]), log[|log| - 1])
  }

  /** Every operation is freshly submitted, within the domain where the size is clamped. */
  ghost predicate Fresh(s: Setting, w: World) {
    !w.fault && forall id :: id in w.ops ==>
      Known(s, w, id) && Submitted(w.ops[id], s.maxRw, s.base, |w.dev|) && InDomain(w.ops[id], s.maxRw)
  }

  /** World w against what callers should see, where `used` operations have run and `broken` ones await cleanup. */
  ghost predicate Agrees(w0: World, vis: Visible, used: set<nat>, broken: set<nat>, w: World) {
    && !w.fault && |w.dev| == |w0.dev| && w.files.Keys == w0.files.Keys && w.ops.Keys == w0.ops.Keys
    && w.files == vis.files && w.dev == vis.dev
    && broken <= used <= w0.ops.Keys && vis.results.Keys <= used && vis.results.Keys !! broken
    && (forall id :: id in w0.ops ==> w.ops[id].fileId == w0.ops[id].fileId)
    && (forall id :: id in w0.ops && id !in used ==> w.ops[id] == w0.ops[id])
    && (forall id :: id in broken ==> w.ops[id].held)
    && (forall id :: id in vis.results ==> w.ops[id].reported == vis.results[id])
  }

  ghost predicate Serial(s: Setting, w0: World, log: seq<Item>, w: World) {
    Agrees(w0, Fold(s, w0, log), Used(log), Broken(log), w)
  }

  lemma FoldSnoc(s: Setting, w0: World, log: seq<Item>, item: Item)
    ensures Fold(s, w0, log + [item]) == FoldItem(s, w0.ops, Fold(s, w0, log), item)
  {
    var l := log + [item];
    assert l[..|l| - 1] == log && l[|l| - 1] == item;
  }

  /** An operation that has not run is still as it was submitted. */
  lemma UnusedIsFresh(s: Setting, w0: World, vis: Visible, used: set<nat>, broken: set<nat>, w: World, id: nat)
    requires Fresh(s, w0) && Agrees(w0, vis, used, broken, w) && id in w0.ops && id !in used
    ensures Known(s, w, id) && ViewOf(w, id).op == w0.ops[id]
    ensures Submitted(w.ops[id], s.maxRw, s.base, |w.dev|) && InDomain(w.ops[id], s.maxRw)
  {
    assert Known(s, w0, id);
  }

  /** Absorbing the view of operation id after its stages. */
  lemma AbsorbAgrees(w0: World, vis: Visible, used: set<nat>, broken: set<nat>, w: World, id: nat, v: View,
                     vis': Visible, used': set<nat>, broken': set<nat>)
    requires Agrees(w0, vis, used, broken, w) && id in w0.ops && w.ops[id].fileId in w.files
    requires !v.fault && |v.dev| == |w.dev| && v.op.fileId == w.ops[id].fileId
    requires vis'.files == vis.files[v.op.fileId := v.file] && vis'.dev == v.dev
    requires used' == used + {id} && broken' - {id} == broken - {id} && (id in broken' ==> v.op.held)
    requires vis'.results - {id} == vis.results - {id}
    requires id in vis'.results ==> v.op.reported == vis'.results[id] && id !in broken'
    ensures Agrees(w0, vis', used', broken', Absorb(w, id, v))
  {
    var w' := Absorb(w, id, v);
    forall x | x in vis'.results
      ensures x in used' && x !in broken' && w'.ops[x].reported == vis'.results[x]
    {
      if x != id {
        assert x in vis'.results - {id};
        assert x in vis.results - {id};
        assert vis'.results[x] == (vis'.results - {id})[x] == vis.results[x];
        assert x !in broken - {id};
      }
    }
    forall x | x in broken'
      ensures x in used' && w'.ops[x].held
    {
      if x != id { assert x in broken - {id}; }
    }
  }

  lemma CompleteStep(s: Setting, w0: World, vis: Visible, used: set<nat>, broken: set<nat>, w: World, id: nat)
    requires Fresh(s, w0) && Agrees(w0, vis, used, broken, w) && id in w0.ops && id !in used
    ensures Agrees(w0, FoldItem(s, w0.ops, vis, Complete(id)), used + {id}, broken,
                   Exec(StepOf(s), w, Entries(id, StagesOf(w0.ops[id]))))
  {
    UnusedIsFresh(s, w0, vis, used, broken, w, id);
    ExecBlock(s, w, id, StagesOf(w0.ops[id]));
    AsyncRefinement(ViewOf(w, id), s.envs[id], s.maxRw, s.base);
    RunKeepsIdentity(ViewOf(w, id), StagesOf(w0.ops[id]), s.envs[id], s.maxRw, s.base);
    var v := RunStages(ViewOf(w, id), StagesOf(w0.ops[id]), s.envs[id], s.maxRw, s.base);
    var vis' := FoldItem(s, w0.ops, vis, Complete(id));
    assert vis'.results - {id} == vis.results - {id};
    AbsorbAgrees(w0, vis, used, broken, w, id, v, vis', used + {id}, broken);
  }

  lemma PartialStep(s: Setting, w0: World, vis: Visible, used: set<nat>, broken: set<nat>, w: World, id: nat, k: nat)
    requires Fresh(s, w0) && Agrees(w0, vis, used, broken, w) && id in w0.ops && id !in used
    requires k <= |DataStages(w0.ops[id])|
    ensures Agrees(w0, FoldItem(s, w0.ops, vis, Partial(id, k)), used + {id}, broken + {id},
                   Exec(StepOf(s), w, Entries(id, DataStages(w0.ops[id])[..k])))
  {
    UnusedIsFresh(s, w0, vis, used, broken, w, id);
    var stages := DataStages(w0.ops[id])[..k];
    ExecBlock(s, w, id, stages);
    DataStagesRun(ViewOf(w, id), s.envs[id], s.maxRw, s.base, k);
    RunKeepsIdentity(ViewOf(w, id), stages, s.envs[id], s.maxRw, s.base);
    var v := RunStages(ViewOf(w, id), stages, s.envs[id], s.maxRw, s.base);
    var vis' := FoldItem(s, w0.ops, vis, Partial(id, k));
    assert w.files[w.ops[id].fileId := w.files[w.ops[id].fileId]] == w.files;
    AbsorbAgrees(w0, vis, used, broken, w, id, v, vis', used + {id}, broken + {id});
  }

  lemma StrayStep(s: Setting, w0: World, vis: Visible, used: set<nat>, broken: set<nat>, w: World, id: nat)
    requires Fresh(s, w0) && Agrees(w0, vis, used, broken, w) && id in w0.ops && id in broken
    ensures Agrees(w0, vis, used, broken - {id}, Exec(StepOf(s), w, [(id, Cleanup)]))
  {
    assert Known(s, w0, id);
    ExecBlock(s, w, id, [Cleanup]);
    assert Entries(id, [Cleanup]) == [(id, Cleanup)];
    var v := CleanupStep(ViewOf(w, id));
    RunStagesSnoc(ViewOf(w, id), [], Cleanup, s.envs[id], s.maxRw, s.base);
    assert [] + [Cleanup] == [Cleanup];
    assert w.files[w.ops[id].fileId := w.files[w.ops[id].fileId]] == w.files;
    assert used + {id} == used;
    AbsorbAgrees(w0, vis, used, broken, w, id, v, vis, used, broken - {id});
  }

  lemma ItemStep(s: Setting, w0: World, log: seq<Item>, item: Item, w: World)
    requires Fresh(s, w0) && LogOk(w0.ops, log) && ItemOk(w0.ops, log, item) && Serial(s, w0, log, w)
    ensures Serial(s, w0, log + [item], Exec(StepOf(s), w, ItemEntries(w0.ops, item)))
  {
    LogSnoc(w0.ops, log, item);
    FoldSnoc(s, w0, log, item);
    var vis, used, broken := Fold(s, w0, log), Used(log), Broken(log);
    match item
    case Complete(id) => CompleteStep(s, w0, vis, used, broken, w, id);
    case Partial(id, k) => PartialStep(s, w0, vis, used, broken, w, id, k);
    case Stray(id) => StrayStep(s, w0, vis, used, broken, w, id);
  }

  /** Running a well-formed log equals folding atomic transfers in submission order: no stage faults, every
      reference is set when it is used, and the results of successful calls are those of the fold. */
  lemma {:induction false} LogIsSerial(s: Setting, w0: World, log: seq<Item>)
    requires Fresh(s, w0) && LogOk(w0.ops, log)
    ensures Serial(s, w0, log, Exec(StepOf(s), w0, Flatten(w0.ops, log)))
    decreases |log|
  {
    if log == [] {
      EmptyIsSerial(s, w0);
    } else {
      LogIsSerial(s, w0, log[..|log| - 1]);
      SerialLast(s, w0, log);
    }
  }

  lemma EmptyIsSerial(s: Setting, w0: World)
    requires Fresh(s, w0)
    ensures Serial(s, w0, [], Exec(StepOf(s), w0, Flatten(w0.ops, [])))
  {
  }

  lemma ExecLast(step: (World, Entry) -> World, w0: World, log: seq<Item>)
    requires LogOk(w0.ops, log) && log != []
    ensures var rest, item := log[..|log| - 1], log[|log| - 1];
            Exec(step, w0, Flatten(w0.ops, log)) == Exec(step, Exec(step, w0, Flatten(w0.ops, rest)), ItemEntries(w0.ops, item))
  {
    ExecAppend(step, w0, Flatten(w0.ops, log[..|log| - 1]), ItemEntries(w0.ops, log[|log| - 1]));
  }

  lemma SerialLast(s: Setting, w0: World, log: seq<Item>)
    requires Fresh(s, w0) && LogOk(w0.ops, log) && log != []
    requires var rest := log[..|log| - 1]; Serial(s, w0, rest, Exec(StepOf(s), w0, Flatten(w0.ops, rest)))
    ensures Serial(s, w0, log, Exec(StepOf(s), w0, Flatten(w0.ops, log)))
  {
    var rest, item := log[..|log| - 1], log[|log| - 1];
    assert rest + [item] == log;
    ItemStep(s, w0, rest, item, Exec(StepOf(s), w0, Flatten(w0.ops, rest)));
    ExecLast(StepOf(s), w0, log);
  }

  // ---- Submission ----

  /** Where a call to async_io stands after it has added its operation to the monitor. */
  datatype Call = Ready | Launching(k: nat) | Recovering | Succeeded | Raised

  /** lock: the operation whose call holds the stream lock. log is the history the queue is compared with. */
  datatype Stream = Stream(lock: int, calls: map<nat, Call>, queue: seq<Entry>, log: seq<Item>)

  const FREE: int := -1

  /** AttributeFails: the device query before the lock throws. A failing launch enqueues nothing, and leaves the
      scope of the lock; the cleanup retried by the handler may fail too. */
  datatype Event = AttributeFails(id: nat) | Lock(id: nat) | Launch(id: nat) | LaunchFails(id: nat)
                 | RecoverLaunch(id: nat) | RecoverFails(id: nat)

  predicate Enabled(ops: map<nat, Op>, st: Stream, e: Event) {
    && e.id in st.calls && e.id in ops
    && match e
       case AttributeFails(id) => st.calls[id] == Ready
       case Lock(id) => st.calls[id] == Ready && st.lock == FREE
       case Launch(id) => st.calls[id].Launching? && st.calls[id].k < |StagesOf(ops[id])|
       case LaunchFails(id) => st.calls[id].Launching?
       case RecoverLaunch(id) => st.calls[id] == Recovering
       case RecoverFails(id) => st.calls[id] == Recovering
  }

  function Apply(ops: map<nat, Op>, st: Stream, e: Event): Stream
    requires Enabled(ops, st, e)
  {
    match e
    case AttributeFails(id) => st.(calls := st.calls[id := Recovering], log := st.log + [Partial(id, 0)])
    case Lock(id) => st.(lock := id, calls := st.calls[id := Launching(0)])
    case Launch(id) =>
      var k := st.calls[id].k;
      var stages := StagesOf(ops[id]);
      var queue := st.queue + [(id, stages[k])];
      if k + 1 == |stages| then
        Stream(FREE, st.calls[id := Succeeded], queue, st.log + [Complete(id)])
      else st.(calls := st.calls[id := Launching(k + 1)], queue := queue)
    case LaunchFails(id) =>
      Stream(FREE, st.calls[id := Recovering], st.queue, st.log + [Partial(id, st.calls[id].k)])
    case RecoverLaunch(id) =>
      Stream(st.lock, st.calls[id := Raised], st.queue + [(id, Cleanup)], st.log + [Stray(id)])
    case RecoverFails(id) => st.(calls := st.calls[id := Raised])
  }

  function InitialStream(ops: map<nat, Op>): Stream {
    Stream(FREE, map id | id in ops :: Ready, [], [])
  }

  /** Stages already enqueued by the call that holds the lock. */
  ghost function InProgress(ops: map<nat, Op>, st: Stream): seq<Entry> {
    if st.lock >= 0 && st.lock in st.calls && st.lock in ops && st.calls[st.lock].Launching?
       && st.calls[st.lock].k <= |StagesOf(ops[st.lock])|
    then Entries(st.lock, StagesOf(ops[st.lock])[..st.calls[st.lock].k]) else []
  }

  /** Who holds the lock, and which calls have already left their mark in the log. */
  ghost predicate CallsOk(ops: map<nat, Op>, lock: int, calls: map<nat, Call>, used: set<nat>, broken: set<nat>) {
    && calls.Keys == ops.Keys && lock >= FREE && (lock >= 0 ==> lock in calls)
    && (forall id :: id in calls ==> (calls[id].Launching? <==> lock == id))
    && (forall id :: id in calls && calls[id].Launching? ==> calls[id].k < |StagesOf(ops[id])|)
    && (forall id :: id in calls && (calls[id].Ready? || calls[id].Launching?) ==> id !in used)
    && (forall id :: id in calls && calls[id].Recovering? ==> id in broken && id in used)
  }

  ghost predicate StreamInv(ops: map<nat, Op>, st: Stream) {
    LogOk(ops, st.log) && CallsOk(ops, st.lock, st.calls, Used(st.log), Broken(st.log))
  }

  ghost predicate Reaches(ops: map<nat, Op>, st: Stream, events: seq<Event>, st': Stream)
    decreases |events|
  {
    if events == [] then st' == st
    else Enabled(ops, st, events[0]) && Reaches(ops, Apply(ops, st, events[0]), events[1..], st')
  }

  /** The log item an event appends, if any. */
  function ItemOf(ops: map<nat, Op>, st: Stream, e: Event): seq<Item>
    requires Enabled(ops, st, e)
  {
    match e
    case AttributeFails(id) => [Partial(id, 0)]
    case LaunchFails(id) => [Partial(id, st.calls[id].k)]
    case Launch(id) => if st.calls[id].k + 1 == |StagesOf(ops[id])| then [Complete(id)] else []
    case RecoverLaunch(id) => [Stray(id)]
    case _ => []
  }

  lemma ItemOfOk(ops: map<nat, Op>, st: Stream, e: Event)
    requires StreamInv(ops, st) && Enabled(ops, st, e)
    ensures Apply(ops, st, e).log == st.log + ItemOf(ops, st, e)
    ensures ItemOf(ops, st, e) != [] ==> ItemOk(ops, st.log, ItemOf(ops, st, e)[0])
  {
  }

  lemma EventKeepsInv(ops: map<nat, Op>, st: Stream, e: Event)
    requires StreamInv(ops, st) && Enabled(ops, st, e)
    ensures StreamInv(ops, Apply(ops, st, e))
  {
    ItemOfOk(ops, st, e);
    var items := ItemOf(ops, st, e);
    if items == [] {
      assert st.log + [] == st.log;
      CallsStep(ops, st, e, Used(st.log), Broken(st.log), Used(st.log), Broken(st.log));
    } else {
      assert items == [items[0]];
      ItemKeepsInv(ops, st, e, items[0]);
    }
  }

  lemma ItemKeepsInv(ops: map<nat, Op>, st: Stream, e: Event, item: Item)
    requires StreamInv(ops, st) && Enabled(ops, st, e)
    requires ItemOf(ops, st, e) == [item] && ItemOk(ops, st.log, item)
    ensures LogOk(ops, st.log + [item])
    ensures CallsOk(ops, Apply(ops, st, e).lock, Apply(ops, st, e).calls, Used(st.log + [item]), Broken(st.log + [item]))
  {
    var used, broken := Used(st.log), Broken(st.log);
    LogSnoc(ops, st.log, item);
    CallsStep(ops, st, e, used, broken, used + (if item.Stray? then {} else {item.id}), BrokenAfter(broken, item));
  }

  lemma CallsStep(ops: map<nat, Op>, st: Stream, e: Event, used: set<nat>, broken: set<nat>, used': set<nat>, broken': set<nat>)
    requires CallsOk(ops, st.lock, st.calls, used, broken) && Enabled(ops, st, e)
    requires used' - {e.id} == used - {e.id} && broken' - {e.id} == broken - {e.id}
    requires e.Lock? || (e.Launch? && st.calls[e.id].k + 1 < |StagesOf(ops[e.id])|) ==> e.id !in used'
    requires e.AttributeFails? || e.LaunchFails? ==> e.id in used' && e.id in broken'
    ensures CallsOk(ops, Apply(ops, st, e).lock, Apply(ops, st, e).calls, used', broken')
  {
    var calls' := Apply(ops, st, e).calls;
    forall id | id in calls' && id != e.id
      ensures (id in used' <==> id in used) && (id in broken' <==> id in broken) && calls'[id] == st.calls[id]
    {
      assert id in used' - {e.id} <==> id in used - {e.id};
      assert id in broken' - {e.id} <==> id in broken - {e.id};
    }
  }

  // ---- Serialisability of concurrent submissions ----

  /** Running the queue has the effect of running the log, followed by the call in progress. A stray cleanup may
      have landed between the stages of another operation; this says that it does not matter. */
  ghost predicate Tidy(step: (World, Entry) -> World, w0: World, st: Stream) {
    LogOk(w0.ops, st.log) && Same(step, w0, st.queue, Flatten(w0.ops, st.log) + InProgress(w0.ops, st))
  }

  lemma ExecKeepsKnown(s: Setting, w: World, e: Entry, id: nat)
    requires Known(s, w, id) && Known(s, w, e.0)
    ensures Known(s, ExecEntry(s, w, e), id)
  {
    StageKeepsIdentity(ViewOf(w, e.0), e.1, s.envs[e.0], s.maxRw, s.base);
  }

  lemma {:induction false} ExecQueueKeepsKnown(s: Setting, w: World, q: seq<Entry>, id: nat)
    requires Known(s, w, id) && forall i :: 0 <= i < |q| ==> Known(s, w, q[i].0)
    ensures Known(s, Exec(StepOf(s), w, q), id)
    decreases |q|
  {
    if q != [] {
      var last := |q| - 1;
      ExecQueueKeepsKnown(s, w, q[..last], id);
      assert Known(s, w, q[last].0);
      ExecQueueKeepsKnown(s, w, q[..last], q[last].0);
      ExecKeepsKnown(s, Exec(StepOf(s), w, q[..last]), q[last], id);
    }
  }

  /** The cleanup of one operation commutes with any stage of another. */
  lemma CleanupCommutes(s: Setting, w: World, a: nat, b: nat, stage: Stage)
    requires a != b && Known(s, w, a) && Known(s, w, b)
    ensures ExecEntry(s, ExecEntry(s, w, (a, Cleanup)), (b, stage))
         == ExecEntry(s, ExecEntry(s, w, (b, stage)), (a, Cleanup))
  {
    var va, vb := ViewOf(w, a), ViewOf(w, b);
    var fa := w.ops[a].fileId;
    var ra := CleanupStep(va);
    var rb := StageStep(vb, stage, s.envs[b], s.maxRw, s.base);
    StageKeepsIdentity(vb, stage, s.envs[b], s.maxRw, s.base);
    FaultPasses(vb, ra.fault, stage, s.envs[b], s.maxRw, s.base);
    var w1 := ExecEntry(s, w, (a, Cleanup));
    var w2 := ExecEntry(s, w, (b, stage));
    assert w1.files == w.files;
    assert ViewOf(w1, b) == vb.(fault := ra.fault);
    assert ViewOf(w2, a).op == va.op;
    assert w2.files[fa := w2.files[fa]] == w2.files;
    assert w.ops[a := ra.op][b := rb.op] == w.ops[b := rb.op][a := ra.op];
  }

  /** r is a stage's result from v, and t its result when the fault flag was `fault` instead. */
  ghost predicate FaultOnly(v: View, fault: bool, r: View, t: View) {
    && t == r.(fault := t.fault) && (v.fault ==> r.fault) && (fault ==> t.fault)
    && (!v.fault ==> t.fault == (fault || r.fault)) && (!fault ==> (t.fault || v.fault) == r.fault)
  }

  lemma CpuCopyFault(v: View, fault: bool, env: Env)
    ensures FaultOnly(v, fault, CpuCopyStep(v, env), CpuCopyStep(v.(fault := fault), env))
  {
  }

  lemma KernelFault(v: View, fault: bool, base: nat)
    ensures FaultOnly(v, fault, KernelStep(v, base), KernelStep(v.(fault := fault), base))
  {
  }

  /** A stage ignores the fault flag it starts with, and keeps it. */
  lemma FaultPasses(v: View, fault: bool, stage: Stage, env: Env, maxRw: nat, base: nat)
    ensures FaultOnly(v, fault, StageStep(v, stage, env, maxRw, base), StageStep(v.(fault := fault), stage, env, maxRw, base))
  {
    match stage
    case CpuCopy => CpuCopyFault(v, fault, env);
    case Kernel => KernelFault(v, fault, base);
    case Bind =>
    case Cleanup =>
  }

  ghost predicate AllKnown(s: Setting, w: World, q: seq<Entry>) {
    forall i :: 0 <= i < |q| ==> Known(s, w, q[i].0)
  }

  /** A cleanup moves in front of any entries of other operations. */
  lemma {:induction false} CleanupMoves(s: Setting, w: World, a: nat, q: seq<Entry>)
    requires Known(s, w, a) && AllKnown(s, w, q) && forall i :: 0 <= i < |q| ==> q[i].0 != a
    ensures ExecEntry(s, Exec(StepOf(s), w, q), (a, Cleanup)) == Exec(StepOf(s), ExecEntry(s, w, (a, Cleanup)), q)
    decreases |q|
  {
    if q != [] {
      var rest, last := q[..|q| - 1], q[|q| - 1];
      assert last.0 != a && Known(s, w, last.0);
      CleanupMoves(s, w, a, rest);
      ExecQueueKeepsKnown(s, w, rest, a);
      ExecQueueKeepsKnown(s, w, rest, last.0);
      CleanupCommutes(s, Exec(StepOf(s), w, rest), a, last.0, last.1);
      assert last == (last.0, last.1);
    }
  }

  lemma {:induction false} FlattenKnown(s: Setting, w0: World, log: seq<Item>)
    requires Fresh(s, w0) && LogOk(w0.ops, log)
    ensures AllKnown(s, w0, Flatten(w0.ops, log))
    decreases |log|
  {
    if log != [] {
      FlattenKnown(s, w0, log[..|log| - 1]);
      assert Known(s, w0, log[|log| - 1].id);
    }
  }

  lemma InProgressKnown(s: Setting, w0: World, st: Stream)
    requires Fresh(s, w0) && StreamInv(w0.ops, st)
    ensures AllKnown(s, w0, InProgress(w0.ops, st))
    ensures forall i :: 0 <= i < |InProgress(w0.ops, st)| ==> InProgress(w0.ops, st)[i].0 == st.lock
  {
    if st.lock >= 0 { assert Known(s, w0, st.lock); }
  }

  lemma BlockGrows(flat: seq<Entry>, id: nat, stages: seq<Stage>, k: nat)
    requires k < |stages|
    ensures flat + Entries(id, stages[..k]) + [(id, stages[k])] == flat + Entries(id, stages[..k + 1])
    ensures k + 1 == |stages| ==> stages[..k + 1] == stages
  {
    EntriesSnoc(id, stages, k);
  }

  lemma AppendNothing(q: seq<Entry>)
    ensures q + [] == q
  {
  }

  /** What the queue should hold after a launch: one entry more. */
  lemma LaunchShape(ops: map<nat, Op>, st: Stream, id: nat)
    requires StreamInv(ops, st) && Enabled(ops, st, Launch(id))
    ensures var st' := Apply(ops, st, Launch(id));
            var e := (id, StagesOf(ops[id])[st.calls[id].k]);
            && LogOk(ops, st'.log) && st'.queue == st.queue + [e]
            && Flatten(ops, st'.log) + InProgress(ops, st') == Flatten(ops, st.log) + InProgress(ops, st) + [e]
  {
    var k, stages := st.calls[id].k, StagesOf(ops[id]);
    var flat := Flatten(ops, st.log);
    BlockGrows(flat, id, stages, k);
    if k + 1 == |stages| {
      LogSnoc(ops, st.log, Complete(id));
      AppendNothing(flat + Entries(id, stages));
    }
  }

  lemma PartialEntries(op: Op, id: nat, k: nat)
    requires k < |StagesOf(op)|
    ensures k <= |DataStages(op)| && Entries(id, StagesOf(op)[..k]) == Entries(id, DataStages(op)[..k])
  {
    assert StagesOf(op)[..k] == DataStages(op)[..k];
  }

  /** What the queue should hold after a failed launch: what it already holds. */
  lemma FailsShape(ops: map<nat, Op>, st: Stream, e: Event)
    requires StreamInv(ops, st) && Enabled(ops, st, e) && (e.AttributeFails? || e.LaunchFails?)
    ensures var st' := Apply(ops, st, e);
            && LogOk(ops, st'.log) && st'.queue == st.queue
            && Flatten(ops, st'.log) + InProgress(ops, st') == Flatten(ops, st.log) + InProgress(ops, st)
  {
    var k := if e.LaunchFails? then st.calls[e.id].k else 0;
    var flat := Flatten(ops, st.log);
    PartialEntries(ops[e.id], e.id, k);
    LogSnoc(ops, st.log, Partial(e.id, k));
    AppendNothing(flat);
    AppendNothing(flat + Entries(e.id, DataStages(ops[e.id])[..k]));
    assert e.AttributeFails? ==> Entries(e.id, DataStages(ops[e.id])[..0]) == [];
  }

  lemma TidyLaunch(step: (World, Entry) -> World, w0: World, st: Stream, id: nat)
    requires StreamInv(w0.ops, st) && Tidy(step, w0, st) && Enabled(w0.ops, st, Launch(id))
    ensures Tidy(step, w0, Apply(w0.ops, st, Launch(id)))
  {
    LaunchShape(w0.ops, st, id);
    SameSnoc(step, w0, st.queue, Flatten(w0.ops, st.log) + InProgress(w0.ops, st),
             (id, StagesOf(w0.ops[id])[st.calls[id].k]));
  }

  /** The stray cleanup commutes with the stages of the call in progress. */
  lemma StrayCommutes(s: Setting, w0: World, st: Stream, id: nat)
    requires Fresh(s, w0) && StreamInv(w0.ops, st) && Enabled(w0.ops, st, RecoverLaunch(id))
    ensures var w := Exec(StepOf(s), w0, Flatten(w0.ops, st.log));
            var part := InProgress(w0.ops, st);
            StepOf(s)(Exec(StepOf(s), w, part), (id, Cleanup)) == Exec(StepOf(s), StepOf(s)(w, (id, Cleanup)), part)
  {
    var flat, part := Flatten(w0.ops, st.log), InProgress(w0.ops, st);
    assert Known(s, w0, id);
    FlattenKnown(s, w0, st.log);
    InProgressKnown(s, w0, st);
    var w := Exec(StepOf(s), w0, flat);
    ExecQueueKeepsKnown(s, w0, flat, id);
    forall i | 0 <= i < |part|
      ensures Known(s, w, part[i].0) && part[i].0 != id
    {
      ExecQueueKeepsKnown(s, w0, flat, part[i].0);
    }
    CleanupMoves(s, w, id, part);
  }

  lemma TidyRecover(step: (World, Entry) -> World, w0: World, st: Stream, id: nat)
    requires StreamInv(w0.ops, st) && Tidy(step, w0, st) && Enabled(w0.ops, st, RecoverLaunch(id))
    requires var w := Exec(step, w0, Flatten(w0.ops, st.log));
             var part := InProgress(w0.ops, st);
             step(Exec(step, w, part), (id, Cleanup)) == Exec(step, step(w, (id, Cleanup)), part)
    ensures Tidy(step, w0, Apply(w0.ops, st, RecoverLaunch(id)))
  {
    LogSnoc(w0.ops, st.log, Stray(id));
    SameInserted(step, w0, st.queue, Flatten(w0.ops, st.log), InProgress(w0.ops, st), (id, Cleanup));
  }

  /** A call that takes the lock has launched nothing yet. */
  lemma TidyLock(step: (World, Entry) -> World, w0: World, st: Stream, id: nat)
    requires StreamInv(w0.ops, st) && Tidy(step, w0, st) && Enabled(w0.ops, st, Lock(id))
    ensures Tidy(step, w0, Apply(w0.ops, st, Lock(id)))
  {
    assert Entries(id, StagesOf(w0.ops[id])[..0]) == [];
  }

  lemma TidyFails(step: (World, Entry) -> World, w0: World, st: Stream, e: Event)
    requires StreamInv(w0.ops, st) && Tidy(step, w0, st)
    requires Enabled(w0.ops, st, e) && (e.AttributeFails? || e.LaunchFails?)
    ensures Tidy(step, w0, Apply(w0.ops, st, e))
  {
    FailsShape(w0.ops, st, e);
  }

  lemma TidyGivesUp(step: (World, Entry) -> World, w0: World, st: Stream, id: nat)
    requires StreamInv(w0.ops, st) && Tidy(step, w0, st) && Enabled(w0.ops, st, RecoverFails(id))
    ensures Tidy(step, w0, Apply(w0.ops, st, RecoverFails(id)))
  {
  }

  lemma TidyStep(s: Setting, w0: World, st: Stream, e: Event)
    requires Fresh(s, w0) && StreamInv(w0.ops, st) && Tidy(StepOf(s), w0, st) && Enabled(w0.ops, st, e)
    ensures Tidy(StepOf(s), w0, Apply(w0.ops, st, e))
  {
    match e
    case Launch(id) => TidyLaunch(StepOf(s), w0, st, id);
    case RecoverLaunch(id) =>
      StrayCommutes(s, w0, st, id);
      TidyRecover(StepOf(s), w0, st, id);
    case Lock(id) => TidyLock(StepOf(s), w0, st, id);
    case RecoverFails(id) => TidyGivesUp(StepOf(s), w0, st, id);
    case _ => TidyFails(StepOf(s), w0, st, e);
  }

  lemma {:induction false} TidyRun(s: Setting, w0: World, st: Stream, events: seq<Event>, st': Stream)
    requires Fresh(s, w0) && StreamInv(w0.ops, st) && Tidy(StepOf(s), w0, st) && Reaches(w0.ops, st, events, st')
    ensures StreamInv(w0.ops, st') && Tidy(StepOf(s), w0, st')
    decreases |events|
  {
    if events != [] {
      EventKeepsInv(w0.ops, st, events[0]);
      TidyStep(s, w0, st, events[0]);
      TidyRun(s, w0, Apply(w0.ops, st, events[0]), events[1..], st');
    }
  }

  /** The log with the call in progress counted as one whose later launches have not happened. */
  ghost function LogNow(st: Stream): seq<Item> {
    if st.lock >= 0 && st.lock in st.calls && st.calls[st.lock].Launching?
    then st.log + [Partial(st.lock, st.calls[st.lock].k)] else st.log
  }

  lemma LogNowOk(ops: map<nat, Op>, st: Stream)
    requires StreamInv(ops, st)
    ensures LogOk(ops, LogNow(st))
    ensures Flatten(ops, LogNow(st)) == Flatten(ops, st.log) + InProgress(ops, st)
  {
    if st.lock >= 0 {
      var id, k := st.lock, st.calls[st.lock].k;
      PartialEntries(ops[id], id, k);
      LogSnoc(ops, st.log, Partial(id, k));
    } else {
      AppendNothing(Flatten(ops, st.log));
    }
  }

  /** Serialisability. However concurrent calls interleave, fail and recover, at every moment running the queue faults
      nowhere and leaves files, memory and results as atomic transfers in submission order; the call that is still
      launching has moved nothing of the caller's data, or everything. */
  lemma ConcurrentSubmissionsSerialise(s: Setting, w0: World, events: seq<Event>, st: Stream)
    requires Fresh(s, w0) && Reaches(w0.ops, InitialStream(w0.ops), events, st)
    ensures LogOk(w0.ops, LogNow(st)) && Serial(s, w0, LogNow(st), Exec(StepOf(s), w0, st.queue))
    ensures st.lock == FREE ==> LogNow(st) == st.log
  {
    var st0 := InitialStream(w0.ops);
    assert Tidy(StepOf(s), w0, st0);
    TidyRun(s, w0, st0, events, st);
    LogNowOk(w0.ops, st);
    LogIsSerial(s, w0, LogNow(st));
  }
}
