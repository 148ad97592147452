/** One asynchronous operation: its parameters, its four stages, and the atomic transfer they amount to. */
module AsyncOp {
  import opened Memory
  import opened Device
  import opened Fallback
  import Kernel

  /** A parameter is fixed at submission, or read from the caller's variable when the operation is bound. */
  datatype Param = Fixed(v: int) | Late

  /** The caller's size and offsets at one instant. */
  datatype Vars = Vars(size: size_t, fileOffset: hoff, bufferOffset: hoff)

  /** Which parameters the stream declares fixed. */
  datatype Flags = Flags(size: bool, fileOffset: bool, bufferOffset: bool) {
    predicate AllFixed() { size && fileOffset && bufferOffset }
  }

  /** held: the references to file, buffer and stream are set. reported: the caller's result variable. */
  datatype Op = Op(kind: IoType, fileId: nat, buffer: Buffer, submittedSize: nat, size: Param, fileOffset: Param,
                   bufferOffset: Param, internal: int, bounce: seq<byte>, held: bool, reported: int)
  {
    predicate AnyLate() { size.Late? || fileOffset.Late? || bufferOffset.Late? }
  }

  datatype Stage = Bind | CpuCopy | Kernel | Cleanup

  /** What the environment decides for an operation: the caller's variables when it is bound, how many bytes the
      system calls move (a read moves all there is unless it fails), and whether they fail in the end. */
  datatype Env = Env(vars: Vars, moves: nat, fails: bool)

  /** The check made by async_io before anything is allocated. */
  predicate SubmitOk(b: Buffer, maxRw: nat, vars: Vars) {
    ParamsValid(b, Min(vars.size, maxRw), vars.fileOffset, vars.bufferOffset)
  }

  function ParamOf(isFixed: bool, v: int): Param { if isFixed then Fixed(v) else Late }

  /** The AsyncOpFallback constructor; bounce is the pinned buffer, of arbitrary contents. */
  function NewOp(kind: IoType, fileId: nat, b: Buffer, flags: Flags, vars: Vars, maxRw: nat, bounce: seq<byte>): Op {
    Op(kind, fileId, b, Min(vars.size, maxRw), ParamOf(flags.size, vars.size), ParamOf(flags.fileOffset, vars.fileOffset),
       ParamOf(flags.bufferOffset, vars.bufferOffset), 0, bounce, true, 0)
  }

  function StagesOf(op: Op): seq<Stage> { DataStages(op) + [Cleanup] }

  function DataStages(op: Op): seq<Stage> {
    (if op.AnyLate() then [Bind] else []) + (if op.kind == Read then [CpuCopy, Kernel] else [Kernel, CpuCopy])
  }

  function Resolve(p: Param, v: int): int { if p.Fixed? then p.v else v }

  /** async_io_bind_params. */
  function BindParams(op: Op, vars: Vars, maxRw: nat): Op {
    var bo := Resolve(op.bufferOffset, vars.bufferOffset);
    var fo := Resolve(op.fileOffset, vars.fileOffset);
    var size := Min(Resolve(op.size, vars.size), maxRw);
    var bound := op.(bufferOffset := Fixed(bo), fileOffset := Fixed(fo), size := Fixed(size));
    if size > op.submittedSize then bound.(internal := -INVALID_VALUE)
    else if !Representable(size, fo, bo) || !ParamsValid(op.buffer, size, fo, bo) then
      bound.(internal := -INVALID_VALUE)
    else bound
  }

  predicate Representable(size: int, fo: int, bo: int) {
    0 <= size <= SIZE_MAX && -0x8000_0000_0000_0000 <= fo <= MAX_HOFF && -0x8000_0000_0000_0000 <= bo <= MAX_HOFF
  }

  /** The parts of the world one operation can see: itself, its file and the device allocation. A fault is an
      access through a cleared reference, to an unbound parameter, or outside the buffers. */
  datatype View = View(op: Op, file: seq<byte>, dev: seq<byte>, fault: bool)

  /** The outcome of the system-call loop: bytes moved and whether it ended in an error. */
  function CopyCount(op: Op, file: seq<byte>, size: nat, off: nat, env: Env): nat {
    if op.kind == Read then
      if env.fails then Min(env.moves, Min(size, Avail(file, off))) else Min(size, Avail(file, off))
    else Min(env.moves, size)
  }

  /** async_io_cpu_copy. The bytes that arrive must fit the bounce buffer. */
  function CpuCopyStep(v: View, env: Env): View {
    var op := v.op;
    if !op.held || !op.size.Fixed? || !op.fileOffset.Fixed? then v.(fault := true)
    else if op.internal < 0 then v
    else if op.fileOffset.v < 0 || op.size.v < 0 then v.(fault := true)
    else if CopyCount(op, v.file, op.size.v, op.fileOffset.v, env) > |op.bounce| then v.(fault := true)
    else
      var n := CopyCount(op, v.file, op.size.v, op.fileOffset.v, env);
      var internal := if env.fails then -1 else n;
      match op.kind
      case Read =>
        v.(op := op.(bounce := Put(op.bounce, 0, Slice(v.file, op.fileOffset.v, n)), internal := internal))
      case Write =>
        v.(op := op.(internal := internal), file := FileWrite(v.file, op.fileOffset.v, op.bounce[..n]))
  }

  /** The kernel launch this operation makes, as the Kernel module describes it. */
  function LaunchOf(v: View, base: nat, threads: nat): Kernel.Launch {
    var op := v.op;
    var ready := op.size.Fixed? && op.bufferOffset.Fixed?;
    var at := if ready then Max(op.buffer.addr - base + op.bufferOffset.v, 0) else 0;
    var size := if ready then Max(op.size.v, 0) else 0;
    if op.kind == Read then Kernel.Launch(Read, threads, ready, size, op.bounce, 0, at)
    else Kernel.Launch(Write, threads, ready, size, v.dev, at, 0)
  }

  /** Bytes the kernel would copy lie in the operation's own buffer and bounce buffer. */
  predicate KernelInBounds(v: View, base: nat)
    requires v.op.size.Fixed? && v.op.bufferOffset.Fixed? && v.op.internal >= 0
  {
    var n := if v.op.kind == Read then v.op.internal else v.op.size.v;
    && Inside(v.op.buffer, base, |v.dev|)
    && 0 <= v.op.bufferOffset.v && 0 <= n
    && v.op.bufferOffset.v + n <= v.op.buffer.length && n <= |v.op.bounce|
  }

  /** hipFileMemcpyKernel as one step; KernelStepIsKernel ties it to the interleaved threads. */
  function KernelStep(v: View, base: nat): View {
    var op := v.op;
    if op.internal < 0 then v
    else if !op.size.Fixed? || !op.bufferOffset.Fixed? then v.(op := op.(internal := -INVALID_VALUE))
    else if !KernelInBounds(v, base) then v.(fault := true)
    else
      var at := op.buffer.addr - base + op.bufferOffset.v;
      match op.kind
      case Read => v.(dev := Put(v.dev, at, op.bounce[..op.internal]))
      case Write => v.(op := op.(bounce := Put(op.bounce, 0, v.dev[at..at + op.size.v])))
  }

  function CleanupStep(v: View): View {
    if !v.op.held then v.(fault := true)
    else v.(op := v.op.(held := false, reported := v.op.internal))
  }

  function StageStep(v: View, stage: Stage, env: Env, maxRw: nat, base: nat): View {
    match stage
    case Bind => if v.op.held then v.(op := BindParams(v.op, env.vars, maxRw)) else v.(fault := true)
    case CpuCopy => CpuCopyStep(v, env)
    case Kernel => KernelStep(v, base)
    case Cleanup => CleanupStep(v)
  }

  function KernelDst(v: View): seq<byte> { if v.op.kind == Read then v.dev else v.op.bounce }

  /** A stage that does not fault launches the kernel within bounds. */
  lemma LaunchInBounds(v: View, base: nat, threads: nat)
    requires threads >= 1 && !KernelStep(v, base).fault
    ensures Kernel.Valid(LaunchOf(v, base, threads), v.op.internal, KernelDst(v))
  {
  }

  lemma KernelStepEffect(v: View, base: nat, threads: nat)
    requires threads >= 1 && !KernelStep(v, base).fault
    requires Kernel.Valid(LaunchOf(v, base, threads), v.op.internal, KernelDst(v))
    ensures var (dst, internal) := Kernel.Effect(LaunchOf(v, base, threads), v.op.internal, KernelDst(v));
            KernelStep(v, base) ==
            if v.op.kind == Read then v.(dev := dst, op := v.op.(internal := internal))
            else v.(op := v.op.(internal := internal, bounce := dst))
  {
    var n := v.op.internal;
    assert v.op.kind == Read && 0 <= n <= |v.op.bounce| ==> v.op.bounce[0..0 + n] == v.op.bounce[..n];
  }

  /** Every finished interleaving of the kernel's threads does what the Kernel stage does. */
  lemma KernelStepIsKernel(v: View, base: nat, threads: nat, schedule: seq<nat>)
    requires threads >= 1 && !KernelStep(v, base).fault
    requires Kernel.Schedules(LaunchOf(v, base, threads), schedule)
    requires Kernel.AllExited(Kernel.Run(LaunchOf(v, base, threads),
                                         Kernel.Initial(LaunchOf(v, base, threads), v.op.internal, KernelDst(v)), schedule))
    ensures var k := LaunchOf(v, base, threads);
            var s := Kernel.Run(k, Kernel.Initial(k, v.op.internal, KernelDst(v)), schedule);
            KernelStep(v, base) ==
            if v.op.kind == Read then v.(dev := s.dst, op := v.op.(internal := s.internal))
            else v.(op := v.op.(internal := s.internal, bounce := s.dst))
  {
    LaunchInBounds(v, base, threads);
    KernelStepEffect(v, base, threads);
    Kernel.KernelIsMemcpy(LaunchOf(v, base, threads), v.op.internal, KernelDst(v), schedule);
  }

  /** The transfer as the caller may think of it: one indivisible step. */
  datatype Atomic = Atomic(file: seq<byte>, dev: seq<byte>, result: int)

  function AtomicTransfer(kind: IoType, file: seq<byte>, dev: seq<byte>, at: nat, off: nat, size: nat, env: Env): Atomic
    requires at + size <= |dev|
  {
    match kind
    case Read =>
      if env.fails then Atomic(file, dev, -1)
      else
        var n := Min(size, Avail(file, off));
        Atomic(file, Put(dev, at, Slice(file, off, n)), n)
    case Write =>
      var n := Min(env.moves, size);
      Atomic(FileWrite(file, off, dev[at..at + n]), dev, if env.fails then -1 else n)
  }

  /** The values the operation will run with, and whether binding accepts them. */
  function BoundVars(op: Op, vars: Vars, maxRw: nat): (int, int, int) {
    (Min(Resolve(op.size, vars.size), maxRw), Resolve(op.fileOffset, vars.fileOffset),
     Resolve(op.bufferOffset, vars.bufferOffset))
  }

  predicate BindAccepts(op: Op, vars: Vars, maxRw: nat) {
    var (size, fo, bo) := BoundVars(op, vars, maxRw);
    size <= op.submittedSize && Representable(size, fo, bo) && ParamsValid(op.buffer, size, fo, bo)
  }

  /** A freshly submitted operation over an allocation. */
  ghost predicate Submitted(op: Op, maxRw: nat, base: nat, devSize: nat) {
    && op.held && op.internal == 0 && |op.bounce| == op.submittedSize && Inside(op.buffer, base, devSize)
    && (!op.AnyLate() ==>
          && Representable(op.size.v, op.fileOffset.v, op.bufferOffset.v)
          && op.submittedSize == Min(op.size.v, maxRw)
          && ParamsValid(op.buffer, op.submittedSize, op.fileOffset.v, op.bufferOffset.v))
  }

  /** Some parameter is late, or the request does not exceed the limit that only binding enforces. */
  predicate InDomain(op: Op, maxRw: nat) {
    op.AnyLate() || op.size.v <= maxRw
  }

  lemma NewOpIsSubmitted(kind: IoType, fileId: nat, b: Buffer, flags: Flags, vars: Vars, maxRw: nat,
                         bounce: seq<byte>, base: nat, devSize: nat)
    requires SubmitOk(b, maxRw, vars) && Inside(b, base, devSize) && |bounce| == Min(vars.size, maxRw)
    ensures Submitted(NewOp(kind, fileId, b, flags, vars, maxRw, bounce), maxRw, base, devSize)
    ensures InDomain(NewOp(kind, fileId, b, flags, vars, maxRw, bounce), maxRw) <==>
            !flags.AllFixed() || vars.size <= maxRw
  {
  }

  ghost function RunStages(v: View, stages: seq<Stage>, env: Env, maxRw: nat, base: nat): View {
    if stages == [] then v
    else StageStep(RunStages(v, stages[..|stages| - 1], env, maxRw, base), stages[|stages| - 1], env, maxRw, base)
  }

  /** The first bound view: after Bind when there is one. */
  function Bound(v: View, env: Env, maxRw: nat): View {
    if v.op.AnyLate() then v.(op := BindParams(v.op, env.vars, maxRw)) else v
  }

  lemma RunStagesSnoc(v: View, stages: seq<Stage>, last: Stage, env: Env, maxRw: nat, base: nat)
    ensures RunStages(v, stages + [last], env, maxRw, base)
         == StageStep(RunStages(v, stages, env, maxRw, base), last, env, maxRw, base)
  {
    var all := stages + [last];
    assert all[..|all| - 1] == stages && all[|all| - 1] == last;
  }

  /** The data stages in order, with the prefixes a failed launch can leave. */
  lemma RunDataStages(v: View, env: Env, maxRw: nat, base: nat)
    requires v.op.held
    ensures var first, second := First(v.op.kind), Second(v.op.kind);
            var b := Bound(v, env, maxRw);
            var d := DataStages(v.op);
            var one := StageStep(b, first, env, maxRw, base);
            && (v.op.AnyLate() ==> |d| == 3 && RunStages(v, d[..1], env, maxRw, base) == b)
            && (!v.op.AnyLate() ==> |d| == 2)
            && RunStages(v, d[..0], env, maxRw, base) == v
            && RunStages(v, d[..|d| - 2], env, maxRw, base) == b
            && RunStages(v, d[..|d| - 1], env, maxRw, base) == one
            && RunStages(v, d, env, maxRw, base) == StageStep(one, second, env, maxRw, base)
  {
    var first, second := First(v.op.kind), Second(v.op.kind);
    var d := DataStages(v.op);
    if v.op.AnyLate() {
      assert d == [Bind, first, second] && d[..1] == [] + [Bind] && d[..2] == [Bind] + [first] && d == [Bind, first] + [second];
      RunStagesSnoc(v, [], Bind, env, maxRw, base);
      RunStagesSnoc(v, [Bind], first, env, maxRw, base);
      RunStagesSnoc(v, [Bind, first], second, env, maxRw, base);
    } else {
      assert d == [first, second] && d[..0] == [] && d[..1] == [] + [first] && d == [first] + [second];
      RunStagesSnoc(v, [], first, env, maxRw, base);
      RunStagesSnoc(v, [first], second, env, maxRw, base);
    }
  }

  /** A bound operation that passed every check. */
  ghost predicate Runnable(v: View, size: int, fo: int, bo: int, base: nat) {
    && !v.fault && v.op.held && v.op.internal == 0
    && v.op.size == Fixed(size) && v.op.fileOffset == Fixed(fo) && v.op.bufferOffset == Fixed(bo)
    && 0 <= size <= |v.op.bounce| && 0 <= fo && 0 <= bo && bo + size <= v.op.buffer.length
    && Inside(v.op.buffer, base, |v.dev|)
  }

  lemma BoundIsRunnable(v: View, env: Env, maxRw: nat, base: nat)
    requires Submitted(v.op, maxRw, base, |v.dev|) && InDomain(v.op, maxRw) && !v.fault
    ensures var (size, fo, bo) := BoundVars(v.op, env.vars, maxRw);
            var b := Bound(v, env, maxRw);
            && b.file == v.file && b.dev == v.dev && !b.fault && b.op.held && b.op.kind == v.op.kind
            && b.op.reported == v.op.reported
            && b.op.size.Fixed? && b.op.fileOffset.Fixed? && b.op.bufferOffset.Fixed?
            && (if BindAccepts(v.op, env.vars, maxRw) then Runnable(b, size, fo, bo, base)
                else b.op.internal == -INVALID_VALUE)
  {
  }

  function First(kind: IoType): Stage { if kind == Read then CpuCopy else Kernel }
  function Second(kind: IoType): Stage { if kind == Read then Kernel else CpuCopy }

  lemma ReadFirst(b: View, size: int, fo: int, bo: int, env: Env, base: nat)
    requires Runnable(b, size, fo, bo, base) && b.op.kind == Read
    ensures var n := CopyCount(b.op, b.file, size, fo, env);
            && n <= Avail(b.file, fo) && n <= size
            && CpuCopyStep(b, env) ==
               b.(op := b.op.(bounce := Put(b.op.bounce, 0, Slice(b.file, fo, n)), internal := if env.fails then -1 else n))
  {
  }

  /** The first data stage leaves the caller's data alone; the second completes the atomic transfer. */
  lemma ReadStages(b: View, size: int, fo: int, bo: int, env: Env, maxRw: nat, base: nat)
    requires Runnable(b, size, fo, bo, base) && b.op.kind == Read
    ensures FirstLeavesData(b, CpuCopyStep(b, env))
    ensures CpuCopyStep(b, env).op.internal == if env.fails then -1 else Min(size, Avail(b.file, fo))
    ensures SecondCompletes(b, KernelStep(CpuCopyStep(b, env), base), b.op.buffer.addr - base + bo, fo, size, env)
  {
    ReadFirst(b, size, fo, bo, env, base);
    var n := CopyCount(b.op, b.file, size, fo, env);
    PutThenTake(b.op.bounce, Slice(b.file, fo, n));
  }

  ghost predicate FirstLeavesData(b: View, one: View) {
    one.file == b.file && one.dev == b.dev && !one.fault && one.op.held && one.op.reported == b.op.reported
  }

  ghost predicate SecondCompletes(b: View, two: View, at: int, off: int, size: int, env: Env) {
    && 0 <= at && 0 <= off && 0 <= size && at + size <= |b.dev|
    && !two.fault && two.op.held && two.op.reported == b.op.reported
    && Atomic(two.file, two.dev, two.op.internal) == AtomicTransfer(b.op.kind, b.file, b.dev, at, off, size, env)
  }

  lemma WriteFirst(b: View, size: int, fo: int, bo: int, env: Env, base: nat)
    requires Runnable(b, size, fo, bo, base) && b.op.kind == Write
    ensures var at := b.op.buffer.addr - base + bo;
            && at + size <= |b.dev|
            && KernelStep(b, base) == b.(op := b.op.(bounce := Put(b.op.bounce, 0, b.dev[at..at + size])))
  {
  }

  lemma StagedPrefix(bounce: seq<byte>, dev: seq<byte>, at: nat, size: nat, n: nat)
    requires at + size <= |dev| && size <= |bounce| && n <= size
    ensures Put(bounce, 0, dev[at..at + size])[..n] == dev[at..at + n]
  {
  }

  lemma WriteSecond(c: View, size: int, fo: int, env: Env)
    requires !c.fault && c.op.held && c.op.internal == 0 && c.op.kind == Write
    requires c.op.size == Fixed(size) && c.op.fileOffset == Fixed(fo) && 0 <= size <= |c.op.bounce| && 0 <= fo
    ensures var n := Min(env.moves, size);
            CpuCopyStep(c, env) ==
            c.(op := c.op.(internal := if env.fails then -1 else n), file := FileWrite(c.file, fo, c.op.bounce[..n]))
  {
  }

  /** The second stage of a write, once the device bytes are staged in the bounce buffer. */
  lemma WriteCompletes(b: View, c: View, size: int, fo: int, at: int, env: Env)
    requires !c.fault && c.op.held && c.op.internal == 0 && c.op.kind == Write && b.op.kind == Write
    requires c.op.size == Fixed(size) && c.op.fileOffset == Fixed(fo) && 0 <= size <= |c.op.bounce| && 0 <= fo
    requires c.file == b.file && c.dev == b.dev && c.op.reported == b.op.reported && 0 <= at && at + size <= |b.dev|
    requires forall n :: 0 <= n <= size ==> c.op.bounce[..n] == b.dev[at..at + n]
    ensures SecondCompletes(b, CpuCopyStep(c, env), at, fo, size, env)
  {
    WriteSecond(c, size, fo, env);
  }

  lemma WriteStages(b: View, size: int, fo: int, bo: int, env: Env, maxRw: nat, base: nat)
    requires Runnable(b, size, fo, bo, base) && b.op.kind == Write
    ensures FirstLeavesData(b, KernelStep(b, base)) && KernelStep(b, base).op.internal == 0
    ensures SecondCompletes(b, CpuCopyStep(KernelStep(b, base), env), b.op.buffer.addr - base + bo, fo, size, env)
  {
    WriteFirst(b, size, fo, bo, env, base);
    var at := b.op.buffer.addr - base + bo;
    var c := b.(op := b.op.(bounce := Put(b.op.bounce, 0, b.dev[at..at + size])));
    forall n | 0 <= n <= size
      ensures c.op.bounce[..n] == b.dev[at..at + n]
    {
      StagedPrefix(b.op.bounce, b.dev, at, size, n);
    }
    WriteCompletes(b, c, size, fo, at, env);
  }

  /** Once binding has refused, the data stages do nothing. */
  lemma RefusedStages(b: View, env: Env, maxRw: nat, base: nat)
    requires !b.fault && b.op.held && b.op.internal < 0 && b.op.size.Fixed? && b.op.fileOffset.Fixed?
    ensures StageStep(b, First(b.op.kind), env, maxRw, base) == b
    ensures StageStep(b, Second(b.op.kind), env, maxRw, base) == b
  {
  }

  /** The atomic effect of an operation on its file and the device, with the values bound from vars. */
  function AtomicOp(op: Op, file: seq<byte>, dev: seq<byte>, env: Env, maxRw: nat, base: nat): Atomic
    requires Inside(op.buffer, base, |dev|)
  {
    if BindAccepts(op, env.vars, maxRw) then
      var (size, fo, bo) := BoundVars(op, env.vars, maxRw);
      AtomicTransfer(op.kind, file, dev, op.buffer.addr - base + bo, fo, size, env)
    else Atomic(file, dev, -INVALID_VALUE)
  }

  /** A read found data that only the kernel could have delivered. */
  predicate ReadFoundData(op: Op, file: seq<byte>, env: Env, maxRw: nat) {
    && op.kind == Read && !env.fails && BindAccepts(op, env.vars, maxRw)
    && var (size, fo, _) := BoundVars(op, env.vars, maxRw);
       Min(size, Avail(file, fo)) > 0
  }

  /** The two data stages after binding. */
  lemma BoundStagesRun(v: View, env: Env, maxRw: nat, base: nat)
    requires Submitted(v.op, maxRw, base, |v.dev|) && InDomain(v.op, maxRw) && !v.fault
    ensures var one := StageStep(Bound(v, env, maxRw), First(v.op.kind), env, maxRw, base);
            var two := StageStep(one, Second(v.op.kind), env, maxRw, base);
            && FirstLeavesData(v, one) && (one.op.internal > 0 <==> ReadFoundData(v.op, v.file, env, maxRw))
            && !two.fault && two.op.held && two.op.reported == v.op.reported
            && Atomic(two.file, two.dev, two.op.internal) == AtomicOp(v.op, v.file, v.dev, env, maxRw, base)
  {
    BoundIsRunnable(v, env, maxRw, base);
    var b := Bound(v, env, maxRw);
    if BindAccepts(v.op, env.vars, maxRw) {
      var (size, fo, bo) := BoundVars(v.op, env.vars, maxRw);
      if v.op.kind == Read {
        ReadStages(b, size, fo, bo, env, maxRw, base);
      } else {
        WriteStages(b, size, fo, bo, env, maxRw, base);
      }
    } else {
      RefusedStages(b, env, maxRw, base);
    }
  }

  /** Running the first k data stages: no fault and no released reference; before the last of them the caller's
      data is untouched, after it the transfer is done. */
  lemma DataStagesRun(v: View, env: Env, maxRw: nat, base: nat, k: nat)
    requires Submitted(v.op, maxRw, base, |v.dev|) && InDomain(v.op, maxRw) && !v.fault
    requires k <= |DataStages(v.op)|
    ensures var r := RunStages(v, DataStages(v.op)[..k], env, maxRw, base);
            && !r.fault && r.op.held && r.op.reported == v.op.reported
            && (k < |DataStages(v.op)| ==> FirstLeavesData(v, r))
            && (k == |DataStages(v.op)| ==>
                  Atomic(r.file, r.dev, r.op.internal) == AtomicOp(v.op, v.file, v.dev, env, maxRw, base))
            && (k < |DataStages(v.op)| && r.op.internal > 0 <==>
                  k == |DataStages(v.op)| - 1 && ReadFoundData(v.op, v.file, env, maxRw))
  {
    var d := DataStages(v.op);
    RunDataStages(v, env, maxRw, base);
    if k + 2 <= |d| {
      BoundIsRunnable(v, env, maxRw, base);
      assert k == 0 || k == |d| - 2;
    } else {
      BoundStagesRun(v, env, maxRw, base);
      assert d[..|d|] == d;
    }
  }

  /** Asynchronous refinement: run in stream order, the stages amount to one atomic transfer with the values the
      caller's variables have at bind time, or to nothing and -hipFileInvalidValue when binding refuses them. */
  lemma AsyncRefinement(v: View, env: Env, maxRw: nat, base: nat)
    requires Submitted(v.op, maxRw, base, |v.dev|) && InDomain(v.op, maxRw) && !v.fault
    ensures var r := RunStages(v, StagesOf(v.op), env, maxRw, base);
            && !r.fault && !r.op.held
            && Atomic(r.file, r.dev, r.op.reported) == AtomicOp(v.op, v.file, v.dev, env, maxRw, base)
  {
    var d := DataStages(v.op);
    DataStagesRun(v, env, maxRw, base, |d|);
    assert d[..|d|] == d;
    RunStagesSnoc(v, d, Cleanup, env, maxRw, base);
  }

  /** Which parameters of a new operation are late: each exactly when its own flag is not set; a fixed one has its own
      value at submission. */
  lemma NewOpParams(kind: IoType, fileId: nat, b: Buffer, flags: Flags, vars: Vars, maxRw: nat, bounce: seq<byte>)
    ensures var op := NewOp(kind, fileId, b, flags, vars, maxRw, bounce);
            && (op.size.Late? <==> !flags.size) && (flags.size ==> op.size == Fixed(vars.size))
            && (op.fileOffset.Late? <==> !flags.fileOffset) && (flags.fileOffset ==> op.fileOffset == Fixed(vars.fileOffset))
            && (op.bufferOffset.Late? <==> !flags.bufferOffset)
            && (flags.bufferOffset ==> op.bufferOffset == Fixed(vars.bufferOffset))
            && op.kind == kind && op.fileId == fileId && op.buffer == b && op.submittedSize == Min(vars.size, maxRw)
  {
  }

  /** The atomic effect of a new operation, with every value written out. */
  lemma NewOpAtomic(kind: IoType, fileId: nat, b: Buffer, flags: Flags, vars: Vars, maxRw: nat, bounce: seq<byte>,
                    file: seq<byte>, dev: seq<byte>, env: Env, base: nat)
    requires ParamsValid(b, Min(vars.size, maxRw), vars.fileOffset, vars.bufferOffset) && Inside(b, base, |dev|)
    ensures var size := Min(if flags.size then vars.size else env.vars.size, maxRw);
            var fo := if flags.fileOffset then vars.fileOffset else env.vars.fileOffset;
            var bo := if flags.bufferOffset then vars.bufferOffset else env.vars.bufferOffset;
            AtomicOp(NewOp(kind, fileId, b, flags, vars, maxRw, bounce), file, dev, env, maxRw, base) ==
            if size <= Min(vars.size, maxRw) && ParamsValid(b, size, fo, bo)
            then AtomicTransfer(kind, file, dev, b.addr - base + bo, fo, size, env)
            else Atomic(file, dev, -INVALID_VALUE)
  {
  }

  /** From submission to result. An accepted request runs as one atomic transfer whose size and offsets are those at
      submission where the stream declares them fixed, and those the caller's variables hold at bind time where it does
      not; or, when these no longer fit, it reports -hipFileInvalidValue and moves nothing. */
  lemma SubmittedRefinement(kind: IoType, fileId: nat, b: Buffer, flags: Flags, vars: Vars, maxRw: nat, bounce: seq<byte>,
                            file: seq<byte>, dev: seq<byte>, env: Env, base: nat)
    requires ParamsValid(b, Min(vars.size, maxRw), vars.fileOffset, vars.bufferOffset)
    requires Inside(b, base, |dev|) && |bounce| == Min(vars.size, maxRw)
    requires (flags.size && flags.fileOffset && flags.bufferOffset) ==> vars.size <= maxRw
    ensures var size := Min(if flags.size then vars.size else env.vars.size, maxRw);
            var fo := if flags.fileOffset then vars.fileOffset else env.vars.fileOffset;
            var bo := if flags.bufferOffset then vars.bufferOffset else env.vars.bufferOffset;
            var op := NewOp(kind, fileId, b, flags, vars, maxRw, bounce);
            var r := RunStages(View(op, file, dev, false), StagesOf(op), env, maxRw, base);
            && !r.fault && !r.op.held
            && Atomic(r.file, r.dev, r.op.reported) ==
               if size <= Min(vars.size, maxRw) && ParamsValid(b, size, fo, bo)
               then AtomicTransfer(kind, file, dev, b.addr - base + bo, fo, size, env)
               else Atomic(file, dev, -INVALID_VALUE)
  {
    NewOpAtomic(kind, fileId, b, flags, vars, maxRw, bounce, file, dev, env, base);
    NewOpIsSubmitted(kind, fileId, b, flags, vars, maxRw, bounce, base, |dev|);
    var op := NewOp(kind, fileId, b, flags, vars, maxRw, bounce);
    AsyncRefinement(View(op, file, dev, false), env, maxRw, base);
  }

  /** When a launch fails after k stages, cleanup still runs. The data is moved entirely or not at all, but the
      reported count can then claim bytes that never reached the device: exactly after a read whose CPU copy was
      launched and found data, and whose kernel was not. */
  lemma FailedLaunch(v: View, env: Env, maxRw: nat, base: nat, k: nat)
    requires Submitted(v.op, maxRw, base, |v.dev|) && InDomain(v.op, maxRw) && !v.fault
    requires k <= |DataStages(v.op)|
    ensures var r := RunStages(v, DataStages(v.op)[..k] + [Cleanup], env, maxRw, base);
            && !r.fault && !r.op.held
            && (if k < |DataStages(v.op)| then r.file == v.file && r.dev == v.dev
                else Atomic(r.file, r.dev, r.op.reported) == AtomicOp(v.op, v.file, v.dev, env, maxRw, base))
            && (k < |DataStages(v.op)| && r.op.reported > 0 <==>
                  k == |DataStages(v.op)| - 1 && ReadFoundData(v.op, v.file, env, maxRw))
  {
    DataStagesRun(v, env, maxRw, base, k);
    RunStagesSnoc(v, DataStages(v.op)[..k], Cleanup, env, maxRw, base);
  }

  /** A wrong count: a one-byte read of a one-byte file whose kernel launch fails reports one byte, and the device
      still holds what it held. */
  lemma FailedLaunchExample(maxRw: nat, base: nat, dev: seq<byte>, x: byte)
    requires 0 < maxRw && 0 < base && 1 <= |dev| && base + |dev| <= SIZE_MAX
    ensures var vars := Vars(1, 0, 0);
            var op := NewOp(Read, 0, Buffer(base, |dev|, DeviceMemory, 0), Flags(true, true, true), vars, maxRw, [0]);
            var r := RunStages(View(op, [x], dev, false), DataStages(op)[..1] + [Cleanup], Env(vars, 1, false), maxRw, base);
            SubmitOk(op.buffer, maxRw, vars) && r.op.reported == 1 && r.dev == dev && r.file == [x] && !r.fault
  {
    var vars, env := Vars(1, 0, 0), Env(Vars(1, 0, 0), 1, false);
    var op := NewOp(Read, 0, Buffer(base, |dev|, DeviceMemory, 0), Flags(true, true, true), vars, maxRw, [0]);
    var v := View(op, [x], dev, false);
    assert DataStages(op)[..1] == [] + [CpuCopy];
    RunStagesSnoc(v, [], CpuCopy, env, maxRw, base);
    RunStagesSnoc(v, [] + [CpuCopy], Cleanup, env, maxRw, base);
  }

  lemma StageKeepsFault(v: View, stage: Stage, env: Env, maxRw: nat, base: nat)
    requires v.fault
    ensures StageStep(v, stage, env, maxRw, base).fault
  {
  }

  /** How many bytes the copy stage moves when every parameter is fixed. */
  function FixedCount(op: Op, file: seq<byte>, env: Env): nat
    requires !op.AnyLate() && op.size.v >= 0 && op.fileOffset.v >= 0
  {
    CopyCount(op, file, op.size.v, op.fileOffset.v, env)
  }

  /** An access leaves the buffers exactly when every parameter is fixed, the request exceeds the limit that only
      binding enforces, and it is a write (the kernel then stages the whole request) or a read for which more bytes
      than the limit arrive. */
  lemma OverrunsExactlyOutsideDomain(v: View, env: Env, maxRw: nat, base: nat)
    requires Submitted(v.op, maxRw, base, |v.dev|) && !v.fault
    ensures RunStages(v, StagesOf(v.op), env, maxRw, base).fault <==>
            !InDomain(v.op, maxRw) && (v.op.kind == Write || FixedCount(v.op, v.file, env) > maxRw)
  {
    if InDomain(v.op, maxRw) {
      AsyncRefinement(v, env, maxRw, base);
    } else {
      var d := DataStages(v.op);
      RunDataStages(v, env, maxRw, base);
      RunStagesSnoc(v, d, Cleanup, env, maxRw, base);
      var one := RunStages(v, d[..|d| - 1], env, maxRw, base);
      if one.fault {
        StageKeepsFault(one, Second(v.op.kind), env, maxRw, base);
      } else {
        UnclampedReadFits(v, env, maxRw, base);
      }
    }
  }

  /** A read above the limit whose bytes fit is a right read all the same. */
  lemma UnclampedReadFits(v: View, env: Env, maxRw: nat, base: nat)
    requires Submitted(v.op, maxRw, base, |v.dev|) && !v.fault && !InDomain(v.op, maxRw)
    requires v.op.kind == Read && FixedCount(v.op, v.file, env) <= maxRw
    ensures var one := CpuCopyStep(v, env);
            !one.fault && one.op.held && !KernelStep(one, base).fault && KernelStep(one, base).op.held
  {
  }

  /** A request that overruns: one byte over the limit on a stream with every parameter fixed. */
  lemma OverrunExample(maxRw: nat, base: nat, dev: seq<byte>, bounce: seq<byte>, env: Env)
    requires 0 < maxRw && 0 < base && maxRw + 1 <= |dev| && base + |dev| <= SIZE_MAX && |bounce| == maxRw
    ensures var b := Buffer(base, |dev|, DeviceMemory, 0);
            var op := NewOp(Write, 0, b, Flags(true, true, true), Vars(maxRw + 1, 0, 0), maxRw, bounce);
            && SubmitOk(b, maxRw, Vars(maxRw + 1, 0, 0))
            && RunStages(View(op, [], dev, false), StagesOf(op), env, maxRw, base).fault
  {
    var b := Buffer(base, |dev|, DeviceMemory, 0);
    var op := NewOp(Write, 0, b, Flags(true, true, true), Vars(maxRw + 1, 0, 0), maxRw, bounce);
    OverrunsExactlyOutsideDomain(View(op, [], dev, false), env, maxRw, base);
  }
}
