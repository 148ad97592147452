/** Several streams at once: operations of different streams that use different files and disjoint buffers commute,
    stage by stage, so every interleaving of the streams leaves the same world. */
module Interleave {
  import opened Memory
  import opened Device
  import opened Fallback
  import opened AsyncOp
  import opened Runs
  import opened StreamQueue

  predicate DisjointBuffers(a: Buffer, b: Buffer) {
    a.addr + a.length <= b.addr || b.addr + b.length <= a.addr
  }

  /** Device bytes a stage stores: at an index, or nothing. They come from the bounce buffer. */
  function StagePut(v: View, stage: Stage, base: nat): (nat, seq<byte>) {
    if stage == Kernel && v.op.kind == Read && v.op.internal >= 0 && v.op.size.Fixed? && v.op.bufferOffset.Fixed?
       && KernelInBounds(v, base)
    then (v.op.buffer.addr - base + v.op.bufferOffset.v, v.op.bounce[..v.op.internal])
    else (0, [])
  }

  /** Two device images agree on a buffer. */
  ghost predicate AgreeOn(m: seq<byte>, m': seq<byte>, b: Buffer, base: nat) {
    |m| == |m'| && forall i :: 0 <= i < |m| && b.addr - base <= i < b.addr - base + b.length ==> m[i] == m'[i]
  }

  lemma CpuCopyStores(v: View, env: Env)
    ensures CpuCopyStep(v, env).dev == v.dev
  {
  }

  /** A stage changes the device by its store alone, inside its own buffer. */
  lemma StageStores(v: View, stage: Stage, env: Env, maxRw: nat, base: nat)
    ensures var (at, data) := StagePut(v, stage, base);
            && at + |data| <= |v.dev|
            && (data != [] ==> v.op.buffer.addr - base <= at && at + |data| <= v.op.buffer.addr - base + v.op.buffer.length)
            && StageStep(v, stage, env, maxRw, base).dev == Put(v.dev, at, data)
  {
    PutEmpty(v.dev, 0);
    match stage
    case CpuCopy => CpuCopyStores(v, env);
    case Kernel => KernelStores(v, base);
    case Bind =>
    case Cleanup =>
  }

  lemma KernelStores(v: View, base: nat)
    ensures var (at, data) := StagePut(v, Kernel, base);
            && at + |data| <= |v.dev|
            && (data != [] ==> v.op.buffer.addr - base <= at && at + |data| <= v.op.buffer.addr - base + v.op.buffer.length)
            && KernelStep(v, base).dev == Put(v.dev, at, data)
  {
    PutEmpty(v.dev, 0);
  }

  lemma CpuCopyIsLocal(v: View, dev: seq<byte>, env: Env)
    ensures var r, r' := CpuCopyStep(v, env), CpuCopyStep(v.(dev := dev), env);
            r'.op == r.op && r'.file == r.file && r'.fault == r.fault
  {
  }

  lemma KernelIsLocal(v: View, dev: seq<byte>, base: nat)
    requires AgreeOn(v.dev, dev, v.op.buffer, base)
    ensures var r, r' := KernelStep(v, base), KernelStep(v.(dev := dev), base);
            r'.op == r.op && r'.file == r.file && r'.fault == r.fault
  {
    if v.op.kind == Write && v.op.internal >= 0 && v.op.size.Fixed? && v.op.bufferOffset.Fixed? && KernelInBounds(v, base) {
      var at := v.op.buffer.addr - base + v.op.bufferOffset.v;
      assert v.dev[at..at + v.op.size.v] == dev[at..at + v.op.size.v];
    }
  }

  /** A stage only looks at its own buffer: on another device image that agrees there, it does the same. */
  lemma StageIsLocal(v: View, dev: seq<byte>, stage: Stage, env: Env, maxRw: nat, base: nat)
    requires AgreeOn(v.dev, dev, v.op.buffer, base)
    ensures StagePut(v.(dev := dev), stage, base) == StagePut(v, stage, base)
    ensures var r, r' := StageStep(v, stage, env, maxRw, base), StageStep(v.(dev := dev), stage, env, maxRw, base);
            r'.op == r.op && r'.file == r.file && r'.fault == r.fault
  {
    match stage
    case CpuCopy => CpuCopyIsLocal(v, dev, env);
    case Kernel => KernelIsLocal(v, dev, base);
    case Bind =>
    case Cleanup =>
  }

  lemma StageKeepsBuffer(v: View, stage: Stage, env: Env, maxRw: nat, base: nat)
    ensures var r := StageStep(v, stage, env, maxRw, base);
            r.op.fileId == v.op.fileId && r.op.buffer == v.op.buffer && |r.dev| == |v.dev|
  {
  }

  lemma PutsCommute(m: seq<byte>, a: nat, x: seq<byte>, b: nat, y: seq<byte>)
    requires a + |x| <= |m| && b + |y| <= |m|
    requires x == [] || y == [] || a + |x| <= b || b + |y| <= a
    ensures Put(Put(m, a, x), b, y) == Put(Put(m, b, y), a, x)
  {
    if x == [] {
      PutEmpty(m, a);
      PutEmpty(Put(m, b, y), a);
    } else if y == [] {
      PutEmpty(m, b);
      PutEmpty(Put(m, a, x), b);
    } else {
      PutCommute(m, a, x, b, y);
    }
  }

  lemma PutAgrees(m: seq<byte>, at: nat, data: seq<byte>, mine: Buffer, other: Buffer, base: nat)
    requires at + |data| <= |m| && DisjointBuffers(mine, other)
    requires data != [] ==> other.addr - base <= at && at + |data| <= other.addr - base + other.length
    ensures AgreeOn(m, Put(m, at, data), mine, base)
  {
    PutBytes(m, at, data);
  }

  ghost predicate Apart(w: World, a: nat, b: nat) {
    && a in w.ops && b in w.ops && a != b
    && w.ops[a].fileId != w.ops[b].fileId && DisjointBuffers(w.ops[a].buffer, w.ops[b].buffer)
  }

  function After(s: Setting, w: World, id: nat, stage: Stage): View
    requires Known(s, w, id)
  {
    StageStep(ViewOf(w, id), stage, s.envs[id], s.maxRw, s.base)
  }

  /** The second of two apart operations does what it would have done first. */
  lemma SecondUndisturbed(s: Setting, w: World, a: nat, sa: Stage, b: nat, sb: Stage)
    requires Known(s, w, a) && Known(s, w, b) && Apart(w, a, b)
    ensures var ra, rb := After(s, w, a, sa), After(s, w, b, sb);
            var w1 := ExecEntry(s, w, (a, sa));
            var (atB, dataB) := StagePut(ViewOf(w, b), sb, s.base);
            && Known(s, w1, b) && atB + |dataB| <= |ra.dev|
            && var r := After(s, w1, b, sb);
               r.op == rb.op && r.file == rb.file && r.fault == (ra.fault || rb.fault) && r.dev == Put(ra.dev, atB, dataB)
  {
    var va, vb := ViewOf(w, a), ViewOf(w, b);
    var ra := After(s, w, a, sa);
    StageKeepsBuffer(va, sa, s.envs[a], s.maxRw, s.base);
    StageStores(va, sa, s.envs[a], s.maxRw, s.base);
    StageStores(vb, sb, s.envs[b], s.maxRw, s.base);
    var (at, data) := StagePut(va, sa, s.base);
    PutAgrees(w.dev, at, data, vb.op.buffer, va.op.buffer, s.base);
    StageIsLocal(vb, ra.dev, sb, s.envs[b], s.maxRw, s.base);
    var moved := vb.(dev := ra.dev);
    StageStores(moved, sb, s.envs[b], s.maxRw, s.base);
    FaultPasses(moved, ra.fault, sb, s.envs[b], s.maxRw, s.base);
    FaultPasses(va, va.fault, sa, s.envs[a], s.maxRw, s.base);
    assert ViewOf(ExecEntry(s, w, (a, sa)), b) == moved.(fault := ra.fault);
  }

  /** The world after two entries, from what each does on its own. */
  function Combined(s: Setting, w: World, a: nat, ra: View, putA: (nat, seq<byte>), b: nat, rb: View, putB: (nat, seq<byte>)): World
    requires putA.0 + |putA.1| <= |w.dev| && putB.0 + |putB.1| <= |w.dev|
  {
    World(w.files[ra.op.fileId := ra.file][rb.op.fileId := rb.file], Put(Put(w.dev, putA.0, putA.1), putB.0, putB.1),
          w.ops[a := ra.op][b := rb.op], ra.fault || rb.fault)
  }

  lemma CombinedCommutes(s: Setting, w: World, a: nat, ra: View, putA: (nat, seq<byte>), b: nat, rb: View, putB: (nat, seq<byte>))
    requires putA.0 + |putA.1| <= |w.dev| && putB.0 + |putB.1| <= |w.dev| && a != b && ra.op.fileId != rb.op.fileId
    requires putA.1 == [] || putB.1 == [] || putA.0 + |putA.1| <= putB.0 || putB.0 + |putB.1| <= putA.0
    ensures Combined(s, w, a, ra, putA, b, rb, putB) == Combined(s, w, b, rb, putB, a, ra, putA)
  {
    PutsCommute(w.dev, putA.0, putA.1, putB.0, putB.1);
    var fa, fb := ra.op.fileId, rb.op.fileId;
    assert w.files[fa := ra.file][fb := rb.file] == w.files[fb := rb.file][fa := ra.file];
    assert w.ops[a := ra.op][b := rb.op] == w.ops[b := rb.op][a := ra.op];
  }

  lemma TwoEntries(s: Setting, w: World, a: nat, sa: Stage, b: nat, sb: Stage)
    requires Known(s, w, a) && Known(s, w, b) && Apart(w, a, b)
    ensures var putA, putB := StagePut(ViewOf(w, a), sa, s.base), StagePut(ViewOf(w, b), sb, s.base);
            && putA.0 + |putA.1| <= |w.dev| && putB.0 + |putB.1| <= |w.dev|
            && ExecEntry(s, ExecEntry(s, w, (a, sa)), (b, sb))
               == Combined(s, w, a, After(s, w, a, sa), putA, b, After(s, w, b, sb), putB)
  {
    SecondUndisturbed(s, w, a, sa, b, sb);
    StageStores(ViewOf(w, a), sa, s.envs[a], s.maxRw, s.base);
    StageStores(ViewOf(w, b), sb, s.envs[b], s.maxRw, s.base);
    StageKeepsBuffer(ViewOf(w, b), sb, s.envs[b], s.maxRw, s.base);
  }

  lemma EntriesCommute(s: Setting, w: World, a: nat, sa: Stage, b: nat, sb: Stage)
    requires Known(s, w, a) && Known(s, w, b) && Apart(w, a, b)
    ensures ExecEntry(s, ExecEntry(s, w, (a, sa)), (b, sb)) == ExecEntry(s, ExecEntry(s, w, (b, sb)), (a, sa))
  {
    TwoEntries(s, w, a, sa, b, sb);
    TwoEntries(s, w, b, sb, a, sa);
    StageKeepsBuffer(ViewOf(w, a), sa, s.envs[a], s.maxRw, s.base);
    StageKeepsBuffer(ViewOf(w, b), sb, s.envs[b], s.maxRw, s.base);
    StageStores(ViewOf(w, a), sa, s.envs[a], s.maxRw, s.base);
    StageStores(ViewOf(w, b), sb, s.envs[b], s.maxRw, s.base);
    CombinedCommutes(s, w, a, After(s, w, a, sa), StagePut(ViewOf(w, a), sa, s.base),
                     b, After(s, w, b, sb), StagePut(ViewOf(w, b), sb, s.base));
  }

  /** Operations keep their file and buffer, and the allocation its size. */
  ghost predicate GoodWorld(s: Setting, w0: World, w: World) {
    && |w.dev| == |w0.dev|
    && forall id :: id in w0.ops ==>
         Known(s, w, id) && w.ops[id].fileId == w0.ops[id].fileId && w.ops[id].buffer == w0.ops[id].buffer
  }

  lemma EntryKeepsGood(s: Setting, w0: World, w: World, e: Entry)
    requires GoodWorld(s, w0, w) && e.0 in w0.ops
    ensures GoodWorld(s, w0, ExecEntry(s, w, e))
  {
    assert Known(s, w, e.0);
    StageKeepsBuffer(ViewOf(w, e.0), e.1, s.envs[e.0], s.maxRw, s.base);
  }

  /** Streams whose operations never share a file or overlap in device memory. */
  ghost predicate StreamsApart(w0: World, streamOf: map<nat, nat>) {
    && streamOf.Keys == w0.ops.Keys
    && forall a, b :: a in w0.ops && b in w0.ops && streamOf[a] != streamOf[b] ==> Apart(w0, a, b)
  }

  ghost function OwnerOf(streamOf: map<nat, nat>): Entry -> nat {
    (e: Entry) => if e.0 in streamOf then streamOf[e.0] else 0
  }

  lemma StreamsIndependent(s: Setting, w0: World, streamOf: map<nat, nat>)
    requires StreamsApart(w0, streamOf)
    ensures Independent(StepOf(s), w => GoodWorld(s, w0, w), (e: Entry) => e.0 in w0.ops, OwnerOf(streamOf))
  {
    var good := (w: World) => GoodWorld(s, w0, w);
    forall w, e: Entry | good(w) && e.0 in w0.ops
      ensures good(StepOf(s)(w, e))
    {
      EntryKeepsGood(s, w0, w, e);
    }
    forall w, e: Entry, e': Entry | good(w) && e.0 in w0.ops && e'.0 in w0.ops && OwnerOf(streamOf)(e) != OwnerOf(streamOf)(e')
      ensures StepOf(s)(StepOf(s)(w, e), e') == StepOf(s)(StepOf(s)(w, e'), e)
    {
      assert Apart(w0, e.0, e'.0);
      assert Known(s, w, e.0) && Known(s, w, e'.0);
      EntriesCommute(s, w, e.0, e.1, e'.0, e'.1);
      assert e == (e.0, e.1) && e' == (e'.0, e'.1);
    }
  }

  /** Every two interleavings of the same stream queues give the same files, memory, results and faults. */
  lemma EveryInterleavingAgrees(s: Setting, w0: World, streamOf: map<nat, nat>, p: seq<Entry>, q: seq<Entry>)
    requires StreamsApart(w0, streamOf) && (forall id :: id in w0.ops ==> Known(s, w0, id))
    requires (forall i :: 0 <= i < |p| ==> p[i].0 in w0.ops) && (forall i :: 0 <= i < |q| ==> q[i].0 in w0.ops)
    requires forall o :: Project(OwnerOf(streamOf), p, o) == Project(OwnerOf(streamOf), q, o)
    ensures Exec(StepOf(s), w0, p) == Exec(StepOf(s), w0, q)
  {
    StreamsIndependent(s, w0, streamOf);
    InterleavingsAgree(StepOf(s), w => GoodWorld(s, w0, w), (e: Entry) => e.0 in w0.ops, OwnerOf(streamOf), w0, p, q);
  }
}
