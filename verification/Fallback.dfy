/** The bounce-buffer engine of the fallback backend (synchronous path). */
module Fallback {
  import opened Memory
  import opened Posix
  import opened Device
  import opened Bits

  datatype IoType = Read | Write

  /** Configuration, constant during a call. maxRw is getMaxRwCount(), at most INT_MAX for every page size. */
  datatype Config = Config(fallback: bool, fastpath: bool, unsupportedFileSystems: bool, maxRw: nat) {
    predicate Valid() { maxRw <= INT_MAX }
  }

  datatype Error = BackendDisabled | InvalidArgument | BadOptionalAccess | NoBackend | SystemError(code: int) | HipError

  datatype Outcome = Done(n: nat) | Threw(error: Error)

  /** hipFileInvalidValue. */
  const INVALID_VALUE: int := 5022

  const DEFAULT_CHUNK_SIZE: nat := 16 * 1024 * 1024

  /** Four byte counters; they only move at level 1 (Basic) and above. */
  class Stats {
    const level: nat
    var fastRead: nat
    var fastWrite: nat
    var fallbackRead: nat
    var fallbackWrite: nat

    constructor (level: nat)
    {
      this.level := level;
      fastRead, fastWrite, fallbackRead, fallbackWrite := 0, 0, 0, 0;
    }

    method AddFallback(kind: IoType, bytes: nat)
      modifies this
      ensures fastRead == old(fastRead) && fastWrite == old(fastWrite)
      ensures fallbackRead == old(fallbackRead) + (if level >= 1 && kind == Read then bytes else 0)
      ensures fallbackWrite == old(fallbackWrite) + (if level >= 1 && kind == Write then bytes else 0)
    {
      if level >= 1 {
        if kind == Read { fallbackRead := fallbackRead + bytes; } else { fallbackWrite := fallbackWrite + bytes; }
      }
    }

    method AddFast(kind: IoType, bytes: nat)
      modifies this
      ensures fallbackRead == old(fallbackRead) && fallbackWrite == old(fallbackWrite)
      ensures fastRead == old(fastRead) + (if level >= 1 && kind == Read then bytes else 0)
      ensures fastWrite == old(fastWrite) + (if level >= 1 && kind == Write then bytes else 0)
    {
      if level >= 1 {
        if kind == Read { fastRead := fastRead + bytes; } else { fastWrite := fastWrite + bytes; }
      }
    }
  }

  function Score(cfg: Config, b: Buffer): int {
    if cfg.fallback && b.memType == DeviceMemory then 0 else -1
  }

  datatype ChunkResult = Chunk(n: nat) | Interrupted | Failed(error: Error)

  function Classify(r: SysResult): ChunkResult {
    match r
    case Moved(n) => Chunk(n)
    case Errno(code) => if code == EINTR then Interrupted else Failed(SystemError(code))
  }

  /** Every error raised is one that a call reported, and the only one: e0 and e1 are the system's record before and
      after, c0 and c1 the number of failed device copies. */
  ghost predicate Blamed(raised: seq<Error>, e0: seq<int>, e1: seq<int>, c0: nat, c1: nat) {
    if raised == [] then e1 == e0 && c1 == c0
    else match raised[0]
      case SystemError(code) => e1 == e0 + [code] && c1 == c0
      case HipError => e1 == e0 && c1 == c0 + 1
      case _ => false
  }

  function Raised(r: Outcome): seq<Error> { if r.Threw? then [r.error] else [] }

  function RaisedIn(r: ChunkResult): seq<Error> { if r.Failed? then [r.error] else [] }

  /** after is before with the first k file bytes from off stored at index at. */
  ghost predicate Copied(before: seq<byte>, after: seq<byte>, at: nat, f: seq<byte>, off: nat, k: nat) {
    k <= Avail(f, off) && at + k <= |before| && after == Put(before, at, Slice(f, off, k))
  }

  lemma CopiedStep(before: seq<byte>, mid: seq<byte>, after: seq<byte>, at: nat, f: seq<byte>, off: nat, k: nat, n: nat)
    requires Copied(before, mid, at, f, off, k) && Copied(mid, after, at + k, f, off + k, n)
    requires k + n <= Avail(f, off)
    ensures Copied(before, after, at, f, off, k + n)
  {
    SliceAppend(f, off, k, n);
    PutAppend(before, at, Slice(f, off, k), Slice(f, off + k, n));
  }

  /** Storing the next n file bytes, received as part, makes a copy of k bytes one of k + n. */
  lemma CopiedGrows(before: seq<byte>, mid: seq<byte>, after: seq<byte>, at: nat, f: seq<byte>, off: nat, k: nat,
                    part: seq<byte>)
    requires Copied(before, mid, at, f, off, k) && |part| <= Avail(f, off + k) && part == Slice(f, off + k, |part|)
    requires at + k + |part| <= |mid| && after == Put(mid, at + k, part)
    ensures Copied(before, after, at, f, off, k + |part|)
  {
    if part == [] {
      PutEmpty(mid, at + k);
    } else {
      CopiedStep(before, mid, after, at, f, off, k, |part|);
    }
  }

  /** One pread into the bounce buffer. */
  method ReadOnce(file: OpenFile, bounce: array<byte>, count: nat, offset: nat) returns (r: ChunkResult)
    requires file.Valid() && count <= bounce.Length && offset <= MAX_HOFF
    modifies file`interrupts, file`errors, bounce
    ensures file.interrupts <= old(file.interrupts)
    ensures r.Interrupted? ==> file.interrupts < old(file.interrupts)
    ensures Blamed(RaisedIn(r), old(file.errors), file.errors, 0, 0)
    ensures r.Chunk? ==>
              && r.n <= Min(count, Avail(file.contents, offset))
              && (r.n == 0 ==> count == 0 || Avail(file.contents, offset) == 0)
              && bounce[..r.n] == Slice(file.contents, offset, r.n)
  {
    ghost var b0 := bounce[..];
    var io := file.Pread(bounce, 0, count, offset);
    r := Classify(io);
    if r.Chunk? {
      PutThenTake(b0, Slice(file.contents, offset, r.n));
      assert bounce[..r.n] == bounce[..][..r.n];
    }
  }

  /** One pass of the loop body for a read: the copy grows by what the pread returned. */
  method ReadChunk(file: OpenFile, gpu: Gpu, bounce: array<byte>, count: nat, dst: size_t,
                   off: nat, done: nat, ghost before: seq<byte>, ghost at: nat)
    returns (r: ChunkResult)
    requires file.Valid() && gpu.Valid() && bounce != gpu.mem
    requires count <= bounce.Length && off + done <= MAX_HOFF
    requires dst == gpu.base + at + done && at + done + count <= gpu.mem.Length
    requires Copied(before, gpu.mem[..], at, file.contents, off, done)
    modifies file`interrupts, file`errors, bounce, gpu.mem, gpu`copyErrors
    ensures file.interrupts <= old(file.interrupts)
    ensures r.Interrupted? ==> file.interrupts < old(file.interrupts)
    ensures Blamed(RaisedIn(r), old(file.errors), file.errors, old(gpu.copyErrors), gpu.copyErrors)
    ensures r.Chunk? ==> r.n <= count && (r.n == 0 ==> count == 0 || done == Avail(file.contents, off))
    ensures Copied(before, gpu.mem[..], at, file.contents, off, if r.Chunk? then done + r.n else done)
  {
    ghost var mid := gpu.mem[..];
    r := ReadOnce(file, bounce, count, off + done);
    assert gpu.mem[..] == mid;
    if !r.Chunk? || r.n == 0 { return; }
    ghost var got := bounce[..r.n];
    var ok := gpu.CopyIn(dst, bounce, r.n);
    if !ok { return Failed(HipError); }
    CopiedGrows(before, mid, gpu.mem[..], at, file.contents, off, done, got);
  }

  /** The write so far: the first `done` bytes of data are in place at off, bytes beyond may already be. */
  ghost predicate Progress(f: seq<byte>, cur: seq<byte>, off: nat, data: seq<byte>, done: nat) {
    PartlyWritten(f, cur, off, data) && HoldsPrefix(cur, off, data, done)
  }

  /** next is cur with part stored at an index, byte by byte. */
  ghost predicate Stored(cur: seq<byte>, next: seq<byte>, at: nat, part: seq<byte>) {
    && |next| == (if part == [] then |cur| else Max(|cur|, at + |part|))
    && forall i :: 0 <= i < |next| ==> next[i] == if at <= i < at + |part| then part[i - at] else ByteAt(cur, i)
  }

  lemma StoredKeepsPartly(f: seq<byte>, cur: seq<byte>, next: seq<byte>, off: nat, data: seq<byte>, done: nat, n: nat)
    requires PartlyWritten(f, cur, off, data) && done + n <= |data|
    requires Stored(cur, next, off + done, data[done..done + n])
    ensures PartlyWritten(f, next, off, data)
  {
    forall i | 0 <= i < |next|
      ensures next[i] == ByteAt(f, i) || (off <= i < off + |data| && next[i] == data[i - off])
    {
      if off + done <= i < off + done + n {
        assert next[i] == data[done..done + n][i - (off + done)];
      } else if i < |cur| {
        assert next[i] == cur[i];
      }
    }
  }

  lemma StoredExtendsPrefix(cur: seq<byte>, next: seq<byte>, off: nat, data: seq<byte>, done: nat, n: nat)
    requires HoldsPrefix(cur, off, data, done) && done + n <= |data|
    requires Stored(cur, next, off + done, data[done..done + n])
    ensures HoldsPrefix(next, off, data, done + n)
  {
    forall i | 0 <= i < done + n
      ensures next[off + i] == data[i]
    {
      if i >= done { assert next[off + i] == data[done..done + n][i - done]; }
    }
  }

  lemma FileWriteIsStored(cur: seq<byte>, at: nat, part: seq<byte>)
    ensures Stored(cur, FileWrite(cur, at, part), at, part)
  {
    FileWriteBytes(cur, at, part);
  }

  lemma SliceOfPrefix(data: seq<byte>, done: nat, count: nat, n: nat)
    requires n <= count && done + count <= |data|
    ensures data[done..done + count][..n] == data[done..done + n]
  {
  }

  lemma ProgressStep(f: seq<byte>, cur: seq<byte>, off: nat, data: seq<byte>, done: nat, count: nat, n: nat)
    requires Progress(f, cur, off, data, done) && n <= count && done + count <= |data|
    ensures Progress(f, FileWrite(cur, off + done, data[done..done + count][..n]), off, data, done + n)
  {
    SliceOfPrefix(data, done, count, n);
    var part := data[done..done + n];
    FileWriteIsStored(cur, off + done, part);
    StoredKeepsPartly(f, cur, FileWrite(cur, off + done, part), off, data, done, n);
    StoredExtendsPrefix(cur, FileWrite(cur, off + done, part), off, data, done, n);
  }

  lemma ProgressWeakens(f: seq<byte>, cur: seq<byte>, off: nat, data: seq<byte>, done: nat, n: nat)
    requires Progress(f, cur, off, data, done + n)
    ensures Progress(f, cur, off, data, done)
  {
  }

  /** Stage a chunk through the bounce buffer and write it. */
  method WriteOnce(file: OpenFile, gpu: Gpu, bounce: array<byte>, count: nat, src: size_t, offset: nat)
    returns (r: ChunkResult)
    requires file.Valid() && gpu.Valid() && bounce != gpu.mem
    requires count <= bounce.Length && offset <= MAX_HOFF
    requires gpu.base <= src && src + count <= gpu.base + gpu.mem.Length
    modifies file, bounce, gpu`copyErrors
    ensures file.Valid()
    ensures file.interrupts <= old(file.interrupts) && file.stalls <= old(file.stalls)
    ensures r.Interrupted? ==> file.interrupts < old(file.interrupts)
    ensures Blamed(RaisedIn(r), old(file.errors), file.errors, old(gpu.copyErrors), gpu.copyErrors)
    ensures r == Chunk(0) && count > 0 ==> file.stalls < old(file.stalls)
    ensures !r.Chunk? ==> file.contents == old(file.contents)
    ensures r.Chunk? ==>
              && r.n <= count
              && file.contents ==
                 FileWrite(old(file.contents), offset, gpu.mem[src - gpu.base..src - gpu.base + count][..r.n])
  {
    var ok := gpu.CopyOut(bounce, src, count);
    if !ok { return Failed(HipError); }
    ghost var staged := gpu.mem[src - gpu.base..src - gpu.base + count];
    var io := file.Pwrite(bounce, 0, count, offset);
    r := Classify(io);
    if r.Chunk? {
      assert bounce[0..0 + r.n] == staged[..r.n] by { assert bounce[0..0 + r.n] == bounce[..count][..r.n]; }
    }
  }

  /** One pass of the loop body for a write. An EINTR from fdatasync hides bytes that did reach the file. */
  method WriteChunk(file: OpenFile, gpu: Gpu, bounce: array<byte>, count: nat, src: size_t,
                    off: nat, done: nat, ghost f: seq<byte>, ghost data: seq<byte>)
    returns (r: ChunkResult)
    requires file.Valid() && gpu.Valid() && bounce != gpu.mem
    requires count <= bounce.Length && off + done <= MAX_HOFF
    requires gpu.base <= src && src + count <= gpu.base + gpu.mem.Length
    requires done + count <= |data| && gpu.mem[src - gpu.base..src - gpu.base + count] == data[done..done + count]
    requires Progress(f, file.contents, off, data, done)
    modifies file, bounce, gpu`copyErrors
    ensures file.Valid()
    ensures file.interrupts <= old(file.interrupts) && file.stalls <= old(file.stalls)
    ensures r.Interrupted? ==> file.interrupts < old(file.interrupts)
    ensures Blamed(RaisedIn(r), old(file.errors), file.errors, old(gpu.copyErrors), gpu.copyErrors)
    ensures r == Chunk(0) && count > 0 ==> file.stalls < old(file.stalls)
    ensures r.Chunk? ==> r.n <= count && !file.dirty
    ensures Progress(f, file.contents, off, data, if r.Chunk? then done + r.n else done)
  {
    ghost var cur := file.contents;
    r := WriteOnce(file, gpu, bounce, count, src, off + done);
    if r.Chunk? {
      assert Progress(f, file.contents, off, data, done + r.n) by {
        ProgressStep(f, cur, off, data, done, count, r.n);
      }
      ProgressWeakens(f, file.contents, off, data, done, r.n);
      var sync := file.Fdatasync();
      if sync.Errno? { r := Classify(sync); }
    }
  }

  /** The chunk loop for reads. Any chunk size, any split into short reads and any finitely many EINTRs
      give one and the same copy; an error leaves a prefix of it. */
  method ReadLoop(file: OpenFile, gpu: Gpu, bounce: array<byte>, addr: size_t, size: nat, fileOffset: nat)
    returns (r: Outcome, ghost k: nat)
    requires file.Valid() && gpu.Valid() && bounce != gpu.mem && bounce.Length > 0
    requires fileOffset <= MAX_HOFF && size <= INT_MAX
    requires gpu.base <= addr && addr + size <= gpu.base + gpu.mem.Length
    modifies file`interrupts, file`errors, bounce, gpu.mem, gpu`copyErrors
    ensures Blamed(Raised(r), old(file.errors), file.errors, old(gpu.copyErrors), gpu.copyErrors)
    ensures k <= Min(size, Avail(file.contents, fileOffset))
    ensures Copied(old(gpu.mem[..]), gpu.mem[..], addr - gpu.base, file.contents, fileOffset, k)
    ensures r.Done? ==> r.n == k == Min(size, Avail(file.contents, fileOffset))
  {
    ghost var f, at := file.contents, addr - gpu.base;
    ghost var before := gpu.mem[..];
    var total: hoff := 0;
    var first := true;
    PutEmpty(before, at);
    while first || total < size
      invariant file.Valid() && file.errors == old(file.errors) && gpu.copyErrors == old(gpu.copyErrors)
      invariant 0 <= total <= Min(size, Avail(f, fileOffset))
      invariant Copied(before, gpu.mem[..], at, f, fileOffset, total)
      decreases size - total, file.interrupts, first
    {
      first := false;
      var count: size_t := Min(bounce.Length, size - total);
      var offset: hoff := fileOffset + total;
      var dst: size_t := addr + total;
      var chunk := ReadChunk(file, gpu, bounce, count, dst, fileOffset, total, before, at);
      match chunk
      case Interrupted => continue;
      case Failed(e) => return Threw(e), total;
      case Chunk(n) =>
        total := total + n;
        if n == 0 { break; }
    }
    return Done(total), total;
  }

  lemma SliceOfSlice(m: seq<byte>, at: nat, size: nat, a: nat, n: nat)
    requires at + size <= |m| && a + n <= size
    ensures m[at..at + size][a..a + n] == m[at + a..at + a + n]
  {
    var l, r := m[at..at + size][a..a + n], m[at + a..at + a + n];
    forall i | 0 <= i < n
      ensures l[i] == r[i]
    {
      assert l[i] == m[at..at + size][a + i];
    }
  }

  /** The chunk loop for writes. Every byte of the target range is old (zero in a gap) or the matching device
      byte, everything else is preserved, and the returned prefix is exact; it is short only after a stall. */
  method WriteLoop(file: OpenFile, gpu: Gpu, bounce: array<byte>, addr: size_t, size: nat, fileOffset: nat)
    returns (r: Outcome)
    requires file.Valid() && gpu.Valid() && bounce != gpu.mem && bounce.Length > 0
    requires fileOffset <= MAX_HOFF && size <= INT_MAX
    requires gpu.base <= addr && addr + size <= gpu.base + gpu.mem.Length
    modifies file, bounce, gpu`copyErrors
    ensures file.Valid() && file.stalls <= old(file.stalls)
    ensures Blamed(Raised(r), old(file.errors), file.errors, old(gpu.copyErrors), gpu.copyErrors)
    ensures r.Done? && size > 0 ==> !file.dirty
    ensures var data := gpu.mem[addr - gpu.base..addr - gpu.base + size];
            Progress(old(file.contents), file.contents, fileOffset, data, if r.Done? then r.n else 0)
    ensures r.Done? && r.n < size ==> file.stalls < old(file.stalls)
  {
    ghost var f, at := file.contents, addr - gpu.base;
    ghost var mem := gpu.mem[..];
    ghost var data := mem[at..at + size];
    var total: hoff := 0;
    var first := true;
    while first || total < size
      invariant file.Valid() && 0 <= total <= size && file.stalls <= old(file.stalls) && gpu.mem[..] == mem
      invariant file.errors == old(file.errors) && gpu.copyErrors == old(gpu.copyErrors)
      invariant (first ==> total == 0) && (total > 0 && total == size ==> !file.dirty)
      invariant Progress(f, file.contents, fileOffset, data, total)
      decreases size - total, file.interrupts, first
    {
      first := false;
      var count: size_t := Min(bounce.Length, size - total);
      var offset: hoff := fileOffset + total;
      var src: size_t := addr + total;
      SliceOfSlice(mem, at, size, total, count);
      assert gpu.mem[src - gpu.base..src - gpu.base + count] == mem[at + total..at + total + count];
      var chunk := WriteChunk(file, gpu, bounce, count, src, fileOffset, total, f, data);
      match chunk
      case Interrupted => continue;
      case Failed(e) => return Threw(e);
      case Chunk(n) =>
        total := total + n;
        if n == 0 { break; }
    }
    return Done(total);
  }

  function Clamp(cfg: Config, request: size_t): size_t
    requires cfg.Valid()
  {
    Min(request, cfg.maxRw)
  }

  /** The request passes the checks made before anything moves. */
  predicate Admitted(cfg: Config, b: Buffer, request: size_t, fileOffset: hoff, bufferOffset: hoff)
    requires cfg.Valid()
  {
    cfg.fallback && ParamsValid(b, Clamp(cfg, request), fileOffset, bufferOffset)
  }

  /** Index in the allocation of a buffer offset. */
  function At(gpu: Gpu, b: Buffer, bufferOffset: hoff): int { b.addr - gpu.base + bufferOffset }

  /** The whole effect of a transfer of at most size bytes that put k of them in place. A read changes the device
      by exactly those k bytes; a write may have put later bytes of the same data in place as well. */
  ghost predicate Effect(kind: IoType, m0: seq<byte>, m1: seq<byte>, at: int, size: nat,
                         f0: seq<byte>, f1: seq<byte>, off: int, k: nat)
  {
    && 0 <= at && at + size <= |m0| && 0 <= off && k <= size
    && match kind
       case Read => f1 == f0 && Copied(m0, m1, at, f0, off, k)
       case Write => m1 == m0 && Progress(f0, f1, off, m0[at..at + size], k)
  }

  /** The loop of either direction, over a bounce buffer of any positive size. */
  method ChunkLoop(kind: IoType, file: OpenFile, gpu: Gpu, bounce: array<byte>, addr: size_t, size: nat, fileOffset: nat)
    returns (r: Outcome, ghost k: nat)
    requires file.Valid() && gpu.Valid() && bounce != gpu.mem && bounce.Length > 0
    requires fileOffset <= MAX_HOFF && size <= INT_MAX
    requires gpu.base <= addr && addr + size <= gpu.base + gpu.mem.Length
    modifies file, bounce, gpu.mem, gpu`copyErrors
    ensures file.Valid() && file.stalls <= old(file.stalls)
    ensures Blamed(Raised(r), old(file.errors), file.errors, old(gpu.copyErrors), gpu.copyErrors)
    ensures r.Done? && kind == Write && size > 0 ==> !file.dirty
    ensures Effect(kind, old(gpu.mem[..]), gpu.mem[..], addr - gpu.base, size,
                   old(file.contents), file.contents, fileOffset, k)
    ensures r.Done? ==>
              && r.n == k
              && (kind == Read ==> k == Min(size, Avail(file.contents, fileOffset)))
              && (kind == Write && k < size ==> file.stalls < old(file.stalls))
  {
    if kind == Read {
      r, k := ReadLoop(file, gpu, bounce, addr, size, fileOffset);
    } else {
      r := WriteLoop(file, gpu, bounce, addr, size, fileOffset);
      k := if r.Done? then r.n else 0;
    }
  }

  /** Fallback::_io_impl. The result does not mention the chunk size: any positive one gives the same answer (a zero one
      is refused by mmap). memory: whether the bounce buffer can be mapped. k counts the bytes in place, also when the
      transfer then failed. The call raises an error exactly when a check, the mapping or a system or HIP call fails,
      and then that one; interruptions raise none. */
  method IoImpl(cfg: Config, kind: IoType, file: OpenFile, gpu: Gpu, b: Buffer, request: size_t, fileOffset: hoff,
                bufferOffset: hoff, chunkSize: size_t, memory: bool, stats: Stats) returns (r: Outcome, ghost k: nat)
    requires cfg.Valid() && file.Valid() && gpu.Valid() && gpu.Owns(b)
    modifies file, gpu.mem, gpu`copyErrors, stats
    ensures file.Valid() && file.stalls <= old(file.stalls)
    ensures r == Threw(BackendDisabled) <==> !cfg.fallback
    ensures r == Threw(InvalidArgument) <==>
              cfg.fallback && !ParamsValid(b, Clamp(cfg, request), fileOffset, bufferOffset)
    ensures r.Done? ==> chunkSize > 0 && memory
    ensures !Admitted(cfg, b, request, fileOffset, bufferOffset) ==>
              r.Threw? && file.contents == old(file.contents) && gpu.mem[..] == old(gpu.mem[..])
              && file.errors == old(file.errors) && gpu.copyErrors == old(gpu.copyErrors)
    ensures Admitted(cfg, b, request, fileOffset, bufferOffset) ==>
              if chunkSize > 0 && memory then
                Blamed(Raised(r), old(file.errors), file.errors, old(gpu.copyErrors), gpu.copyErrors)
              else
                && r == Threw(SystemError(if chunkSize == 0 then EINVAL else ENOMEM))
                && file.errors == old(file.errors) && gpu.copyErrors == old(gpu.copyErrors)
    ensures Admitted(cfg, b, request, fileOffset, bufferOffset) ==>
              Effect(kind, old(gpu.mem[..]), gpu.mem[..], At(gpu, b, bufferOffset), Clamp(cfg, request),
                     old(file.contents), file.contents, fileOffset, k)
    ensures r.Done? ==>
              && r.n == k
              && (kind == Read ==> k == Min(Min(request, cfg.maxRw), Avail(file.contents, fileOffset)))
              && (kind == Write && k < Min(request, cfg.maxRw) ==> file.stalls < old(file.stalls))
              && (kind == Write && Min(request, cfg.maxRw) > 0 ==> !file.dirty)
    ensures stats.fastRead == old(stats.fastRead) && stats.fastWrite == old(stats.fastWrite)
    ensures stats.fallbackRead ==
            old(stats.fallbackRead) + (if r.Done? && stats.level >= 1 && kind == Read then r.n else 0)
    ensures stats.fallbackWrite ==
            old(stats.fallbackWrite) + (if r.Done? && stats.level >= 1 && kind == Write then r.n else 0)
  {
    k := 0;
    if !cfg.fallback { return Threw(BackendDisabled), 0; }
    var size: size_t := Clamp(cfg, request);
    if !ParamsValid(b, size, fileOffset, bufferOffset) { return Threw(InvalidArgument), 0; }
    var addr: size_t := b.addr + bufferOffset;
    PutEmpty(gpu.mem[..], addr - gpu.base);
    var bounce, code := Mmap(chunkSize, memory);
    if bounce == null { return Threw(SystemError(code)), 0; }
    r, k := ChunkLoop(kind, file, gpu, bounce, addr, size, fileOffset);
    if r.Done? { stats.AddFallback(kind, r.n); }
  }
}
