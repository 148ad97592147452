/** Backend selection, the direct (fast) path, and its retry through the fallback. */
module Dispatch {
  import opened Memory
  import opened Posix
  import opened Device
  import opened Bits
  import opened Fallback

  /** What a registered File knows about its descriptor and file system. */
  datatype FileInfo = FileInfo(unbuffered: bool, regular: bool, blockDevice: bool, ext4Ordered: bool, xfs: bool,
                               dioOffsetAlign: nat, dioMemAlign: nat)

  /** align && !(x & (align - 1)), on the 64-bit pattern of x. */
  predicate MaskAligned(x: int, align: nat) {
    align != 0 && And(Pattern(x), align - 1) == 0
  }

  function FastScore(cfg: Config, info: FileInfo, b: Buffer, size: size_t, fileOffset: hoff, bufferOffset: hoff): int {
    if && cfg.fastpath
       && info.unbuffered
       && b.memType == DeviceMemory
       && 0 <= fileOffset
       && 0 <= bufferOffset
       && (info.blockDevice || (info.regular && (cfg.unsupportedFileSystems || info.ext4Ordered || info.xfs)))
       && MaskAligned(fileOffset, info.dioOffsetAlign)
       && MaskAligned(size, info.dioOffsetAlign)
       && MaskAligned(b.addr + bufferOffset, info.dioMemAlign)
    then 100 else -1
  }

  /** Zero stands for "direct I/O is not supported". */
  predicate AlignmentOk(align: nat) { align == 0 || (IsPowerOfTwo(align) && align < WORD) }

  predicate MultipleOf(x: nat, align: nat) { align != 0 && x % align == 0 }

  lemma MaskAlignedIsDivisibility(x: nat, align: nat)
    requires AlignmentOk(align)
    ensures MaskAligned(x, align) <==> MultipleOf(x, align)
  {
    if align == 0 { return; }
    var times := AlignmentDividesWord(align);
    MaskTestIsDivisibility(Pattern(x), align);
    ModOfMod(x, align, times);
  }

  lemma ModOfMod(x: nat, align: nat, times: nat)
    requires align > 0 && times > 0
    ensures times * align > 0
    ensures x % (times * align) % align == x % align
  {
    var m := times * align;
    assert m > 0 by { MulFar(times, align); }
    var q, r := x / m, x % m;
    var s, t := r / align, r % align;
    assert x == q * m + r && r == s * align + t;
    Regroup(q, times, align, s);
    DivModUnique(x, align, q * times + s, t);
  }

  lemma Regroup(q: nat, times: nat, align: nat, s: nat)
    ensures q * (times * align) + s * align == (q * times + s) * align
  {
  }

  /** With power-of-two alignments, or none, the fast path takes a request exactly when it is enabled, the file and buffer
      qualify, and offset, size and address are multiples; and the size it then passes on is still a multiple
      whenever the alignment divides the page size. */
  lemma FastPathRequestsAreAligned(cfg: Config, info: FileInfo, b: Buffer, size: size_t, fo: hoff, bo: hoff,
                                   pageSize: nat)
    requires IsPowerOfTwo(pageSize) && pageSize < WORD && cfg.maxRw == MaxRwCount(pageSize)
    requires AlignmentOk(info.dioOffsetAlign) && AlignmentOk(info.dioMemAlign)
    ensures FastScore(cfg, info, b, size, fo, bo) == 100 <==>
            && cfg.fastpath && info.unbuffered && b.memType == DeviceMemory && 0 <= fo && 0 <= bo
            && (info.blockDevice || (info.regular && (cfg.unsupportedFileSystems || info.ext4Ordered || info.xfs)))
            && MultipleOf(fo, info.dioOffsetAlign) && MultipleOf(size, info.dioOffsetAlign)
            && MultipleOf(b.addr + bo, info.dioMemAlign)
    ensures FastScore(cfg, info, b, size, fo, bo) == 100 && MultipleOf(pageSize, info.dioOffsetAlign) ==>
            MultipleOf(Clamp(cfg, size), info.dioOffsetAlign)
  {
    if 0 <= fo && 0 <= bo {
      MaskAlignedIsDivisibility(fo, info.dioOffsetAlign);
      MaskAlignedIsDivisibility(size, info.dioOffsetAlign);
      MaskAlignedIsDivisibility(b.addr + bo, info.dioMemAlign);
    }
    if MultipleOf(size, info.dioOffsetAlign) && MultipleOf(pageSize, info.dioOffsetAlign) {
      ClampKeepsAlignment(size, info.dioOffsetAlign, pageSize);
    }
  }

  /** hipFileIo's loop: the first backend of maximal score, none when every score is negative. */
  method SelectBackend(scores: seq<int>) returns (chosen: int)
    ensures -1 <= chosen < |scores|
    ensures chosen == -1 <==> forall i :: 0 <= i < |scores| ==> scores[i] < 0
    ensures chosen >= 0 ==>
              && scores[chosen] >= 0
              && (forall i :: 0 <= i < |scores| ==> scores[i] <= scores[chosen])
              && (forall i :: 0 <= i < chosen ==> scores[i] < scores[chosen])
  {
    var score := -1;
    chosen := -1;
    for i := 0 to |scores|
      invariant -1 <= chosen < i
      invariant chosen == -1 ==> score == -1
      invariant chosen >= 0 ==> score == scores[chosen] >= 0
      invariant forall j :: 0 <= j < i ==> scores[j] <= score
      invariant forall j :: 0 <= j < chosen ==> scores[j] < score
    {
      if score < scores[i] {
        score := scores[i];
        chosen := i;
      }
    }
  }

  /** m1 is m0 after a read of n bytes at off through the `size` bytes at `at`: the prefix is the file's,
      and only the region may otherwise differ. */
  ghost predicate ReadInto(m0: seq<byte>, m1: seq<byte>, at: int, size: nat, f: seq<byte>, off: int, n: nat) {
    && 0 <= at && at + size <= |m0| == |m1| && 0 <= off
    && SameOutside(m0, m1, at, size)
    && n <= Min(size, Avail(f, off))
    && m1[at..at + n] == Slice(f, off, n)
  }

  /** f1 is f0 after a write of data at off that reports n bytes. */
  ghost predicate WroteFrom(f0: seq<byte>, f1: seq<byte>, off: int, data: seq<byte>, n: nat) {
    0 <= off && SameOutside(f0, f1, off, |data|) && HoldsPrefix(f1, off, data, n)
  }

  function Raise(e: DirectError): Error {
    match e
    case DirectSystem(code) => SystemError(code)
    case DirectHip => HipError
  }

  /** A direct call was made, and its failure, if any, is the one raised. */
  ghost predicate DirectAnswer(r: Outcome, e0: seq<DirectError>, e1: seq<DirectError>) {
    if r.Done? then e1 == e0 else |e1| == |e0| + 1 && e1[..|e0|] == e0 && r.error == Raise(e1[|e0|])
  }

  /** HIP's direct read. When it fails, the target region may hold anything. */
  method AmdFileRead(file: OpenFile, gpu: Gpu, addr: size_t, size: nat, off: nat) returns (r: Outcome)
    requires file.Valid() && gpu.Valid() && gpu.base <= addr && addr + size <= gpu.base + gpu.mem.Length
    requires off <= MAX_HOFF
    modifies gpu.mem, gpu`directCalls, gpu`directErrors
    ensures gpu.directCalls == old(gpu.directCalls) + 1 && DirectAnswer(r, old(gpu.directErrors), gpu.directErrors)
    ensures ReadInto(old(gpu.mem[..]), gpu.mem[..], addr - gpu.base, size, file.contents, off,
                     if r.Done? then r.n else 0)
    ensures r == Done(0) ==> size == 0 || Avail(file.contents, off) == 0
  {
    var at := addr - gpu.base;
    gpu.directCalls := gpu.directCalls + 1;
    var fails: bool := *;
    if fails {
      var e: DirectError := *;
      var junk: byte := *;
      forall i | 0 <= i < size { gpu.mem[at + i] := junk; }
      gpu.directErrors := gpu.directErrors + [e];
      return Threw(Raise(e));
    }
    var most := Min(size, Avail(file.contents, off));
    var n: nat :| n <= most && (most > 0 ==> n > 0);
    forall i | 0 <= i < n { gpu.mem[at + i] := file.contents[off + i]; }
    return Done(n);
  }

  /** HIP's direct write. When it fails, the target range may hold anything. */
  method AmdFileWrite(file: OpenFile, gpu: Gpu, addr: size_t, size: nat, off: nat) returns (r: Outcome)
    requires file.Valid() && gpu.Valid() && gpu.base <= addr && addr + size <= gpu.base + gpu.mem.Length
    requires off <= MAX_HOFF
    modifies file`contents, file`stalls, gpu`directCalls, gpu`directErrors
    ensures file.Valid() && file.stalls <= old(file.stalls)
    ensures gpu.directCalls == old(gpu.directCalls) + 1 && DirectAnswer(r, old(gpu.directErrors), gpu.directErrors)
    ensures WroteFrom(old(file.contents), file.contents, off, gpu.mem[addr - gpu.base..addr - gpu.base + size],
                      if r.Done? then r.n else 0)
    ensures r == Done(0) && size > 0 ==> file.stalls < old(file.stalls)
  {
    var data := gpu.mem[addr - gpu.base..addr - gpu.base + size];
    gpu.directCalls := gpu.directCalls + 1;
    var fails, stalled: bool := *, *;
    if stalled && file.stalls > 0 {
      file.stalls := file.stalls - 1;
      return Done(0);
    }
    var most := Min(size, MAX_HOFF - off);
    if fails || (most == 0 && size > 0) {
      var e: DirectError := *;
      var junk: byte := *;
      FileWriteBytes(file.contents, off, seq(most, i => junk));
      file.contents := FileWrite(file.contents, off, seq(most, i => junk));
      gpu.directErrors := gpu.directErrors + [e];
      return Threw(Raise(e));
    }
    var n: nat :| n <= most && (most > 0 ==> n > 0);
    FileWriteBytes(file.contents, off, data[..n]);
    file.contents := FileWrite(file.contents, off, data[..n]);
    return Done(n);
  }

  predicate FallbackEligible(e: Error) {
    e == SystemError(ENODEV) || e == SystemError(EREMOTEIO)
  }

  /** A request whose parameters the fast path accepts and whose buffer it can reach. */
  predicate FastAdmitted(cfg: Config, info: FileInfo, b: Buffer, request: size_t, fo: hoff, bo: hoff) {
    cfg.fastpath && info.unbuffered && ParamsValid(b, request, fo, bo)
  }

  /** Fastpath::_io_impl for an admitted request (size already clamped), with its statistics. */
  method FastTransfer(kind: IoType, file: OpenFile, gpu: Gpu, addr: size_t, size: nat, off: nat, stats: Stats)
    returns (r: Outcome)
    requires file.Valid() && gpu.Valid() && gpu.base <= addr && addr + size <= gpu.base + gpu.mem.Length
    requires off <= MAX_HOFF
    modifies file`contents, file`stalls, gpu.mem, gpu`directCalls, gpu`directErrors, stats
    ensures file.Valid() && file.stalls <= old(file.stalls)
    ensures DirectAnswer(r, old(gpu.directErrors), gpu.directErrors)
    ensures gpu.directCalls <= old(gpu.directCalls) + 1 && (r.Done? ==> gpu.directCalls == old(gpu.directCalls) + 1)
    ensures Transferred(kind, old(gpu.mem[..]), gpu.mem[..], addr - gpu.base, size,
                        old(file.contents), file.contents, off, if r.Done? then r.n else 0)
    ensures r == Done(0) ==> ZeroExplained(kind, size, file.contents, off, file.stalls, old(file.stalls))
    ensures Counted(stats.fallbackRead, stats.fallbackWrite, old(stats.fallbackRead), old(stats.fallbackWrite), kind, 0)
    ensures Counted(stats.fastRead, stats.fastWrite, old(stats.fastRead), old(stats.fastWrite), kind,
                    if r.Done? && stats.level >= 1 then r.n else 0)
  {
    var inited: bool := *;
    if !inited {
      gpu.directErrors := gpu.directErrors + [DirectHip];
      r := Threw(HipError);
      assert gpu.mem[..][addr - gpu.base..addr - gpu.base + 0] == [];
      return;
    }
    if kind == Read {
      r := AmdFileRead(file, gpu, addr, size, off);
    } else {
      r := AmdFileWrite(file, gpu, addr, size, off);
    }
    if r.Done? { stats.AddFast(kind, r.n); }
  }

  /** The pair of counters grew by n on the side of `kind` and nowhere else. */
  ghost predicate Counted(read: nat, write: nat, read0: nat, write0: nat, kind: IoType, n: nat) {
    read == read0 + (if kind == Read then n else 0) && write == write0 + (if kind == Write then n else 0)
  }

  /** What both directions promise of a transfer that started from memory m0 and file f0. */
  ghost predicate Transferred(kind: IoType, m0: seq<byte>, m1: seq<byte>, at: int, size: nat,
                              f0: seq<byte>, f1: seq<byte>, off: int, n: nat)
  {
    match kind
    case Read => f1 == f0 && ReadInto(m0, m1, at, size, f1, off, n)
    case Write => m1 == m0 && 0 <= at && at + size <= |m0| && WroteFrom(f0, f1, off, m0[at..at + size], n)
  }

  /** Nothing moved although something was asked for: end of file, or a write that stalled. */
  ghost predicate ZeroExplained(kind: IoType, size: nat, f: seq<byte>, off: nat, stalls: nat, stalls0: nat) {
    size == 0 || (kind == Read && Avail(f, off) == 0) || (kind == Write && stalls < stalls0)
  }

  /** Doing nothing is a transfer of no bytes. */
  lemma NothingTransferred(kind: IoType, m: seq<byte>, at: int, size: nat, f: seq<byte>, off: int)
    requires 0 <= at && at + size <= |m| && 0 <= off
    ensures Transferred(kind, m, m, at, size, f, f, off, 0)
  {
    assert m[at..at + 0] == Slice(f, off, 0);
  }

  /** A fallback transfer after a failed attempt is a transfer since before the attempt: inside the region only
      the prefix is promised, and that prefix does not depend on what the attempt left. */
  lemma RetryComposes(kind: IoType, m0: seq<byte>, m1: seq<byte>, m2: seq<byte>, at: int, size: nat,
                      f0: seq<byte>, f1: seq<byte>, f2: seq<byte>, off: int, k: nat)
    requires Transferred(kind, m0, m1, at, size, f0, f1, off, 0)
    requires Effect(kind, m1, m2, at, size, f1, f2, off, k)
    ensures Transferred(kind, m0, m2, at, size, f0, f2, off, k)
    ensures Transferred(kind, m0, m2, at, size, f0, f2, off, 0)
  {
    if kind == Read {
      assert m2[at..at + k] == Slice(f2, off, k);
    }
  }

  /** How an enabled fallback answers: invalid parameters and a failed mapping have their errors; otherwise the answer is
      an error exactly when a call failed, and then that one, and a read that succeeds returns all there is. */
  ghost predicate FallbackAnswer(kind: IoType, valid: bool, memory: bool, size: nat, f: seq<byte>, off: int, r: Outcome,
                                 e0: seq<int>, e1: seq<int>, c0: nat, c1: nat)
  {
    if !valid then r == Threw(InvalidArgument) && e1 == e0 && c1 == c0
    else if !memory then r == Threw(SystemError(ENOMEM)) && e1 == e0 && c1 == c0
    else Blamed(Raised(r), e0, e1, c0, c1) && (r.Done? && kind == Read && off >= 0 ==> r.n == Min(size, Avail(f, off)))
  }

  /** The fallback's io, seen from before an attempt that failed (or from now, when there was none). */
  method ThroughFallback(cfg: Config, kind: IoType, file: OpenFile, gpu: Gpu, b: Buffer, request: size_t,
                         fileOffset: hoff, bufferOffset: hoff, memory: bool, stats: Stats, ghost m0: seq<byte>,
                         ghost f0: seq<byte>)
    returns (r: Outcome)
    requires cfg.Valid() && file.Valid() && gpu.Valid() && gpu.Owns(b)
    requires Admitted(cfg, b, request, fileOffset, bufferOffset) ==>
               Transferred(kind, m0, gpu.mem[..], At(gpu, b, bufferOffset), Clamp(cfg, request),
                           f0, file.contents, fileOffset, 0)
    modifies file, gpu.mem, gpu`copyErrors, stats
    ensures file.Valid() && file.stalls <= old(file.stalls)
    ensures !Admitted(cfg, b, request, fileOffset, bufferOffset) ==>
              r.Threw? && file.contents == old(file.contents) && gpu.mem[..] == old(gpu.mem[..])
    ensures !cfg.fallback ==> r == Threw(BackendDisabled)
    ensures cfg.fallback ==>
              FallbackAnswer(kind, ParamsValid(b, Clamp(cfg, request), fileOffset, bufferOffset), memory,
                             Clamp(cfg, request), file.contents, fileOffset, r,
                             old(file.errors), file.errors, old(gpu.copyErrors), gpu.copyErrors)
    ensures Admitted(cfg, b, request, fileOffset, bufferOffset) ==>
              && (r.Threw? ==> r.error != InvalidArgument && r.error != BackendDisabled)
              && Transferred(kind, m0, gpu.mem[..], At(gpu, b, bufferOffset), Clamp(cfg, request),
                             f0, file.contents, fileOffset, if r.Done? then r.n else 0)
    ensures r == Done(0) ==>
              0 <= fileOffset
              && ZeroExplained(kind, Clamp(cfg, request), file.contents, fileOffset, file.stalls, old(file.stalls))
    ensures stats.fastRead == old(stats.fastRead) && stats.fastWrite == old(stats.fastWrite)
    ensures Counted(stats.fallbackRead, stats.fallbackWrite, old(stats.fallbackRead), old(stats.fallbackWrite), kind,
                    if r.Done? && stats.level >= 1 then r.n else 0)
  {
    ghost var m1, f1 := gpu.mem[..], file.contents;
    ghost var k;
    r, k := Fallback.IoImpl(cfg, kind, file, gpu, b, request, fileOffset, bufferOffset, DEFAULT_CHUNK_SIZE, memory, stats);
    if Admitted(cfg, b, request, fileOffset, bufferOffset) {
      RetryComposes(kind, m0, m1, gpu.mem[..], At(gpu, b, bufferOffset), Clamp(cfg, request),
                    f0, f1, file.contents, fileOffset, k);
    }
  }

  /** BackendWithFallback::io of the fast path with the fallback registered behind it. An admitted request that
      fails with ENODEV or EREMOTEIO is served by an enabled fallback, which cannot reject its parameters; the
      returned prefix is right whatever the failed attempt left behind; one counter grows, by the result.
      attempt is the outcome of the fast path itself. */
  method RetryIo(cfg: Config, kind: IoType, file: OpenFile, info: FileInfo, gpu: Gpu, b: Buffer, request: size_t,
                 fileOffset: hoff, bufferOffset: hoff, memory: bool, stats: Stats)
    returns (r: Outcome, ghost attempt: Outcome, ghost retried: bool)
    requires cfg.Valid() && file.Valid() && gpu.Valid() && gpu.Owns(b)
    modifies file, gpu, gpu.mem, stats
    ensures file.Valid() && file.stalls <= old(file.stalls)
    ensures !FastAdmitted(cfg, info, b, request, fileOffset, bufferOffset) ==>
              r.Threw? && !retried && file.contents == old(file.contents) && gpu.mem[..] == old(gpu.mem[..])
    ensures FastAdmitted(cfg, info, b, request, fileOffset, bufferOffset) ==>
              && (r.Threw? ==> r.error != InvalidArgument && r.error != BackendDisabled)
              && Transferred(kind, old(gpu.mem[..]), gpu.mem[..], At(gpu, b, bufferOffset), Clamp(cfg, request),
                             old(file.contents), file.contents, fileOffset, if r.Done? then r.n else 0)
              && (r == Done(0) ==>
                    ZeroExplained(kind, Clamp(cfg, request), file.contents, fileOffset, file.stalls, old(file.stalls)))
    ensures retried <==>
            && (attempt == Threw(SystemError(ENODEV)) || attempt == Threw(SystemError(EREMOTEIO)))
            && cfg.fallback && b.memType == DeviceMemory
    ensures !retried ==> r == attempt && file.errors == old(file.errors) && gpu.copyErrors == old(gpu.copyErrors)
    ensures retried ==>
              FallbackAnswer(kind, true, memory, Clamp(cfg, request), file.contents, fileOffset, r,
                             old(file.errors), file.errors, old(gpu.copyErrors), gpu.copyErrors)
    ensures FastAdmitted(cfg, info, b, request, fileOffset, bufferOffset) ==>
              DirectAnswer(attempt, old(gpu.directErrors), gpu.directErrors)
    ensures !FastAdmitted(cfg, info, b, request, fileOffset, bufferOffset) ==>
              && gpu.directErrors == old(gpu.directErrors) && gpu.directCalls == old(gpu.directCalls)
              && r == Threw(if !cfg.fastpath then BackendDisabled else if !info.unbuffered then BadOptionalAccess
                            else InvalidArgument)
    ensures attempt.Done? ==> gpu.directCalls == old(gpu.directCalls) + 1
    ensures Counted(stats.fastRead, stats.fastWrite, old(stats.fastRead), old(stats.fastWrite), kind,
                    if r.Done? && stats.level >= 1 && !retried then r.n else 0)
    ensures Counted(stats.fallbackRead, stats.fallbackWrite, old(stats.fallbackRead), old(stats.fallbackWrite), kind,
                    if r.Done? && stats.level >= 1 && retried then r.n else 0)
  {
    retried := false;
    if !cfg.fastpath { return Threw(BackendDisabled), Threw(BackendDisabled), false; }
    if !info.unbuffered { return Threw(BadOptionalAccess), Threw(BadOptionalAccess), false; }
    if !ParamsValid(b, request, fileOffset, bufferOffset) {
      return Threw(InvalidArgument), Threw(InvalidArgument), false;
    }
    var size := Clamp(cfg, request);
    ParamsValidShrinks(b, request, size, fileOffset, bufferOffset);
    var addr: size_t := b.addr + bufferOffset;
    r := FastTransfer(kind, file, gpu, addr, size, fileOffset, stats);
    attempt := r;
    if r.Threw? && FallbackEligible(r.error) && Fallback.Score(cfg, b) >= 0 {
      retried := true;
      r := ThroughFallback(cfg, kind, file, gpu, b, request, fileOffset, bufferOffset, memory, stats,
                           old(gpu.mem[..]), old(file.contents));
    }
  }

  /** Negative results of the public calls; hipErrorUnknown stands for every HIP error. */
  function ErrorCode(e: Error): int {
    match e
    case InvalidArgument => -INVALID_VALUE
    case SystemError(_) => -1
    case HipError => -999
    case _ => -5030
  }

  /** Counters and records of failures before or after a call. */
  datatype Tally = Tally(errors: seq<int>, copyErrors: nat, directErrors: seq<DirectError>, directCalls: nat,
                         fastRead: nat, fastWrite: nat, fallbackRead: nat, fallbackWrite: nat)

  ghost function TallyOf(file: OpenFile, gpu: Gpu, stats: Stats): Tally
    reads file, gpu, stats
  {
    Tally(file.errors, gpu.copyErrors, gpu.directErrors, gpu.directCalls,
          stats.fastRead, stats.fastWrite, stats.fallbackRead, stats.fallbackWrite)
  }

  /** The fallback served: nothing of the fast path has moved; r is the fallback's answer, n its code or count. */
  ghost predicate ServedByFallback(kind: IoType, valid: bool, memory: bool, level: nat, size: nat, f: seq<byte>, off: int,
                                   n: int, t0: Tally, t1: Tally)
  {
    && t1.directErrors == t0.directErrors && t1.directCalls == t0.directCalls
    && t1.fastRead == t0.fastRead && t1.fastWrite == t0.fastWrite
    && Counted(t1.fallbackRead, t1.fallbackWrite, t0.fallbackRead, t0.fallbackWrite, kind,
               if n >= 0 && level >= 1 then n else 0)
    && exists r: Outcome ::
         n == ResultOf(r)
         && FallbackAnswer(kind, valid, memory, size, f, off, r, t0.errors, t1.errors, t0.copyErrors, t1.copyErrors)
  }

  /** The fast path was tried. Without a failure it served: the fallback has not moved. A failure is the answer, unless
      it is one of the two that are retried and the fallback is usable, which then serves. */
  ghost predicate ServedByFastPath(kind: IoType, valid: bool, usable: bool, memory: bool, level: nat, size: nat,
                                   f: seq<byte>, off: int, n: int, t0: Tally, t1: Tally)
  {
    if !valid then n == -INVALID_VALUE && t1 == t0
    else if t1.directErrors == t0.directErrors then
      && n >= 0 && t1.directCalls == t0.directCalls + 1 && t1.errors == t0.errors && t1.copyErrors == t0.copyErrors
      && t1.fallbackRead == t0.fallbackRead && t1.fallbackWrite == t0.fallbackWrite
      && Counted(t1.fastRead, t1.fastWrite, t0.fastRead, t0.fastWrite, kind, if level >= 1 then n else 0)
    else
      && |t1.directErrors| == |t0.directErrors| + 1 && t1.directErrors[..|t0.directErrors|] == t0.directErrors
      && var e := Raise(t1.directErrors[|t0.directErrors|]);
         var t := t0.(directErrors := t1.directErrors, directCalls := t1.directCalls);
         if (e == SystemError(ENODEV) || e == SystemError(EREMOTEIO)) && usable then
           ServedByFallback(kind, true, memory, level, size, f, off, n, t, t1)
         else n == ErrorCode(e) && t1 == t
  }

  /** Which backend answers a request, and how. The fast path is chosen exactly when its score is not negative, the
      fallback when only its own is not, and otherwise no backend takes the request. */
  ghost predicate Answered(cfg: Config, kind: IoType, info: FileInfo, b: Buffer, request: size_t, fo: hoff, bo: hoff,
                           memory: bool, level: nat, f: seq<byte>, n: int, t0: Tally, t1: Tally)
    requires cfg.Valid()
  {
    var usable := cfg.fallback && b.memType == DeviceMemory;
    if FastScore(cfg, info, b, request, fo, bo) == 100 then
      ServedByFastPath(kind, ParamsValid(b, request, fo, bo), usable, memory, level, Clamp(cfg, request), f, fo, n, t0, t1)
    else if usable then
      ServedByFallback(kind, ParamsValid(b, Clamp(cfg, request), fo, bo), memory, level, Clamp(cfg, request), f, fo, n, t0, t1)
    else n == ErrorCode(NoBackend) && t1 == t0
  }

  /** How many failures have been recorded. */
  function Failures(t: Tally): nat { |t.errors| + t.copyErrors + |t.directErrors| }

  /** Records only grow, and a call that adds none leaves them as they were. */
  lemma FailuresGrow(cfg: Config, kind: IoType, info: FileInfo, b: Buffer, request: size_t, fo: hoff, bo: hoff,
                     memory: bool, level: nat, f: seq<byte>, n: int, t0: Tally, t1: Tally)
    requires cfg.Valid() && Answered(cfg, kind, info, b, request, fo, bo, memory, level, f, n, t0, t1)
    ensures |t0.errors| <= |t1.errors| && t0.copyErrors <= t1.copyErrors && |t0.directErrors| <= |t1.directErrors|
    ensures Failures(t1) == Failures(t0) ==>
              t1.errors == t0.errors && t1.copyErrors == t0.copyErrors && t1.directErrors == t0.directErrors
  {
  }

  /** Unless something fails, a valid request that some backend takes succeeds: through the fallback with all the bytes
      there are to read, through the fast path without the fallback moving. */
  lemma CleanCallsSucceed(cfg: Config, kind: IoType, info: FileInfo, b: Buffer, request: size_t, fo: hoff, bo: hoff,
                          memory: bool, level: nat, f: seq<byte>, n: int, t0: Tally, t1: Tally)
    requires cfg.Valid() && Answered(cfg, kind, info, b, request, fo, bo, memory, level, f, n, t0, t1)
    requires ParamsValid(b, request, fo, bo) && memory
    requires t1.errors == t0.errors && t1.copyErrors == t0.copyErrors && t1.directErrors == t0.directErrors
    requires FastScore(cfg, info, b, request, fo, bo) == 100 || (cfg.fallback && b.memType == DeviceMemory)
    ensures n >= 0
    ensures FastScore(cfg, info, b, request, fo, bo) != 100 && kind == Read ==>
              n == Min(Min(request, cfg.maxRw), Avail(f, fo))
    ensures FastScore(cfg, info, b, request, fo, bo) == 100 <==> t1.directCalls == t0.directCalls + 1
  {
    ParamsValidShrinks(b, request, Clamp(cfg, request), fo, bo);
    if FastScore(cfg, info, b, request, fo, bo) != 100 {
      var r: Outcome :| n == ResultOf(r) && FallbackAnswer(kind, true, memory, Clamp(cfg, request), f, fo, r,
          t0.errors, t1.errors, t0.copyErrors, t1.copyErrors);
      assert r.Done?;
    }
  }

  /** What a negative result tells, by its number. -5022: the parameters are invalid. -1: a system call, the mapping of
      the bounce buffer or a direct transfer failed with a system error. -999: HIP failed. -5030: no backend. */
  lemma ResultCodes(cfg: Config, kind: IoType, info: FileInfo, b: Buffer, request: size_t, fo: hoff, bo: hoff,
                    memory: bool, level: nat, f: seq<byte>, n: int, t0: Tally, t1: Tally)
    requires cfg.Valid() && Answered(cfg, kind, info, b, request, fo, bo, memory, level, f, n, t0, t1)
    ensures n < 0 ==> n in {-1, -999, -5022, -5030}
    ensures n == -5030 <==> FastScore(cfg, info, b, request, fo, bo) != 100 && !(cfg.fallback && b.memType == DeviceMemory)
    ensures n == -5022 <==>
            if FastScore(cfg, info, b, request, fo, bo) == 100 then !ParamsValid(b, request, fo, bo)
            else cfg.fallback && b.memType == DeviceMemory && !ParamsValid(b, Clamp(cfg, request), fo, bo)
    ensures FastScore(cfg, info, b, request, fo, bo) != 100 ==>
              && (n == -999 <==> t1.copyErrors > t0.copyErrors)
              && (|t1.errors| > |t0.errors| ==> n == -1)
              && (n == -1 && memory ==> |t1.errors| > |t0.errors|)
              && (cfg.fallback && b.memType == DeviceMemory && ParamsValid(b, Clamp(cfg, request), fo, bo) && !memory ==>
                    n == -1)
    ensures FastScore(cfg, info, b, request, fo, bo) == 100 && !cfg.fallback && |t1.directErrors| > |t0.directErrors| ==>
              n == if t1.directErrors[|t0.directErrors|].DirectHip? then -999 else -1
  {
  }

  function ResultOf(r: Outcome): int { if r.Done? then r.n else ErrorCode(r.error) }

  /** hipFileIo over the two backends in registration order: fallback first, fast path second. Whichever serves the
      request, the caller sees the same transfer; and the backend that serves is the one the scores choose. */
  method HipFileIo(cfg: Config, kind: IoType, file: OpenFile, info: FileInfo, gpu: Gpu, b: Buffer, request: size_t,
                   fileOffset: hoff, bufferOffset: hoff, memory: bool, stats: Stats) returns (n: int)
    requires cfg.Valid() && file.Valid() && gpu.Valid() && gpu.Owns(b)
    modifies file, gpu, gpu.mem, stats
    ensures file.Valid() && file.stalls <= old(file.stalls)
    ensures kind == Read ==> file.contents == old(file.contents)
    ensures kind == Write ==> gpu.mem[..] == old(gpu.mem[..])
    ensures ParamsValid(b, Clamp(cfg, request), fileOffset, bufferOffset) ==>
              Transferred(kind, old(gpu.mem[..]), gpu.mem[..], At(gpu, b, bufferOffset), Clamp(cfg, request),
                          old(file.contents), file.contents, fileOffset, if n >= 0 then n else 0)
    ensures !ParamsValid(b, Clamp(cfg, request), fileOffset, bufferOffset) || n == ErrorCode(NoBackend) ==>
              n < 0 && file.contents == old(file.contents) && gpu.mem[..] == old(gpu.mem[..])
    ensures n == 0 ==>
              ZeroExplained(kind, Clamp(cfg, request), file.contents, fileOffset, file.stalls, old(file.stalls))
    ensures Answered(cfg, kind, info, b, request, fileOffset, bufferOffset, memory, stats.level, file.contents, n,
                     old(TallyOf(file, gpu, stats)), TallyOf(file, gpu, stats))
  {
    ghost var at := At(gpu, b, bufferOffset);
    if ParamsValid(b, Clamp(cfg, request), fileOffset, bufferOffset) {
      NothingTransferred(kind, gpu.mem[..], at, Clamp(cfg, request), file.contents, fileOffset);
    }
    var scores := [Fallback.Score(cfg, b), FastScore(cfg, info, b, request, fileOffset, bufferOffset)];
    var chosen := SelectBackend(scores);
    assert scores[0] == Fallback.Score(cfg, b) && scores[1] == FastScore(cfg, info, b, request, fileOffset, bufferOffset);
    if chosen == -1 { return ErrorCode(NoBackend); }
    var r: Outcome;
    if chosen == 1 {
      ghost var attempt, retried;
      r, attempt, retried := RetryIo(cfg, kind, file, info, gpu, b, request, fileOffset, bufferOffset, memory, stats);
      if r.Done? { ParamsValidShrinks(b, request, Clamp(cfg, request), fileOffset, bufferOffset); }
    } else {
      r := ThroughFallback(cfg, kind, file, gpu, b, request, fileOffset, bufferOffset, memory, stats,
                           gpu.mem[..], file.contents);
    }
    n := ResultOf(r);
  }
}
