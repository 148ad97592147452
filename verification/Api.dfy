/** hipFileIo from handle and pointer to bytes: driver lookup, buffer construction from HIP's answer, dispatch, and the
    references given back. */
module Api {
  import opened Memory
  import opened Posix
  import opened Device
  import opened Fallback
  import opened Dispatch
  import R = FileRegistry
  import B = BufferRegistry
  import D = Driver
  import S = DriverSafety
  import DS = DriverState

  /** HIP's answer for a pointer, where `base` and `size` are one allocation: inside it HIP reports that allocation. */
  predicate Honest(ptr: size_t, answer: HipAnswer, base: nat, size: nat) {
    answer.Answer? ==>
      HipPromises(answer.info, ptr) && (base <= ptr < base + size ==> answer.info.base == base && answer.info.size == size)
  }

  /** An event whose buffer, if it makes one, was made from an honest answer. */
  ghost predicate HonestEvent(e: D.Event, base: nat, size: nat) {
    match e
    case AddBuffer(_, ptr, made) =>
      exists length: size_t, a: HipAnswer :: Honest(ptr, a, base, size) && made == MakeRegistered(ptr, length, a)
    case Lookup(_, _, ptr, _, made) => exists a: HipAnswer :: Honest(ptr, a, base, size) && made == MakeTemporary(ptr, a)
    case _ => true
  }

  /** Every buffer that starts inside the allocation ends inside it. */
  ghost predicate Backed(b: B.Buffers, base: nat, size: nat) {
    forall o :: o in b.objects && base <= b.objects[o].addr < base + size ==> Inside(b.objects[o], base, size)
  }

  lemma HonestBufferIsInside(ptr: size_t, length: size_t, a: HipAnswer, base: nat, size: nat)
    requires Honest(ptr, a, base, size) && base <= ptr < base + size
    ensures MakeRegistered(ptr, length, a).Created? ==> Inside(MakeRegistered(ptr, length, a).buffer, base, size)
    ensures MakeTemporary(ptr, a).Created? ==> Inside(MakeTemporary(ptr, a).buffer, base, size)
  {
    if ptr != 0 && a.Answer? && a.info.memType == DeviceMemory {
      AcceptedRequestsStayInside(ptr, length, a.info, 0, 0, 0);
    }
  }

  lemma MadeIsBacked(e: D.Event, base: nat, size: nat)
    requires HonestEvent(e, base, size) && (e.AddBuffer? || e.Lookup?) && e.made.Created?
    ensures base <= e.made.buffer.addr < base + size ==> Inside(e.made.buffer, base, size)
  {
    if base <= e.ptr < base + size {
      if e.AddBuffer? {
        var length: size_t, a: HipAnswer :| Honest(e.ptr, a, base, size) && e.made == MakeRegistered(e.ptr, length, a);
        HonestBufferIsInside(e.ptr, length, a, base, size);
      } else {
        var a: HipAnswer :| Honest(e.ptr, a, base, size) && e.made == MakeTemporary(e.ptr, a);
        HonestBufferIsInside(e.ptr, 0, a, base, size);
      }
    }
  }

  lemma StepKeepsBacked(s: D.State, e: D.Event, base: nat, size: nat)
    requires Backed(s.buffers, base, size) && D.Enabled(s, e) && HonestEvent(e, base, size)
    ensures Backed(D.Apply(s, e).buffers, base, size)
  {
    if (e.AddBuffer? || e.Lookup?) && e.made.Created? { MadeIsBacked(e, base, size); }
    assert forall o :: o in D.Apply(s, e).buffers.objects ==>
        (o in s.buffers.objects && D.Apply(s, e).buffers.objects[o] == s.buffers.objects[o])
        || ((e.AddBuffer? || e.Lookup?) && e.made.Created? && D.Apply(s, e).buffers.objects[o] == e.made.buffer);
  }

  lemma {:induction false} RunKeepsBacked(s: D.State, events: seq<D.Event>, s': D.State, base: nat, size: nat)
    requires Backed(s.buffers, base, size) && D.Reaches(s, events, s')
    requires forall e :: e in events ==> HonestEvent(e, base, size)
    ensures Backed(s'.buffers, base, size)
    decreases |events|
  {
    if events != [] {
      assert events[0] in events;
      StepKeepsBacked(s, events[0], base, size);
      assert forall e :: e in events[1..] ==> e in events;
      RunKeepsBacked(D.Apply(s, events[0]), events[1..], s', base, size);
    }
  }

  /** The buffer a call works on. */
  function BufferFor(b: B.Buffers, ptr: size_t, made: BufferResult): BufferResult {
    if ptr in b.fromPtr && b.fromPtr[ptr] in b.objects then Created(b.objects[b.fromPtr[ptr]]) else made
  }

  /** In every state of an honest run, the buffer a call works on lies inside the allocation of its pointer. */
  lemma CallBufferIsOwned(events: seq<D.Event>, s: D.State, ptr: size_t, a: HipAnswer, gpu: Gpu)
    requires D.Reaches(D.Initial(), events, s) && gpu.base <= ptr < gpu.base + gpu.mem.Length
    requires forall e :: e in events ==> HonestEvent(e, gpu.base, gpu.mem.Length)
    requires Honest(ptr, a, gpu.base, gpu.mem.Length)
    ensures var r := BufferFor(s.buffers, ptr, MakeTemporary(ptr, a)); r.Created? ==> gpu.Owns(r.buffer) && r.buffer.addr == ptr
    ensures ptr in s.buffers.fromPtr ==> s.buffers.fromPtr[ptr] in s.buffers.objects
  {
    RunKeepsBacked(D.Initial(), events, s, gpu.base, gpu.mem.Length);
    S.ReachableInv(events, s);
    HonestBufferIsInside(ptr, 0, a, gpu.base, gpu.mem.Length);
    if ptr in s.buffers.fromPtr { B.RegisteredBufferIsAlive(s.buffers, ptr); }
  }

  /** Results of calls whose buffer cannot be made; hipErrorUnknown stands for every HIP error. */
  function RejectionCode(made: BufferResult): (code: int)
    ensures code < 0
  {
    match made
    case NullPointer => -INVALID_VALUE
    case InvalidMemoryType => -5013
    case HipRefused => -999
    case _ => -5030
  }

  /** Results of calls whose lookup fails. */
  function LookupError(r: R.Outcome, made: BufferResult): (code: int)
    ensures code < 0
  {
    match r
    case NotInitialized => -5001
    case NotRegistered => -5027
    case _ => RejectionCode(made)
  }

  /** The lookup of a call succeeds. */
  predicate Found(s: D.State, fh: nat, ptr: size_t, made: BufferResult) {
    s.refCount != 0 && fh in s.files.fromFh && BufferFor(s.buffers, ptr, made).Created?
  }

  /** Tokens and addresses a call may use: nobody else has them. */
  ghost predicate Unclaimed(f: R.Files, b: B.Buffers, t: nat, o: nat) {
    && t !in f.holders && t !in b.holders && o !in b.known && o !in b.objects && o !in b.uses
    && (forall x :: x in f.uses ==> f.uses[x] > 0) && (forall x :: x in b.uses ==> b.uses[x] > 0)
  }

  /** The driver as it was in s, but for addresses it has seen. */
  ghost predicate Restored(driver: DS.DriverState, s: D.State)
    reads driver, driver.files, driver.buffers
  {
    && driver.refCount == s.refCount && driver.files.View() == s.files
    && driver.buffers.View() == s.buffers.(known := driver.buffers.known)
  }

  /** The references a lookup took are given back, and a temporary buffer is destroyed. */
  method GiveBack(driver: DS.DriverState, fh: nat, ptr: size_t, t: nat, o: nat, ghost made: BufferResult, ghost s: D.State)
    requires Unclaimed(s.files, s.buffers, t, o) && fh in s.files.fromFh && (ptr in s.buffers.fromPtr || made.Created?)
    requires driver.refCount == s.refCount && driver.files.View() == R.GetFile(s.files, fh, t).0
    requires driver.buffers.View() == B.GetBuffer(s.buffers, ptr, t, o, made).0
    modifies driver.files, driver.buffers
    ensures Restored(driver, s)
  {
    R.DropUndoesGet(s.files, fh, t);
    driver.files.Drop(t);
    driver.buffers.Drop(t);
    if ptr in s.buffers.fromPtr {
      B.DropUndoesHold(s.buffers, ptr, t, o, made);
    } else {
      B.DropEndsTemporary(s.buffers, ptr, t, o, made);
    }
    if o in driver.buffers.objects && o !in driver.buffers.uses { driver.buffers.Destroy(o); }
  }

  lemma FreshIsUnclaimed(events: seq<D.Event>, s: D.State, t: nat, o: nat)
    requires D.Reaches(D.Initial(), events, s)
    requires t !in s.files.holders && t !in s.buffers.holders && o !in s.buffers.known
    ensures Unclaimed(s.files, s.buffers, t, o)
    ensures s.refCount == 0 ==> s.files.fromFh == map[]
  {
    S.ReachableInv(events, s);
  }

  /** The lookup: it succeeds exactly when the file is registered and there is a buffer, which it then returns. */
  method LookUp(driver: DS.DriverState, fh: nat, ptr: size_t, t: nat, o: nat, made: BufferResult, ghost s: D.State)
    returns (r: R.Outcome, b: BufferResult)
    requires driver.Models(s) && Unclaimed(s.files, s.buffers, t, o)
    requires ptr in s.buffers.fromPtr ==> s.buffers.fromPtr[ptr] in s.buffers.objects
    modifies driver, driver.files, driver.buffers
    ensures r.Done? <==> Found(s, fh, ptr, made)
    ensures r.NotInitialized? <==> s.refCount == 0
    ensures r.NotRegistered? <==> s.refCount != 0 && fh !in s.files.fromFh
    ensures !r.Done? ==> driver.Models(s)
    ensures r.Done? ==>
              && b == BufferFor(s.buffers, ptr, made) && driver.refCount == s.refCount
              && driver.files.View() == R.GetFile(s.files, fh, t).0
              && driver.buffers.View() == B.GetBuffer(s.buffers, ptr, t, o, made).0
  {
    b := made;
    r := driver.GetFileAndBuffer(fh, ptr, t, o, made, s);
    if r.Done? { b := Created(driver.buffers.objects[driver.buffers.holders[t]]); }
  }

  /** What a call promises once its buffer is known. */
  ghost predicate Served(cfg: Config, kind: IoType, b: Buffer, gpuBase: nat, request: size_t, fo: hoff, bo: hoff,
                         m0: seq<byte>, m1: seq<byte>, f0: seq<byte>, f1: seq<byte>, n: int)
    requires cfg.Valid()
  {
    if ParamsValid(b, Clamp(cfg, request), fo, bo) then
      Transferred(kind, m0, m1, b.addr - gpuBase + bo, Clamp(cfg, request), f0, f1, fo, if n >= 0 then n else 0)
    else n < 0 && f1 == f0 && m1 == m0
  }

  /** A call whose buffer, if it gets one, is known to lie inside the allocation. */
  method ServeCall(driver: DS.DriverState, cfg: Config, kind: IoType, fh: nat, ptr: size_t, request: size_t,
                   fileOffset: hoff, bufferOffset: hoff, made: BufferResult, file: OpenFile, info: FileInfo, gpu: Gpu,
                   memory: bool, stats: Stats, t: nat, o: nat, ghost s: D.State)
    returns (n: int)
    requires cfg.Valid() && file.Valid() && gpu.Valid() && driver.Models(s) && Unclaimed(s.files, s.buffers, t, o)
    requires ptr in s.buffers.fromPtr ==> s.buffers.fromPtr[ptr] in s.buffers.objects
    requires Found(s, fh, ptr, made) ==> gpu.Owns(BufferFor(s.buffers, ptr, made).buffer)
    modifies driver, driver.files, driver.buffers, file, gpu, gpu.mem, stats
    ensures file.Valid() && Restored(driver, s)
    ensures !Found(s, fh, ptr, made) ==>
              n < 0 && file.contents == old(file.contents) && gpu.mem[..] == old(gpu.mem[..])
    ensures s.refCount == 0 ==> n == -5001
    ensures s.refCount != 0 && fh !in s.files.fromFh ==> n == -5027
    ensures s.refCount != 0 && fh in s.files.fromFh && !Found(s, fh, ptr, made) ==> n == RejectionCode(made)
    ensures Found(s, fh, ptr, made) ==>
              var b := BufferFor(s.buffers, ptr, made).buffer;
              && Served(cfg, kind, b, gpu.base, request, fileOffset, bufferOffset,
                        old(gpu.mem[..]), gpu.mem[..], old(file.contents), file.contents, n)
              && Answered(cfg, kind, info, b, request, fileOffset, bufferOffset, memory, stats.level, file.contents, n,
                          old(TallyOf(file, gpu, stats)), TallyOf(file, gpu, stats))
  {
    var r, b := LookUp(driver, fh, ptr, t, o, made, s);
    if !r.Done? { return LookupError(r, made); }
    n := HipFileIo(cfg, kind, file, info, gpu, b.buffer, request, fileOffset, bufferOffset, memory, stats);
    GiveBack(driver, fh, ptr, t, o, made, s);
  }

  /** The whole call. A lookup that fails moves nothing; otherwise the transfer is the one hipFileIo promises, on a
      buffer inside its allocation; either way the driver ends as it was, all references given back. */
  method IoCall(driver: DS.DriverState, cfg: Config, kind: IoType, fh: nat, ptr: size_t, request: size_t, fileOffset: hoff,
                bufferOffset: hoff, answer: HipAnswer, file: OpenFile, info: FileInfo, gpu: Gpu, memory: bool, stats: Stats,
                t: nat, o: nat, ghost events: seq<D.Event>, ghost s: D.State)
    returns (n: int)
    requires cfg.Valid() && file.Valid() && gpu.Valid()
    requires D.Reaches(D.Initial(), events, s) && driver.Models(s)
    requires forall e :: e in events ==> HonestEvent(e, gpu.base, gpu.mem.Length)
    requires Honest(ptr, answer, gpu.base, gpu.mem.Length)
    requires gpu.base <= ptr < gpu.base + gpu.mem.Length ||
             (ptr !in s.buffers.fromPtr && !MakeTemporary(ptr, answer).Created?)
    requires t !in s.files.holders && t !in s.buffers.holders && o !in s.buffers.known
    modifies driver, driver.files, driver.buffers, file, gpu, gpu.mem, stats
    ensures file.Valid() && Restored(driver, s)
    ensures !Found(s, fh, ptr, MakeTemporary(ptr, answer)) ==>
              n < 0 && file.contents == old(file.contents) && gpu.mem[..] == old(gpu.mem[..])
    ensures s.refCount == 0 ==> n == -5001
    ensures s.refCount != 0 && fh !in s.files.fromFh ==> n == -5027
    ensures s.refCount != 0 && fh in s.files.fromFh && !Found(s, fh, ptr, MakeTemporary(ptr, answer)) ==>
              n == if ptr == 0 then -INVALID_VALUE else if answer.NoAnswer? then -999 else -5013
    ensures Found(s, fh, ptr, MakeTemporary(ptr, answer)) ==>
              var b := BufferFor(s.buffers, ptr, MakeTemporary(ptr, answer)).buffer;
              && b.addr == ptr && gpu.Owns(b)
              && Served(cfg, kind, b, gpu.base, request, fileOffset, bufferOffset,
                        old(gpu.mem[..]), gpu.mem[..], old(file.contents), file.contents, n)
              && Answered(cfg, kind, info, b, request, fileOffset, bufferOffset, memory, stats.level, file.contents, n,
                          old(TallyOf(file, gpu, stats)), TallyOf(file, gpu, stats))
  {
    var made := MakeTemporary(ptr, answer);
    FreshIsUnclaimed(events, s, t, o);
    BufferOutcomes(ptr, 0, answer);
    if gpu.base <= ptr < gpu.base + gpu.mem.Length { CallBufferIsOwned(events, s, ptr, answer, gpu); }
    n := ServeCall(driver, cfg, kind, fh, ptr, request, fileOffset, bufferOffset, made, file, info, gpu,
                   memory, stats, t, o, s);
  }
}
