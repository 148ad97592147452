/** The driver state as a machine: every call is split where it takes or drops a lock, holders come and go at any time,
    and the last reference to an object runs its destructor. */
module Driver {
  import opened Memory
  import opened Device
  import opened Descriptor
  import opened RefCounts
  import opened FileRegistry
  import opened FdLedger
  import opened BufferRegistry

  /** closing: calls of hipFileDriverClose that have seen a positive count and have not decremented it yet.
      epoch: how often the count has been brought to zero. acquired, closes: increments, and closes that reported
      success. wasted: closes that found the count already at zero. */
  datatype State = State(refCount: int, closing: nat, epoch: nat, acquired: nat, closes: nat, wasted: nat,
                         files: Files, ledger: Ledger, buffers: Buffers)

  /** Tokens and object addresses in events are fresh; `made` and `open` are what HIP and the system answer. */
  datatype Event =
    | DriverOpen | EnsureInit | CloseCheck | CloseDecrement
    | NewFile(t: nat, fd: int, facts: Facts, open: Reopen)
    | AddFile(t: nat, o: nat) | DiscardFile(t: nat) | RemoveFile(fh: nat)
    | AddBuffer(o: nat, ptr: size_t, made: BufferResult) | RemoveBuffer(ptr: size_t)
    | Lookup(t: nat, fh: nat, ptr: size_t, o: nat, made: BufferResult)
    | CopyFileRef(t: nat, t': nat) | DropFileRef(t: nat) | FileDies(o: nat)
    | CopyBufferRef(t: nat, t': nat) | DropBufferRef(t: nat) | BufferDies(o: nat)
    | ClientOpens(fd: int) | ClientCloses(fd: int)

  /** A buffer constructor keeps the pointer it was given. */
  predicate Answers(made: BufferResult, ptr: size_t) {
    made.Created? ==> made.buffer.addr == ptr
  }

  predicate Enabled(s: State, e: Event) {
    match e
    case DriverOpen => true
    case EnsureInit => true
    case CloseCheck => true
    case CloseDecrement => s.closing > 0
    case NewFile(t, fd, facts, open) =>
      t !in s.ledger.pending && (open.Opened? ==> Unused(s.ledger, open.fd))
    case AddFile(t, o) => t in s.ledger.pending && o !in s.files.birth
    case DiscardFile(t) => t in s.ledger.pending
    case RemoveFile(fh) => true
    case AddBuffer(o, ptr, made) => o !in s.buffers.known && Answers(made, ptr)
    case RemoveBuffer(ptr) => true
    case Lookup(t, fh, ptr, o, made) =>
      t !in s.files.holders && t !in s.buffers.holders && o !in s.buffers.known && Answers(made, ptr)
    case CopyFileRef(t, t') => t in s.files.holders && t' !in s.files.holders
    case DropFileRef(t) => t in s.files.holders
    case FileDies(o) => o in s.files.objects && o !in s.files.uses
    case CopyBufferRef(t, t') => t in s.buffers.holders && t' !in s.buffers.holders
    case DropBufferRef(t) => t in s.buffers.holders
    case BufferDies(o) => o in s.buffers.objects && o !in s.buffers.uses
    case ClientOpens(fd) => Unused(s.ledger, fd)
    case ClientCloses(fd) => fd in s.ledger.clients
  }

  /** The first use of an uninitialised driver counts as an open. */
  function Initialised(s: State): State {
    if s.refCount == 0 then s.(refCount := s.refCount + 1, acquired := s.acquired + 1) else s
  }

  function Decremented(s: State): State {
    var n := if s.refCount > 0 then s.refCount - 1 else s.refCount;
    var d := s.(refCount := n, closing := if s.closing > 0 then s.closing - 1 else 0, closes := s.closes + 1,
                wasted := if s.refCount > 0 then s.wasted else s.wasted + 1);
    if n == 0 then
      d.(files := ClearFiles(s.files), buffers := ClearBuffers(s.buffers), epoch := s.epoch + 1)
    else d
  }

  /** registerFile: the UnregisteredFile stays with its caller, who destroys it, when the descriptor is taken. */
  function FileAdded(s: State, t: nat, o: nat): (State, Outcome) {
    if t !in s.ledger.pending then (s, Rejected)
    else
      var r := RegisterFile(s.files, o, s.ledger.pending[t], s.epoch);
      (Initialised(s).(files := r.0, ledger := if r.1.Done? then MoveTo(s.ledger, t, o) else s.ledger), r.1)
  }

  function FileRemoved(s: State, fh: nat): (State, Outcome) {
    if s.refCount == 0 then (s, NotInitialized)
    else var r := DeregisterFile(s.files, fh); (s.(files := r.0), r.1)
  }

  function BufferAdded(s: State, o: nat, ptr: size_t, made: BufferResult): (State, Outcome) {
    var r := RegisterBuffer(s.buffers, o, ptr, made);
    (Initialised(s).(buffers := r.0), r.1)
  }

  function BufferRemoved(s: State, ptr: size_t): (State, Outcome) {
    if s.refCount == 0 then (s, NotInitialized)
    else var r := DeregisterBuffer(s.buffers, ptr); (s.(buffers := r.0), r.1)
  }

  /** getFileAndBuffer: both references or none. */
  function LookedUp(s: State, t: nat, fh: nat, ptr: size_t, o: nat, made: BufferResult): (State, Outcome) {
    if s.refCount == 0 then (s, NotInitialized)
    else
      var f := GetFile(s.files, fh, t);
      var b := GetBuffer(s.buffers, ptr, t, o, made);
      if !f.1.Done? then (s, f.1)
      else if !b.1.Done? then (s, b.1)
      else (s.(files := f.0, buffers := b.0), Done)
  }

  function Destroyed(s: State, o: nat): State {
    if o !in s.files.objects then s
    else s.(ledger := CloseAll(s.ledger, OfFile(o), s.files.objects[o]), files := DestroyFile(s.files, o))
  }

  function Apply(s: State, e: Event): State {
    match e
    case DriverOpen => s.(refCount := s.refCount + 1, acquired := s.acquired + 1)
    case EnsureInit => Initialised(s)
    case CloseCheck => if s.refCount > 0 then s.(closing := s.closing + 1) else s
    case CloseDecrement => Decremented(s)
    case NewFile(t, fd, facts, open) => s.(ledger := Construct(s.ledger, t, fd, facts, open))
    case AddFile(t, o) => FileAdded(s, t, o).0
    case DiscardFile(t) => s.(ledger := Discard(s.ledger, t))
    case RemoveFile(fh) => FileRemoved(s, fh).0
    case AddBuffer(o, ptr, made) => BufferAdded(s, o, ptr, made).0
    case RemoveBuffer(ptr) => BufferRemoved(s, ptr).0
    case Lookup(t, fh, ptr, o, made) => LookedUp(s, t, fh, ptr, o, made).0
    case CopyFileRef(t, t') => if t in s.files.holders then s.(files := Hold(s.files, t', s.files.holders[t])) else s
    case DropFileRef(t) => s.(files := DropFile(s.files, t))
    case FileDies(o) => Destroyed(s, o)
    case CopyBufferRef(t, t') =>
      if t in s.buffers.holders then s.(buffers := HoldBuffer(s.buffers, t', s.buffers.holders[t])) else s
    case DropBufferRef(t) => s.(buffers := DropBuffer(s.buffers, t))
    case BufferDies(o) => s.(buffers := DestroyBuffer(s.buffers, o))
    case ClientOpens(fd) => s.(ledger := s.ledger.(clients := s.ledger.clients + {fd}))
    case ClientCloses(fd) => s.(ledger := s.ledger.(clients := s.ledger.clients - {fd}))
  }

  function Initial(): State {
    State(0, 0, 0, 0, 0, 0, Files(map[], map[], map[], map[], map[], map[]),
          Ledger(map[], {}, map[], multiset{}, multiset{}), Buffers(map[], map[], map[], map[], {}))
  }

  ghost predicate Reaches(s: State, events: seq<Event>, s': State)
    decreases |events|
  {
    if events == [] then s' == s else Enabled(s, events[0]) && Reaches(Apply(s, events[0]), events[1..], s')
  }

  /** The count is never negative, accounts for every open and close, and at zero nothing is registered. */
  ghost predicate CountOk(s: State) {
    && s.refCount >= 0
    && s.refCount == s.acquired - s.closes + s.wasted
    && (s.refCount == 0 ==> s.files.fromFd == map[] && s.files.fromFh == map[] && s.buffers.fromPtr == map[])
  }

  ghost predicate Inv(s: State) {
    && CountOk(s)
    && FilesOk(s.files, s.epoch)
    && LedgerOk(s.ledger, s.files.objects)
    && BuffersOk(s.buffers)
  }

  lemma CountStep(s: State, e: Event)
    requires CountOk(s) && Enabled(s, e)
    ensures CountOk(Apply(s, e))
  {
  }

  lemma FilesStep(s: State, e: Event)
    requires FilesOk(s.files, s.epoch) && Enabled(s, e)
    ensures FilesOk(Apply(s, e).files, Apply(s, e).epoch)
  {
    match e {
      case CloseDecrement => ClearKeepsOk(s.files, s.epoch, s.epoch + 1);
      case AddFile(t, o) => RegisterKeepsOk(s.files, o, s.ledger.pending[t], s.epoch);
      case RemoveFile(fh) => DeregisterKeepsOk(s.files, fh, s.epoch);
      case Lookup(t, fh, _, _, _) =>
        if fh in s.files.fromFh {
          RegisteredIsAlive(s.files, fh);
          HoldKeepsOk(s.files, t, s.files.fromFh[fh], s.epoch);
        }
      case CopyFileRef(t, t') =>
        HeldIsAlive(s.files.uses, s.files.holders, s.files.fromFh.Values, FILE_WEIGHT, t);
        HoldKeepsOk(s.files, t', s.files.holders[t], s.epoch);
      case DropFileRef(t) => DropKeepsOk(s.files, t, s.epoch);
      case FileDies(o) => DestroyKeepsOk(s.files, o, s.epoch);
      case _ =>
    }
  }

  lemma ClientsKeepLedger(l: Ledger, files: map<nat, File>, clients: set<int>)
    requires LedgerOk(l, files) && l.owned.Keys !! clients
    ensures LedgerOk(l.(clients := clients), files)
  {
  }

  lemma AddFileLedger(s: State, t: nat, o: nat)
    requires LedgerOk(s.ledger, s.files.objects) && t in s.ledger.pending && o !in s.files.objects
    ensures LedgerOk(FileAdded(s, t, o).0.ledger, FileAdded(s, t, o).0.files.objects)
  {
    if FileAdded(s, t, o).1.Done? { MoveKeepsLedger(s.ledger, s.files.objects, t, o); }
  }

  lemma FileDiesLedger(s: State, o: nat)
    requires LedgerOk(s.ledger, s.files.objects) && o in s.files.objects
    ensures LedgerOk(Destroyed(s, o).ledger, Destroyed(s, o).files.objects)
  {
    DestroyKeepsLedger(s.ledger, s.files.objects, o);
    assert Destroyed(s, o).files.objects == map x | x in s.files.objects && x != o :: s.files.objects[x];
  }

  lemma LedgerStep(s: State, e: Event)
    requires LedgerOk(s.ledger, s.files.objects) && s.files.objects.Keys <= s.files.birth.Keys && Enabled(s, e)
    ensures LedgerOk(Apply(s, e).ledger, Apply(s, e).files.objects)
  {
    match e {
      case NewFile(t, fd, facts, open) =>
        ConstructKeepsLedger(s.ledger, s.files.objects, t, fd, facts, open);
      case AddFile(t, o) => AddFileLedger(s, t, o);
      case DiscardFile(t) => DiscardKeepsLedger(s.ledger, s.files.objects, t);
      case FileDies(o) => FileDiesLedger(s, o);
      case ClientOpens(fd) => ClientsKeepLedger(s.ledger, s.files.objects, s.ledger.clients + {fd});
      case ClientCloses(fd) => ClientsKeepLedger(s.ledger, s.files.objects, s.ledger.clients - {fd});
      case _ => assert Apply(s, e).ledger == s.ledger && Apply(s, e).files.objects == s.files.objects;
    }
  }

  lemma BuffersStep(s: State, e: Event)
    requires BuffersOk(s.buffers) && Enabled(s, e)
    ensures BuffersOk(Apply(s, e).buffers)
  {
    match e {
      case CloseDecrement => ClearBuffersKeepsOk(s.buffers);
      case AddBuffer(o, ptr, made) => RegisterBufferKeepsOk(s.buffers, o, ptr, made);
      case RemoveBuffer(ptr) => DeregisterBufferKeepsOk(s.buffers, ptr);
      case Lookup(t, _, ptr, o, made) => GetBufferKeepsOk(s.buffers, ptr, t, o, made);
      case CopyBufferRef(t, t') =>
        HeldIsAlive(s.buffers.uses, s.buffers.holders, s.buffers.fromPtr.Values, BUFFER_WEIGHT, t);
        HoldBufferKeepsOk(s.buffers, t', s.buffers.holders[t]);
      case DropBufferRef(t) => DropBufferKeepsOk(s.buffers, t);
      case BufferDies(o) => DestroyBufferKeepsOk(s.buffers, o);
      case _ =>
    }
  }

  lemma StepKeepsInv(s: State, e: Event)
    requires Inv(s) && Enabled(s, e)
    ensures Inv(Apply(s, e))
  {
    CountStep(s, e);
    FilesStep(s, e);
    LedgerStep(s, e);
    BuffersStep(s, e);
  }
}
