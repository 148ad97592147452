/** What holds of the driver state in every reachable state and over whole runs. */
module DriverSafety {
  import opened Memory
  import opened Device
  import opened Descriptor
  import opened RefCounts
  import opened FileRegistry
  import opened FdLedger
  import opened BufferRegistry
  import opened Driver

  lemma {:induction false} RunKeepsInv(s: State, events: seq<Event>, s': State)
    requires Inv(s) && Reaches(s, events, s')
    ensures Inv(s')
    decreases |events|
  {
    if events != [] {
      StepKeepsInv(s, events[0]);
      RunKeepsInv(Apply(s, events[0]), events[1..], s');
    }
  }

  lemma {:induction false} ReachesAppend(s: State, a: seq<Event>, s': State, b: seq<Event>, s'': State)
    requires Reaches(s, a, s') && Reaches(s', b, s'')
    ensures Reaches(s, a + b, s'')
    decreases |a|
  {
    if a == [] {
      assert [] + b == b;
    } else {
      var t := Apply(s, a[0]);
      assert Enabled(s, a[0]) && Reaches(t, a[1..], s');
      ReachesAppend(t, a[1..], s', b, s'');
      assert (a + b)[0] == a[0] && (a + b)[1..] == a[1..] + b;
    }
  }

  lemma InitialInv()
    ensures Inv(Initial())
  {
    assert HoldersOf(map[], 0) == {};
    forall o: nat
      ensures HoldersOf(map[], o) == {}
    {
    }
  }

  lemma ReachableInv(events: seq<Event>, s: State)
    requires Reaches(Initial(), events, s)
    ensures Inv(s)
  {
    InitialInv();
    RunKeepsInv(Initial(), events, s);
  }

  /** The count is never negative and a decrement cannot make it so: the throw in decrRefCount is unreachable. At zero
      both registries are empty, and every lookup and deregistration is refused. */
  lemma CountIsSafe(events: seq<Event>, s: State)
    requires Reaches(Initial(), events, s)
    ensures s.refCount >= 0 && Decremented(s).refCount >= 0
    ensures s.refCount == 0 ==> s.files.fromFd == map[] && s.files.fromFh == map[] && s.buffers.fromPtr == map[]
    ensures Decremented(s).refCount == 0 ==>
              Decremented(s).files.fromFh == map[] && Decremented(s).buffers.fromPtr == map[]
  {
    ReachableInv(events, s);
  }

  lemma ClearingNothing(f: Files, b: Buffers)
    requires f.fromFd == map[] && f.fromFh == map[] && b.fromPtr == map[]
    ensures ClearFiles(f) == f && ClearBuffers(b) == b
  {
    assert f.fromFh.Values == {} && b.fromPtr.Values == {};
    assert ReleaseAll(f.uses, {}, FILE_WEIGHT) == f.uses;
    assert ReleaseAll(b.uses, {}, BUFFER_WEIGHT) == b.uses;
  }

  /** An open followed by a close changes nothing but the tallies: both registries, every use count and the count itself
      are as before, whatever is registered or held. */
  lemma CloseUndoesOpen(s: State)
    requires CountOk(s)
    ensures var s' := Apply(Apply(Apply(s, DriverOpen), CloseCheck), CloseDecrement);
            s' == s.(acquired := s.acquired + 1, closes := s.closes + 1, epoch := s'.epoch)
            && (s'.epoch == s.epoch <==> s.refCount > 0)
  {
    if s.refCount == 0 { ClearingNothing(s.files, s.buffers); }
  }

  /** The implicit initialisation takes effect once, touches no registry, and after it no call is refused for want of
      an initialised driver. */
  lemma InitialisedOnce(s: State, t: nat, fh: nat, ptr: size_t, o: nat, made: BufferResult)
    requires CountOk(s)
    ensures var i := Apply(s, EnsureInit);
            && i.refCount > 0 && Apply(i, EnsureInit) == i && (s.refCount > 0 ==> i == s)
            && i.files == s.files && i.buffers == s.buffers && i.ledger == s.ledger
            && LookedUp(i, t, fh, ptr, o, made).1 != NotInitialized
            && FileRemoved(i, fh).1 != NotInitialized && BufferRemoved(i, ptr).1 != NotInitialized
  {
  }

  /** Registering with an uninitialised driver opens it. A file registration then always succeeds; a buffer
      registration may be refused, and leaves the driver open all the same. */
  lemma FirstRegistrationOpens(events: seq<Event>, s: State, t: nat, f: nat, o: nat, ptr: size_t, made: BufferResult)
    requires Reaches(Initial(), events, s) && s.refCount == 0 && t in s.ledger.pending
    ensures FileAdded(s, t, f).1.Done? && FileAdded(s, t, f).0.refCount == 1
    ensures BufferAdded(s, o, ptr, made).1.Done? <==> made.Created?
    ensures BufferAdded(s, o, ptr, made).0.refCount == 1
  {
    ReachableInv(events, s);
  }

  /** A lookup succeeds exactly when the file is registered and the buffer is, or can be made. It yields a live file
      registered since the count last reached zero, under the handle asked for, and a buffer at the address asked
      for; both are held from then on. */
  lemma LookupFindsCurrent(events: seq<Event>, s: State, t: nat, fh: nat, ptr: size_t, o: nat, made: BufferResult)
    requires Reaches(Initial(), events, s) && Enabled(s, Lookup(t, fh, ptr, o, made))
    ensures LookedUp(s, t, fh, ptr, o, made).1.Done? <==>
            fh in s.files.fromFh && (ptr in s.buffers.fromPtr || made.Created?)
    ensures !LookedUp(s, t, fh, ptr, o, made).1.Done? ==> LookedUp(s, t, fh, ptr, o, made).0 == s
    ensures LookedUp(s, t, fh, ptr, o, made).1.Done? ==>
              var s' := LookedUp(s, t, fh, ptr, o, made).0;
              && t in s'.files.holders && t in s'.buffers.holders
              && var (file, buffer) := (s'.files.holders[t], s'.buffers.holders[t]);
              && file in s'.files.objects && Handle(file) == fh
              && file in s'.files.birth && s'.files.birth[file] == s.epoch
              && buffer in s'.buffers.objects && s'.buffers.objects[buffer].addr == ptr
  {
    ReachableInv(events, s);
    if fh in s.files.fromFh { RegisteredIsAlive(s.files, fh); }
    if ptr in s.buffers.fromPtr { RegisteredBufferIsAlive(s.buffers, ptr); }
  }

  /** Deregistering succeeds if and only if the object is registered and no call, asynchronous operation or batch
      operation holds it; a registered file's use count is two, and a registered buffer's one, plus its holders. */
  lemma DeregisterIffNobodyHolds(events: seq<Event>, s: State, fh: nat, ptr: size_t)
    requires Reaches(Initial(), events, s)
    ensures FileRemoved(s, fh).1.Done? <==>
            fh in s.files.fromFh && forall t :: t in s.files.holders ==> s.files.holders[t] != s.files.fromFh[fh]
    ensures BufferRemoved(s, ptr).1.Done? <==>
            ptr in s.buffers.fromPtr && forall t :: t in s.buffers.holders ==> s.buffers.holders[t] != s.buffers.fromPtr[ptr]
    ensures fh in s.files.fromFh ==>
              Uses(s.files.uses, s.files.fromFh[fh]) == 2 + |HoldersOf(s.files.holders, s.files.fromFh[fh])|
    ensures ptr in s.buffers.fromPtr ==>
              Uses(s.buffers.uses, s.buffers.fromPtr[ptr]) == 1 + |HoldersOf(s.buffers.holders, s.buffers.fromPtr[ptr])|
  {
    ReachableInv(events, s);
    DeregisterIffUnheld(s.files, fh, s.epoch);
    DeregisterBufferIffUnheld(s.buffers, ptr);
  }

  /** What a successful deregistration means. The handle is forgotten: the next lookup of it is refused, and its client
      descriptor can be registered again. The file has no references left, so it dies and closes its descriptors. */
  lemma DeregisteredIsForgotten(events: seq<Event>, s: State, fh: nat)
    requires Reaches(Initial(), events, s) && FileRemoved(s, fh).1.Done?
    ensures var s', o := FileRemoved(s, fh).0, s.files.fromFh[fh];
            && s'.refCount == s.refCount && s'.buffers == s.buffers && s'.ledger == s.ledger
            && (forall t, ptr, x, made :: LookedUp(s', t, fh, ptr, x, made) == (s', NotRegistered))
            && (forall t, x :: t in s'.ledger.pending && s'.ledger.pending[t].client.fd == ClientFd(s.files, o) ==>
                  FileAdded(s', t, x).1.Done?)
            && Enabled(s', FileDies(o)) && o !in Apply(s', FileDies(o)).files.objects
            && Apply(s', FileDies(o)).ledger.closeLog == s.ledger.closeLog + HeldBy(s.files.objects[o])
  {
    ReachableInv(events, s);
    DeregisterRemoves(s.files, fh, s.epoch);
    RegisteredIsAlive(s.files, fh);
  }

  /** The same for a buffer: the next registration of its pointer is not a duplicate, and a lookup makes a temporary. */
  lemma DeregisteredBufferIsForgotten(events: seq<Event>, s: State, ptr: size_t)
    requires Reaches(Initial(), events, s) && BufferRemoved(s, ptr).1.Done?
    ensures var s', o := BufferRemoved(s, ptr).0, s.buffers.fromPtr[ptr];
            && s'.refCount == s.refCount && s'.files == s.files && s'.ledger == s.ledger
            && (forall x, made :: BufferAdded(s', x, ptr, made).1 == if made.Created? then Done else Rejected)
            && Enabled(s', BufferDies(o)) && o !in Apply(s', BufferDies(o)).buffers.objects
  {
    ReachableInv(events, s);
    DeregisterBufferRemoves(s.buffers, ptr);
    RegisteredBufferIsAlive(s.buffers, ptr);
  }

  /** The last reference to a file is gone, and it dies: the object goes, exactly its own descriptors are closed, and
      nothing else changes. */
  lemma DyingFileCloses(events: seq<Event>, s: State, o: nat)
    requires Reaches(Initial(), events, s) && Enabled(s, FileDies(o))
    ensures var s' := Apply(s, FileDies(o));
            && o !in s'.files.objects && (forall x :: x != o ==> (x in s'.files.objects <==> x in s.files.objects))
            && s'.ledger.closeLog == s.ledger.closeLog + HeldBy(s.files.objects[o])
            && s'.ledger.openLog == s.ledger.openLog && s'.ledger.pending == s.ledger.pending
            && (forall fd :: fd in s'.ledger.owned <==> fd in s.ledger.owned && fd !in HeldBy(s.files.objects[o]))
            && s'.files.fromFh == s.files.fromFh && s'.files.holders == s.files.holders && s'.files.uses == s.files.uses
  {
    ReachableInv(events, s);
    assert Charged(s.ledger.owned, OfFile(o), s.files.objects[o]);
    forall fd
      ensures fd in Apply(s, FileDies(o)).ledger.owned <==> fd in s.ledger.owned && fd !in HeldBy(s.files.objects[o])
    {
      assert HeldBy(s.files.objects[o])[fd] == Share(s.ledger.owned, OfFile(o), fd);
    }
  }

  /** A constructed UnregisteredFile waits for its registration with the one descriptor the library opened for it. */
  lemma NewFileWaits(s: State, t: nat, fd: int, facts: Facts, open: Reopen)
    requires Enabled(s, NewFile(t, fd, facts, open))
    ensures var s', made := Apply(s, NewFile(t, fd, facts, open)), Unregistered(fd, facts, open);
            && (made.None? ==> s' == s)
            && (made.Some? ==>
                  && t in s'.ledger.pending && s'.ledger.pending[t] == made.value
                  && s'.ledger.openLog == s.ledger.openLog + HeldBy(made.value) && s'.ledger.closeLog == s.ledger.closeLog
                  && s'.files == s.files && s'.buffers == s.buffers && s'.refCount == s.refCount)
  {
  }

  /** An UnregisteredFile that is destroyed unregistered, after a duplicate registration say, closes what it holds. */
  lemma DiscardedFileCloses(s: State, t: nat)
    requires LedgerOk(s.ledger, s.files.objects) && Enabled(s, DiscardFile(t))
    ensures var s' := Apply(s, DiscardFile(t));
            && t !in s'.ledger.pending && (forall x :: x != t && x in s.ledger.pending ==> x in s'.ledger.pending)
            && s'.ledger.closeLog == s.ledger.closeLog + HeldBy(s.ledger.pending[t]) && s'.ledger.openLog == s.ledger.openLog
            && s'.files == s.files && s'.buffers == s.buffers && s'.refCount == s.refCount
  {
  }

  /** A successful buffer registration: the pointer is found from then on, cannot be registered twice, and can be
      deregistered. */
  lemma RegisteredBufferIsFound(events: seq<Event>, s: State, o: nat, ptr: size_t, made: BufferResult)
    requires Reaches(Initial(), events, s) && Enabled(s, AddBuffer(o, ptr, made)) && BufferAdded(s, o, ptr, made).1.Done?
    ensures var s' := BufferAdded(s, o, ptr, made).0;
            && s'.refCount > 0 && ptr in s'.buffers.fromPtr && s'.buffers.fromPtr[ptr] == o
            && s'.buffers.objects[o] == made.buffer
            && (forall x, m :: BufferAdded(s', x, ptr, m) == (s', AlreadyRegistered))
            && BufferRemoved(s', ptr).1.Done? && s'.files == s.files && s'.ledger == s.ledger
  {
    ReachableInv(events, s);
    RegisterBufferAdds(s.buffers, o, ptr, made);
  }

  /** Copying a shared reference makes a second holder of the same object. */
  lemma CopyMakesHolder(s: State, t: nat, t': nat)
    requires FilesOk(s.files, s.epoch) && Enabled(s, CopyFileRef(t, t'))
    ensures var f := Apply(s, CopyFileRef(t, t')).files;
            && t' in f.holders && f.holders[t'] == s.files.holders[t] && SameBut(s.files.holders, f.holders, t')
            && Uses(f.uses, s.files.holders[t]) == Uses(s.files.uses, s.files.holders[t]) + 1
  {
    HoldTakes(s.files, t', s.files.holders[t]);
  }

  lemma CopyMakesBufferHolder(s: State, t: nat, t': nat)
    requires BuffersOk(s.buffers) && Enabled(s, CopyBufferRef(t, t'))
    ensures var b := Apply(s, CopyBufferRef(t, t')).buffers;
            && t' in b.holders && b.holders[t'] == s.buffers.holders[t] && SameBut(s.buffers.holders, b.holders, t')
            && Uses(b.uses, s.buffers.holders[t]) == Uses(s.buffers.uses, s.buffers.holders[t]) + 1
  {
  }

  /** What a successful registration means: the handle is found from then on, until it is deregistered or the driver is
      closed, and the descriptor cannot be registered a second time. */
  lemma RegisteredIsFound(events: seq<Event>, s: State, t: nat, o: nat)
    requires Reaches(Initial(), events, s) && Enabled(s, AddFile(t, o)) && FileAdded(s, t, o).1.Done?
    ensures var s' := FileAdded(s, t, o).0;
            && s'.refCount > 0 && Handle(o) in s'.files.fromFh && s'.files.fromFh[Handle(o)] == o
            && s'.files.objects[o] == s.ledger.pending[t] && t !in s'.ledger.pending
            && (forall x :: x in s'.ledger.pending && s'.ledger.pending[x].client.fd == s.ledger.pending[t].client.fd ==>
                  FileAdded(s', x, o + 1).1 == AlreadyRegistered && FileAdded(s', x, o + 1).0 == s')
            && FileRemoved(s', Handle(o)).1.Done?
  {
    ReachableInv(events, s);
    RegisterAdds(s.files, o, s.ledger.pending[t], s.epoch);
  }

  /** The two file indexes agree in every reachable state. */
  lemma ReachableIndexesAgree(events: seq<Event>, s: State)
    requires Reaches(Initial(), events, s)
    ensures s.files.fromFd.Values == s.files.fromFh.Values
    ensures forall a, b :: a in s.files.fromFh && b in s.files.fromFh ==>
              (ClientFd(s.files, s.files.fromFh[a]) == ClientFd(s.files, s.files.fromFh[b]) <==> a == b)
    ensures forall fd :: fd in s.files.fromFd ==> ClientFd(s.files, s.files.fromFd[fd]) == fd
    ensures forall fh :: fh in s.files.fromFh ==> Handle(s.files.fromFh[fh]) == fh
  {
    ReachableInv(events, s);
    IndexesAgree(s.files, s.epoch);
  }

  /** Every descriptor the library opened has been closed at most once, and exactly once when no file is left. */
  lemma DescriptorsBalance(events: seq<Event>, s: State)
    requires Reaches(Initial(), events, s)
    ensures forall fd :: s.ledger.closeLog[fd] <= s.ledger.openLog[fd] <= s.ledger.closeLog[fd] + 1
    ensures s.files.objects == map[] && s.ledger.pending == map[] ==>
              forall fd :: s.ledger.openLog[fd] == s.ledger.closeLog[fd]
  {
    ReachableInv(events, s);
    if s.files.objects == map[] && s.ledger.pending == map[] {
      NothingOwned(s.ledger);
    }
  }

  /** Each close call is for a descriptor the library has open at that moment, and never one the client has open. */
  lemma ClosesAreOwned(s: State, e: Event, fd: int)
    requires Inv(s) && Enabled(s, e) && Apply(s, e).ledger.closeLog[fd] != s.ledger.closeLog[fd]
    ensures fd in s.ledger.owned && fd !in s.ledger.clients
    ensures Apply(s, e).ledger.closeLog[fd] == s.ledger.closeLog[fd] + 1
    ensures e.FileDies? || e.DiscardFile?
  {
    if e.FileDies? {
      assert Charged(s.ledger.owned, OfFile(e.o), s.files.objects[e.o]);
      assert HeldBy(s.files.objects[e.o])[fd] == Share(s.ledger.owned, OfFile(e.o), fd);
    } else if e.DiscardFile? {
      assert Charged(s.ledger.owned, OfPending(e.t), s.ledger.pending[e.t]);
      assert HeldBy(s.ledger.pending[e.t])[fd] == Share(s.ledger.owned, OfPending(e.t), fd);
    }
  }

  /** t holds file o, which owns fd. */
  ghost predicate HoldsOpen(s: State, t: nat, o: nat, fd: int) {
    && t in s.files.holders && s.files.holders[t] == o && o in s.files.objects
    && fd in s.ledger.owned && s.ledger.owned[fd] == OfFile(o)
  }

  /** t holds object o, which is file. */
  ghost predicate HoldsFile(f: Files, t: nat, o: nat, file: File) {
    t in f.holders && f.holders[t] == o && o in f.objects && f.objects[o] == file
  }

  lemma StepKeepsHolder(s: State, e: Event, t: nat, o: nat, file: File)
    requires Enabled(s, e) && e != DropFileRef(t) && HoldsFile(s.files, t, o, file)
    requires o in s.files.uses && o in s.files.birth
    ensures HoldsFile(Apply(s, e).files, t, o, file)
  {
    match e {
      case CloseDecrement => assert HoldsFile(ClearFiles(s.files), t, o, file);
      case AddFile(t', o') => assert HoldsFile(RegisterFile(s.files, o', s.ledger.pending[t'], s.epoch).0, t, o, file);
      case RemoveFile(fh) => assert HoldsFile(DeregisterFile(s.files, fh).0, t, o, file);
      case Lookup(t', fh, _, _, _) => assert HoldsFile(GetFile(s.files, fh, t').0, t, o, file);
      case CopyFileRef(x, t') => assert HoldsFile(Hold(s.files, t', s.files.holders[x]), t, o, file);
      case DropFileRef(t') => assert HoldsFile(DropFile(s.files, t'), t, o, file);
      case FileDies(o') => assert HoldsFile(DestroyFile(s.files, o'), t, o, file);
      case _ => assert Apply(s, e).files == s.files;
    }
  }

  lemma StepKeepsOwner(s: State, e: Event, o: nat, fd: int)
    requires LedgerOk(s.ledger, s.files.objects) && Enabled(s, e) && e != FileDies(o)
    requires fd in s.ledger.owned && s.ledger.owned[fd] == OfFile(o)
    ensures OwnedSince(Apply(s, e).ledger, o, fd, s.ledger.closeLog[fd])
  {
    var closes := s.ledger.closeLog[fd];
    match e {
      case NewFile(t, fd0, facts, open) => ConstructSpares(s.ledger, t, fd0, facts, open, o, fd, closes);
      case AddFile(t, o') => assert OwnedSince(MoveTo(s.ledger, t, o'), o, fd, closes);
      case DiscardFile(t) => CloseSpares(s.ledger, OfPending(t), s.ledger.pending[t], o, fd, closes);
      case FileDies(x) => CloseSpares(s.ledger, OfFile(x), s.files.objects[x], o, fd, closes);
      case _ => assert Apply(s, e).ledger.(clients := {}) == s.ledger.(clients := {});
    }
  }

  lemma StepKeepsOpen(s: State, e: Event, t: nat, o: nat, fd: int)
    requires Inv(s) && Enabled(s, e) && HoldsOpen(s, t, o, fd) && e != DropFileRef(t)
    ensures HoldsOpen(Apply(s, e), t, o, fd)
    ensures Apply(s, e).files.objects[o] == s.files.objects[o]
    ensures Apply(s, e).ledger.closeLog[fd] == s.ledger.closeLog[fd]
  {
    HeldIsAlive(s.files.uses, s.files.holders, s.files.fromFh.Values, FILE_WEIGHT, t);
    StepKeepsHolder(s, e, t, o, s.files.objects[o]);
    assert e != FileDies(o);
    StepKeepsOwner(s, e, o, fd);
  }

  /** Whatever else happens, deregistrations, driver closes and other holders leaving included, a file stays alive and
      its descriptors stay open until its holder lets go. */
  lemma {:induction false} HeldFileStaysOpen(s: State, events: seq<Event>, s': State, t: nat, o: nat, fd: int)
    requires Inv(s) && Reaches(s, events, s') && HoldsOpen(s, t, o, fd) && DropFileRef(t) !in events
    ensures HoldsOpen(s', t, o, fd) && s'.files.objects[o] == s.files.objects[o]
    ensures s'.ledger.closeLog[fd] == s.ledger.closeLog[fd]
    decreases |events|
  {
    if events != [] {
      assert events[0] in events;
      StepKeepsOpen(s, events[0], t, o, fd);
      StepKeepsInv(s, events[0]);
      assert forall e :: e in events[1..] ==> e in events;
      HeldFileStaysOpen(Apply(s, events[0]), events[1..], s', t, o, fd);
    }
  }

  /** The pending decrements, with nothing else in between. */
  function Decrements(n: nat): seq<Event> {
    if n == 0 then [] else [CloseDecrement] + Decrements(n - 1)
  }

  /** Letting the closes in flight finish wastes exactly the ones that outnumber the count. */
  lemma {:induction false} PendingClosesFinish(s: State, s': State)
    requires s.refCount >= 0 && Reaches(s, Decrements(s.closing), s')
    ensures s'.wasted == s.wasted + if s.closing > s.refCount then s.closing - s.refCount else 0
    decreases s.closing
  {
    if s.closing > 0 {
      var rest := Decrements(s.closing - 1);
      assert Decrements(s.closing)[0] == CloseDecrement && Decrements(s.closing)[1..] == rest;
      PendingClosesFinish(Decremented(s), s');
    }
  }

  /** A run in which no close checks the count while as many others are in flight as the count allows. */
  ghost predicate ClosesFit(s: State, events: seq<Event>)
    decreases |events|
  {
    events != [] ==>
      && (events[0] == CloseCheck && s.refCount > 0 ==> s.closing < s.refCount)
      && ClosesFit(Apply(s, events[0]), events[1..])
  }

  lemma StepKeepsFit(s: State, e: Event)
    requires Inv(s) && Enabled(s, e) && s.closing <= s.refCount
    requires e == CloseCheck && s.refCount > 0 ==> s.closing < s.refCount
    ensures Apply(s, e).closing <= Apply(s, e).refCount && Apply(s, e).wasted == s.wasted
  {
  }

  /** As long as concurrent closes stay within the count, every successful close undoes one open: the count is the
      opens minus the closes. */
  lemma {:induction false} FittingClosesAreExact(s: State, events: seq<Event>, s': State)
    requires Inv(s) && s.closing <= s.refCount && s.wasted == 0
    requires Reaches(s, events, s') && ClosesFit(s, events)
    ensures s'.closing <= s'.refCount && s'.wasted == 0
    ensures s'.refCount == s'.acquired - s'.closes
    decreases |events|
  {
    if events != [] {
      StepKeepsFit(s, events[0]);
      StepKeepsInv(s, events[0]);
      FittingClosesAreExact(Apply(s, events[0]), events[1..], s');
    }
  }

  /** Checking and decrementing under separate locks is observable: after one open two overlapping closes both report
      success, and if a new open comes in between, the second close takes the new open's reference away. */
  lemma OverlappingClosesStealAnOpen(s: State)
    requires s == Initial()
    ensures var both := [DriverOpen, CloseCheck, CloseCheck, CloseDecrement, CloseDecrement];
            Reaches(s, both, After(s, both)) && After(s, both).closes == 2 && After(s, both).acquired == 1
    ensures var stolen := [DriverOpen, CloseCheck, CloseCheck, CloseDecrement, DriverOpen, CloseDecrement];
            Reaches(s, stolen, After(s, stolen)) && After(s, stolen).refCount == 0 && After(s, stolen).wasted == 0
  {
    var opened1 := Apply(s, DriverOpen);
    var checked := Apply(Apply(opened1, CloseCheck), CloseCheck);
    var closed1 := Apply(checked, CloseDecrement);
    assert checked.refCount == 1 && checked.closing == 2 && closed1.refCount == 0 && closed1.closing == 1;
    var both := [DriverOpen, CloseCheck, CloseCheck, CloseDecrement, CloseDecrement];
    var stolen := [DriverOpen, CloseCheck, CloseCheck, CloseDecrement, DriverOpen, CloseDecrement];
    assert both[1..] == [CloseCheck, CloseCheck, CloseDecrement, CloseDecrement];
    assert both[1..][1..] == [CloseCheck, CloseDecrement, CloseDecrement];
    assert both[1..][1..][1..] == [CloseDecrement, CloseDecrement];
    assert both[1..][1..][1..][1..] == [CloseDecrement];
  }

  function After(s: State, events: seq<Event>): State
    decreases |events|
  {
    if events == [] then s else After(Apply(s, events[0]), events[1..])
  }
}
