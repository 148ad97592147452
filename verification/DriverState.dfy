/** FileMap, BufferMap and DriverState as objects whose methods update their fields in place. Each method is proved to
    be the corresponding step of the Driver machine. */
module DriverState {
  import opened Memory
  import opened Device
  import opened Descriptor
  import opened RefCounts
  import R = FileRegistry
  import B = BufferRegistry
  import D = Driver

  /** Clearing a map drops one reference for each entry. */
  method DropEntries(entries: set<nat>, uses: map<nat, nat>) returns (after: map<nat, nat>)
    requires forall o :: o in uses ==> uses[o] > 0
    ensures after == ReleaseAll(uses, entries, 1)
  {
    var left := entries;
    after := uses;
    while left != {}
      invariant left <= entries
      invariant forall o :: o in after ==> after[o] > 0
      invariant forall o :: Uses(after, o) ==
                  if o in entries && o !in left && Uses(uses, o) > 0 then Uses(uses, o) - 1 else Uses(uses, o)
      decreases |left|
    {
      var o :| o in left;
      ghost var before := after;
      after := Release(after, o, 1);
      forall x
        ensures Uses(after, x) == if x == o && Uses(before, x) > 0 then Uses(before, x) - 1 else Uses(before, x)
      {
        ReleaseUses(before, o, 1, x);
      }
      left := left - {o};
    }
    SameUses(after, ReleaseAll(uses, entries, 1));
  }

  /** Use counts without zero entries are determined by what they count. */
  lemma SameUses(a: map<nat, nat>, b: map<nat, nat>)
    requires (forall o :: o in a ==> a[o] > 0) && (forall o :: o in b ==> b[o] > 0)
    requires forall o :: Uses(a, o) == Uses(b, o)
    ensures a == b
  {
    assert forall o :: o in a <==> Uses(a, o) > 0;
    assert forall o :: o in b <==> Uses(b, o) > 0;
  }

  lemma ReleaseAllTwice(uses: map<nat, nat>, entries: set<nat>)
    requires forall o :: o in uses ==> uses[o] > 0
    requires forall o :: o in entries ==> Uses(uses, o) >= 2
    ensures ReleaseAll(ReleaseAll(uses, entries, 1), entries, 1) == ReleaseAll(uses, entries, 2)
  {
  }

  class FileMap {
    var fromFd: map<int, nat>
    var fromFh: map<nat, nat>
    /** The File objects, their use counts and the references held elsewhere. */
    var objects: map<nat, File>
    var uses: map<nat, nat>
    var holders: map<nat, nat>
    ghost var birth: map<nat, nat>

    constructor ()
      ensures View() == R.Files(map[], map[], map[], map[], map[], map[])
    {
      fromFd, fromFh, objects, uses, holders, birth := map[], map[], map[], map[], map[], map[];
    }

    ghost function View(): R.Files
      reads this
    {
      R.Files(fromFd, fromFh, objects, uses, holders, birth)
    }

    method Register(o: nat, file: File, ghost epoch: nat) returns (r: R.Outcome)
      requires o !in uses
      modifies this
      ensures (View(), r) == R.RegisterFile(old(View()), o, file, epoch)
    {
      if file.client.fd in fromFd { return R.AlreadyRegistered; }
      objects := objects[o := file];
      birth := birth[o := epoch];
      uses := Acquire(uses, o, 1);
      fromFd := fromFd[file.client.fd := o];
      uses := Acquire(uses, o, 1);
      fromFh := fromFh[R.Handle(o) := o];
      ReleaseUndoesAcquire(uses, o);
      uses := Acquire(uses, o, 1);
      uses := Release(uses, o, 1);
      assert uses == Acquire(old(uses), o, 2);
      return R.Done;
    }

    method Deregister(fh: nat) returns (r: R.Outcome)
      requires fh in fromFh ==> fromFh[fh] in objects && Uses(uses, fromFh[fh]) >= 2
      modifies this
      ensures (View(), r) == R.DeregisterFile(old(View()), fh)
    {
      if fh !in fromFh { return R.NotRegistered; }
      var o := fromFh[fh];
      if 2 < Uses(uses, o) { return R.Outstanding; }
      fromFd := R.Minus(fromFd, objects[o].client.fd);
      uses := Release(uses, o, 1);
      fromFh := R.Minus(fromFh, fh);
      uses := Release(uses, o, 1);
      assert uses == Release(old(uses), o, 2);
      return R.Done;
    }

    method Get(fh: nat, t: nat) returns (r: R.Outcome)
      modifies this
      ensures (View(), r) == R.GetFile(old(View()), fh, t)
    {
      if fh !in fromFh { return R.NotRegistered; }
      holders := holders[t := fromFh[fh]];
      uses := Acquire(uses, fromFh[fh], 1);
      return R.Done;
    }

    method Drop(t: nat)
      requires t in holders
      modifies this
      ensures View() == R.DropFile(old(View()), t)
    {
      uses := Release(uses, holders[t], 1);
      holders := Without(holders, t);
    }

    method Clear(ghost epoch: nat)
      requires R.FilesOk(View(), epoch)
      modifies this
      ensures View() == R.ClearFiles(old(View()))
    {
      R.IndexesAgree(View(), epoch);
      ReleaseAllTwice(uses, fromFh.Values);
      uses := DropEntries(fromFd.Values, uses);
      fromFd := map[];
      uses := DropEntries(fromFh.Values, uses);
      fromFh := map[];
    }
  }

  class BufferMap {
    var fromPtr: map<size_t, nat>
    var objects: map<nat, Buffer>
    var uses: map<nat, nat>
    var holders: map<nat, nat>
    ghost var known: set<nat>

    constructor ()
      ensures View() == B.Buffers(map[], map[], map[], map[], {})
    {
      fromPtr, objects, uses, holders, known := map[], map[], map[], map[], {};
    }

    ghost function View(): B.Buffers
      reads this
    {
      B.Buffers(fromPtr, objects, uses, holders, known)
    }

    method Register(o: nat, ptr: size_t, made: BufferResult) returns (r: R.Outcome)
      modifies this
      ensures (View(), r) == B.RegisterBuffer(old(View()), o, ptr, made)
    {
      if ptr in fromPtr { return R.AlreadyRegistered; }
      if !made.Created? { return R.Rejected; }
      objects := objects[o := made.buffer];
      known := known + {o};
      uses := Acquire(uses, o, 1);
      fromPtr := fromPtr[ptr := o];
      return R.Done;
    }

    method Deregister(ptr: size_t) returns (r: R.Outcome)
      modifies this
      ensures (View(), r) == B.DeregisterBuffer(old(View()), ptr)
    {
      if ptr !in fromPtr { return R.NotRegistered; }
      if 1 < Uses(uses, fromPtr[ptr]) { return R.Outstanding; }
      uses := Release(uses, fromPtr[ptr], 1);
      fromPtr := R.Minus(fromPtr, ptr);
      return R.Done;
    }

    method Get(ptr: size_t, t: nat, o: nat, made: BufferResult) returns (r: R.Outcome)
      modifies this
      ensures (View(), r) == B.GetBuffer(old(View()), ptr, t, o, made)
    {
      if ptr in fromPtr {
        holders := holders[t := fromPtr[ptr]];
        uses := Acquire(uses, fromPtr[ptr], 1);
        return R.Done;
      }
      if !made.Created? { return R.Rejected; }
      objects := objects[o := made.buffer];
      known := known + {o};
      holders := holders[t := o];
      uses := Acquire(uses, o, 1);
      return R.Done;
    }

    method Drop(t: nat)
      requires t in holders
      modifies this
      ensures View() == B.DropBuffer(old(View()), t)
    {
      uses := Release(uses, holders[t], 1);
      holders := Without(holders, t);
    }

    /** A buffer whose last reference is gone is destroyed. */
    method Destroy(o: nat)
      requires o !in uses
      modifies this
      ensures View() == B.DestroyBuffer(old(View()), o)
    {
      objects := R.Minus(objects, o);
    }

    method Clear()
      requires B.BuffersOk(View())
      modifies this
      ensures View() == B.ClearBuffers(old(View()))
    {
      uses := DropEntries(fromPtr.Values, uses);
      fromPtr := map[];
    }
  }

  class DriverState {
    var refCount: int
    const files: FileMap
    const buffers: BufferMap

    constructor ()
      ensures Models(D.Initial()) && fresh(files) && fresh(buffers)
    {
      refCount := 0;
      files := new FileMap();
      buffers := new BufferMap();
    }

    /** The fields as the machine has them. */
    ghost predicate Models(s: D.State)
      reads this, files, buffers
    {
      refCount == s.refCount && files.View() == s.files && buffers.View() == s.buffers
    }

    method IncrRefCount(ghost s: D.State)
      requires Models(s)
      modifies this
      ensures Models(D.Apply(s, D.DriverOpen))
    {
      refCount := refCount + 1;
    }

    method EnsureInitialized(ghost s: D.State)
      requires Models(s)
      modifies this
      ensures Models(D.Apply(s, D.EnsureInit))
    {
      if refCount == 0 { refCount := refCount + 1; }
    }

    /** Reports whether the closing throw for a negative count was reached: it never is. */
    method DecrRefCount(ghost s: D.State) returns (negative: bool)
      requires Models(s) && D.Inv(s)
      modifies this, files, buffers
      ensures Models(D.Apply(s, D.CloseDecrement))
      ensures !negative
    {
      if refCount > 0 { refCount := refCount - 1; }
      if refCount == 0 {
        buffers.Clear();
        files.Clear(s.epoch);
      }
      return refCount < 0;
    }

    method RegisterFile(o: nat, file: File, t: nat, ghost s: D.State) returns (r: R.Outcome)
      requires Models(s) && D.Inv(s) && t in s.ledger.pending && file == s.ledger.pending[t] && o !in s.files.birth
      modifies this, files
      ensures Models(D.Apply(s, D.AddFile(t, o))) && r == D.FileAdded(s, t, o).1
    {
      if refCount == 0 { refCount := refCount + 1; }
      r := files.Register(o, file, s.epoch);
    }

    method DeregisterFile(fh: nat, ghost s: D.State) returns (r: R.Outcome)
      requires Models(s) && D.Inv(s)
      modifies this, files
      ensures Models(D.Apply(s, D.RemoveFile(fh))) && r == D.FileRemoved(s, fh).1
    {
      if refCount == 0 { return R.NotInitialized; }
      if fh in files.fromFh { RegisteredCount(s, fh); }
      r := files.Deregister(fh);
    }

    method RegisterBuffer(o: nat, ptr: size_t, made: BufferResult, ghost s: D.State) returns (r: R.Outcome)
      requires Models(s)
      modifies this, buffers
      ensures Models(D.Apply(s, D.AddBuffer(o, ptr, made))) && r == D.BufferAdded(s, o, ptr, made).1
    {
      if refCount == 0 { refCount := refCount + 1; }
      r := buffers.Register(o, ptr, made);
    }

    method DeregisterBuffer(ptr: size_t, ghost s: D.State) returns (r: R.Outcome)
      requires Models(s)
      modifies this, buffers
      ensures Models(D.Apply(s, D.RemoveBuffer(ptr))) && r == D.BufferRemoved(s, ptr).1
    {
      if refCount == 0 { return R.NotInitialized; }
      r := buffers.Deregister(ptr);
    }

    /** Both references or none: a buffer that cannot be made gives the file reference back. */
    method GetFileAndBuffer(fh: nat, ptr: size_t, t: nat, o: nat, made: BufferResult, ghost s: D.State)
      returns (r: R.Outcome)
      requires Models(s) && t !in s.files.holders && (forall x :: x in s.files.uses ==> s.files.uses[x] > 0)
      modifies this, files, buffers
      ensures Models(D.Apply(s, D.Lookup(t, fh, ptr, o, made))) && r == D.LookedUp(s, t, fh, ptr, o, made).1
    {
      if refCount == 0 { return R.NotInitialized; }
      r := files.Get(fh, t);
      if !r.Done? { return; }
      r := buffers.Get(ptr, t, o, made);
      if !r.Done? {
        R.DropUndoesGet(s.files, fh, t);
        files.Drop(t);
      }
    }
  }

  lemma RegisteredCount(s: D.State, fh: nat)
    requires D.Inv(s) && fh in s.files.fromFh
    ensures s.files.fromFh[fh] in s.files.objects && Uses(s.files.uses, s.files.fromFh[fh]) >= 2
  {
    R.RegisteredIsAlive(s.files, fh);
    assert s.files.fromFh[fh] in s.files.fromFh.Values;
  }
}
