/** The operation object itself: construction, binding and the CPU copy loop, against the stage functions. */
module AsyncOpFallback {
  import opened Memory
  import opened Posix
  import opened Device
  import opened Fallback
  import opened AsyncOp

  /** cur is f with the first `done` bytes of data written at off. */
  ghost predicate Wrote(f: seq<byte>, cur: seq<byte>, off: nat, data: seq<byte>, done: nat) {
    done <= |data| && cur == FileWrite(f, off, data[..done])
  }

  lemma WriteGrows(f: seq<byte>, cur: seq<byte>, next: seq<byte>, off: nat, data: seq<byte>, done: nat, part: seq<byte>)
    requires Wrote(f, cur, off, data, done) && done + |part| <= |data| && part == data[done..done + |part|]
    requires next == FileWrite(cur, off + done, part)
    ensures Wrote(f, next, off, data, done + |part|)
  {
    assert data[..done] + part == data[..done + |part|];
    FileWriteAppend(f, off, data[..done], part);
  }

  /** A copy fails exactly when one call failed for good: the record of failures grew by that one. */
  ghost predicate FailedOnce(failed: bool, e0: seq<int>, e1: seq<int>) {
    if failed then |e1| == |e0| + 1 && e1[..|e0|] == e0 else e1 == e0
  }

  class Operation {
    const kind: IoType
    const fileId: nat
    const buffer: Buffer
    const submittedSize: nat
    const bounce: array<byte>
    var size: Param
    var fileOffset: Param
    var bufferOffset: Param
    var internal: int
    var held: bool
    var reported: int

    ghost function Snapshot(): Op
      reads this, bounce
    {
      Op(kind, fileId, buffer, submittedSize, size, fileOffset, bufferOffset, internal, bounce[..], held, reported)
    }

    constructor (kind: IoType, fileId: nat, b: Buffer, flags: Flags, vars: Vars, maxRw: nat)
      ensures bounce.Length == Min(vars.size, maxRw) && fresh(bounce)
      ensures Snapshot() == NewOp(kind, fileId, b, flags, vars, maxRw, bounce[..])
      ensures size == if flags.size then Fixed(vars.size) else Late
      ensures fileOffset == if flags.fileOffset then Fixed(vars.fileOffset) else Late
      ensures bufferOffset == if flags.bufferOffset then Fixed(vars.bufferOffset) else Late
    {
      this.kind, this.fileId, buffer := kind, fileId, b;
      size := ParamOf(flags.size, vars.size);
      fileOffset := ParamOf(flags.fileOffset, vars.fileOffset);
      bufferOffset := ParamOf(flags.bufferOffset, vars.bufferOffset);
      submittedSize := Min(vars.size, maxRw);
      internal, held, reported := 0, true, 0;
      bounce := new byte[Min(vars.size, maxRw)];
    }

    /** async_io_bind_params: binds all three parameters, then checks them. */
    method Bind(vars: Vars, maxRw: nat)
      modifies this
      ensures Snapshot() == BindParams(old(Snapshot()), vars, maxRw)
    {
      bufferOffset := Fixed(Resolve(bufferOffset, vars.bufferOffset));
      fileOffset := Fixed(Resolve(fileOffset, vars.fileOffset));
      size := Fixed(Min(Resolve(size, vars.size), maxRw));
      if size.v > submittedSize {
        internal := -INVALID_VALUE;
        return;
      }
      if !Representable(size.v, fileOffset.v, bufferOffset.v)
         || !ParamsValid(buffer, size.v, fileOffset.v, bufferOffset.v)
      {
        internal := -INVALID_VALUE;
      }
    }

    /** async_io_cpu_copy. The environment's choices are returned as env; whatever they are, the loop does what
        CpuCopyStep says of them. It fails exactly when a system call does, for another reason than an interruption. */
    method CpuCopy(file: OpenFile) returns (ghost env: Env)
      requires file.Valid() && held && size.Fixed? && fileOffset.Fixed?
      requires internal >= 0 ==> 0 <= fileOffset.v <= MAX_HOFF && 0 <= size.v <= bounce.Length
      modifies this`internal, bounce, file
      ensures file.Valid()
      ensures View(Snapshot(), file.contents, [], false)
           == CpuCopyStep(old(View(Snapshot(), file.contents, [], false)), env)
      ensures FailedOnce(env.fails, old(file.errors), file.errors)
      ensures kind == Write && !env.fails && internal < size.v && old(internal) >= 0 ==> file.stalls < old(file.stalls)
    {
      env := Env(Vars(0, 0, 0), 0, false);
      if internal < 0 { return; }
      var done, failed;
      if kind == Read {
        done, failed := ReadAll(file, fileOffset.v, size.v);
      } else {
        done, failed := WriteAll(file, fileOffset.v, size.v);
      }
      env := Env(Vars(0, 0, 0), done, failed);
      internal := if failed then -1 else done;
    }

    /** One pread, or its interruption. */
    method ReadOnce(file: OpenFile, off: nat, done: nat, size: nat, ghost b0: seq<byte>) returns (r: ChunkResult)
      requires file.Valid() && off + done <= MAX_HOFF && done <= size <= bounce.Length
      requires Copied(b0, bounce[..], 0, file.contents, off, done)
      modifies bounce, file`interrupts, file`errors
      ensures file.interrupts <= old(file.interrupts)
      ensures r.Interrupted? ==> file.interrupts < old(file.interrupts)
      ensures Blamed(RaisedIn(r), old(file.errors), file.errors, 0, 0)
      ensures r.Chunk? ==> r.n <= size - done && (r.n == 0 ==> done == size || done == Avail(file.contents, off))
      ensures Copied(b0, bounce[..], 0, file.contents, off, if r.Chunk? then done + r.n else done)
    {
      ghost var mid := bounce[..];
      var io := file.Pread(bounce, done, size - done, off + done);
      r := Classify(io);
      if r.Chunk? {
        CopiedGrows(b0, mid, bounce[..], 0, file.contents, off, done, Slice(file.contents, off + done, r.n));
      }
    }

    method ReadAll(file: OpenFile, off: nat, size: nat) returns (done: nat, failed: bool)
      requires file.Valid() && off <= MAX_HOFF && size <= bounce.Length
      modifies bounce, file`interrupts, file`errors
      ensures FailedOnce(failed, old(file.errors), file.errors)
      ensures done <= Min(size, Avail(file.contents, off))
      ensures !failed ==> done == Min(size, Avail(file.contents, off))
      ensures Copied(old(bounce[..]), bounce[..], 0, file.contents, off, done)
    {
      done, failed := 0, false;
      ghost var b0 := bounce[..];
      PutEmpty(b0, 0);
      while done < size
        invariant file.Valid() && !failed && done <= size && file.errors == old(file.errors)
        invariant Copied(b0, bounce[..], 0, file.contents, off, done)
        decreases size - done, file.interrupts
      {
        var io := ReadOnce(file, off, done, size, b0);
        match io
        case Interrupted => continue;
        case Failed(_) => return done, true;
        case Chunk(n) =>
          if n == 0 { break; }
          done := done + n;
      }
    }

    /** One pwrite, or its interruption. */
    method WriteOnce(file: OpenFile, off: nat, done: nat, size: nat, ghost f: seq<byte>, ghost data: seq<byte>)
      returns (r: ChunkResult)
      requires file.Valid() && off + done <= MAX_HOFF && done <= size <= bounce.Length && bounce[..] == data
      requires Wrote(f, file.contents, off, data, done)
      modifies file
      ensures file.Valid() && file.interrupts <= old(file.interrupts) && file.stalls <= old(file.stalls)
      ensures r.Interrupted? ==> file.interrupts < old(file.interrupts)
      ensures Blamed(RaisedIn(r), old(file.errors), file.errors, 0, 0)
      ensures r.Chunk? ==> r.n <= size - done
      ensures r == Chunk(0) && done < size ==> file.stalls < old(file.stalls)
      ensures Wrote(f, file.contents, off, data, if r.Chunk? then done + r.n else done)
    {
      ghost var cur := file.contents;
      var io := file.Pwrite(bounce, done, size - done, off + done);
      r := Classify(io);
      if r.Chunk? {
        ghost var part := bounce[done..done + r.n];
        assert part == data[done..done + |part|];
        WriteGrows(f, cur, file.contents, off, data, done, part);
      }
    }

    method WriteAll(file: OpenFile, off: nat, size: nat) returns (done: nat, failed: bool)
      requires file.Valid() && off <= MAX_HOFF && size <= bounce.Length
      modifies file
      ensures file.Valid() && done <= size && FailedOnce(failed, old(file.errors), file.errors)
      ensures !failed && done < size ==> file.stalls < old(file.stalls)
      ensures Wrote(old(file.contents), file.contents, off, bounce[..], done)
    {
      done, failed := 0, false;
      ghost var f, data := file.contents, bounce[..];
      while done < size
        invariant file.Valid() && !failed && done <= size && file.stalls <= old(file.stalls) && bounce[..] == data
        invariant file.errors == old(file.errors)
        invariant Wrote(f, file.contents, off, data, done)
        decreases size - done, file.interrupts
      {
        var io := WriteOnce(file, off, done, size, f, data);
        match io
        case Interrupted => continue;
        case Failed(_) => return done, true;
        case Chunk(n) =>
          if n == 0 { break; }
          done := done + n;
      }
    }
  }

  /** How a call to async_io begins: refused, with nothing to do, or with a new operation. */
  datatype Start = Refused | Nothing | Started

  /** The part of async_io before anything is launched. The buffer must be on the stream's device. */
  method BeginAsyncIo(kind: IoType, fileId: nat, b: Buffer, device: int, flags: Flags, vars: Vars, maxRw: nat)
    returns (start: Start, op: Operation?)
    ensures start.Refused? <==>
            !ParamsValid(b, Min(vars.size, maxRw), vars.fileOffset, vars.bufferOffset) || b.gpuId != device
    ensures start.Nothing? <==> !start.Refused? && vars.size == 0
    ensures op != null <==> start.Started?
    ensures op != null ==>
              && fresh(op) && op.bounce.Length == Min(vars.size, maxRw)
              && op.Snapshot() == NewOp(kind, fileId, b, flags, vars, maxRw, op.bounce[..])
  {
    if !SubmitOk(b, maxRw, vars) { return Refused, null; }
    if b.gpuId != device { return Refused, null; }
    if vars.size == 0 { return Nothing, null; }
    op := new Operation(kind, fileId, b, flags, vars, maxRw);
    return Started, op;
  }
}
