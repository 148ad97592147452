/** Contracts of the system calls the transfer engine uses. A file is a byte sequence of at most 2^63-1 bytes.
    Transfers may be short; reading zero bytes of a non-zero request means end of file (POSIX.1-2017, read()).
    EINTR arrives finitely often (interrupts), and so do writes that move nothing (stalls). A call that fails moves
    nothing; every failure other than EINTR is recorded (errors). Written data is dirty until it has been flushed. */
module Posix {
  import opened Memory

  const EINTR := 4
  const ENOMEM := 12
  const ENODEV := 19
  const EINVAL := 22
  const EFBIG := 27
  const EREMOTEIO := 121

  datatype SysResult = Moved(n: nat) | Errno(code: int)

  /** What a call adds to the record of failures. */
  function Hard(r: SysResult): seq<int> {
    if r.Errno? && r.code != EINTR then [r.code] else []
  }

  class OpenFile {
    var contents: seq<byte>
    var interrupts: nat
    var stalls: nat
    var errors: seq<int>
    var dirty: bool

    ghost predicate Valid()
      reads this
    {
      |contents| <= MAX_HOFF
    }

    /** A call fails in one of the two ways, or goes on. */
    method Fate() returns (r: SysResult)
      modifies this`interrupts, this`errors
      ensures interrupts <= old(interrupts) && errors == old(errors) + Hard(r)
      ensures r.Errno? && r.code == EINTR ==> interrupts < old(interrupts)
    {
      var fate, code: int := *, *;
      if fate == 1 && interrupts > 0 {
        interrupts := interrupts - 1;
        return Errno(EINTR);
      }
      if fate == 2 && code != EINTR {
        errors := errors + [code];
        return Errno(code);
      }
      return Moved(0);
    }

    method Pread(buf: array<byte>, at: nat, count: nat, offset: nat) returns (r: SysResult)
      requires Valid() && at + count <= buf.Length && offset <= MAX_HOFF
      modifies this`interrupts, this`errors, buf
      ensures r.Errno? && r.code == EINTR ==> interrupts < old(interrupts)
      ensures interrupts <= old(interrupts) && errors == old(errors) + Hard(r)
      ensures r.Errno? ==> buf[..] == old(buf[..])
      ensures r.Moved? ==>
                && r.n <= Min(count, Avail(contents, offset))
                && (r.n == 0 ==> count == 0 || Avail(contents, offset) == 0)
                && buf[..] == Put(old(buf[..]), at, Slice(contents, offset, r.n))
    {
      r := Fate();
      if r.Errno? { return; }
      var most := Min(count, Avail(contents, offset));
      var n: nat :| n <= most && (most > 0 ==> n > 0);
      forall i | 0 <= i < n { buf[at + i] := contents[offset + i]; }
      return Moved(n);
    }

    method Pwrite(buf: array<byte>, at: nat, count: nat, offset: nat) returns (r: SysResult)
      requires Valid() && at + count <= buf.Length && offset <= MAX_HOFF
      modifies this
      ensures Valid()
      ensures interrupts <= old(interrupts) && stalls <= old(stalls) && errors == old(errors) + Hard(r)
      ensures r.Errno? ==> contents == old(contents) && dirty == old(dirty)
      ensures r.Errno? && r.code == EINTR ==> interrupts < old(interrupts)
      ensures r.Moved? ==>
                && dirty && r.n <= count
                && (r.n == 0 && count > 0 ==> stalls < old(stalls))
                && contents == FileWrite(old(contents), offset, buf[at..at + r.n])
    {
      r := Fate();
      if r.Errno? { return; }
      var stalled: bool := *;
      if stalled && stalls > 0 {
        stalls := stalls - 1;
        dirty := true;
        return Moved(0);
      }
      var most := Min(count, MAX_HOFF - offset);
      if most == 0 && count > 0 {
        errors := errors + [EFBIG];
        return Errno(EFBIG);
      }
      var n: nat :| n <= most && (most > 0 ==> n > 0);
      contents := FileWrite(contents, offset, buf[at..at + n]);
      dirty := true;
      return Moved(n);
    }

    /** Flushes to the device; may be interrupted after the data has already been written. */
    method Fdatasync() returns (r: SysResult)
      modifies this`interrupts, this`errors, this`dirty
      ensures interrupts <= old(interrupts) && errors == old(errors) + Hard(r)
      ensures r.Errno? && r.code == EINTR ==> interrupts < old(interrupts)
      ensures dirty == (r.Errno? && old(dirty))
    {
      r := Fate();
      if r.Moved? { dirty := false; }
    }
  }

  /** An anonymous private mapping: refused for length zero, and when the system has no memory for it. */
  method Mmap(length: nat, memory: bool) returns (mapping: array?<byte>, code: int)
    ensures mapping == null <==> length == 0 || !memory
    ensures mapping == null ==> code == if length == 0 then EINVAL else ENOMEM
    ensures mapping != null ==> fresh(mapping) && mapping.Length == length
  {
    code := EINVAL;
    if length == 0 { return null, EINVAL; }
    if !memory { return null, ENOMEM; }
    mapping := new byte[length];
  }
}
