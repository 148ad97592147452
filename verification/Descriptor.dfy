/** Descriptor ownership: FileDescriptor objects that are moved, assigned and destroyed, and the files made of them. */
module Descriptor {
  datatype Option<T> = None | Some(value: T)

  /** The value of a FileDescriptor. */
  datatype Fd = Fd(fd: int, managed: bool)

  /** The descriptors that destroying a FileDescriptor closes. */
  function Held(d: Fd): multiset<int> {
    if d.managed && d.fd != -1 then multiset{d.fd} else multiset{}
  }

  /** The three descriptors and the direct I/O alignments of an unregistered or registered file. */
  datatype File = File(client: Fd, buffered: Fd, unbuffered: Option<Fd>, memAlign: nat, offsetAlign: nat)

  function HeldBy(f: File): multiset<int> {
    Held(f.client) + Held(f.buffered) + (if f.unbuffered.Some? then Held(f.unbuffered.value) else multiset{})
  }

  /** Result of opening the file again through /proc/self/fd, with the opposite O_DIRECT flag. */
  datatype Reopen = Opened(fd: nat) | OpenFailed(einval: bool)

  /** What statx knows of direct I/O alignments. */
  datatype DioAlign = Unknown | Known(mem: nat, offset: nat)

  const DEFAULT_ALIGN: nat := 4096

  function MemAlign(a: DioAlign): nat { if a.Known? then a.mem else DEFAULT_ALIGN }
  function OffsetAlign(a: DioAlign): nat { if a.Known? then a.offset else DEFAULT_ALIGN }

  /** What the member initialisers learn from statx, fcntl and the mount table; any of the three may throw. direct: the
      client opened the file with O_DIRECT. */
  datatype Facts = Unavailable | Facts(direct: bool, align: DioAlign)

  /** The file that registering a client descriptor starts from, or None when the constructor throws. Nothing is opened
      before the facts are known. Only the direct open may fail with EINVAL: then there is no unbuffered descriptor and
      both alignments are zero. */
  function Unregistered(fd: int, facts: Facts, open: Reopen): (f: Option<File>)
    ensures f.None? <==> facts.Unavailable? || (open.OpenFailed? && (facts.direct || !open.einval))
    ensures f.Some? ==> f.value.client == Fd(fd, false)
    ensures f.Some? ==> HeldBy(f.value) == if open.Opened? then multiset{open.fd} else multiset{}
    ensures f.Some? && f.value.unbuffered.None? ==> f.value.memAlign == 0 && f.value.offsetAlign == 0
    ensures f.Some? && f.value.unbuffered.Some? ==>
              && f.value.memAlign == (if facts.align.Known? then facts.align.mem else 4096)
              && f.value.offsetAlign == (if facts.align.Known? then facts.align.offset else 4096)
    ensures f.Some? && facts.direct ==> f.value.unbuffered == Some(Fd(fd, false)) && f.value.buffered.managed
    ensures f.Some? && !facts.direct ==> f.value.buffered == Fd(fd, false)
  {
    if facts.Unavailable? then None
    else match open
    case Opened(other) =>
      if facts.direct then
        Some(File(Fd(fd, false), Fd(other, true), Some(Fd(fd, false)), MemAlign(facts.align), OffsetAlign(facts.align)))
      else
        Some(File(Fd(fd, false), Fd(fd, false), Some(Fd(other, true)), MemAlign(facts.align), OffsetAlign(facts.align)))
    case OpenFailed(einval) =>
      if facts.direct || !einval then None else Some(File(Fd(fd, false), Fd(fd, false), None, 0, 0))
  }

  lemma Regroup(closed: multiset<int>, a: multiset<int>, b: multiset<int>, c: multiset<int>)
    ensures closed + c + b + a == closed + (a + b + c)
  {
  }

  /** The process's close calls. */
  class Process {
    var closed: multiset<int>

    constructor ()
      ensures closed == multiset{}
    {
      closed := multiset{};
    }

    method Close(fd: int)
      modifies this
      ensures closed == old(closed) + multiset{fd}
    {
      closed := closed + multiset{fd};
    }
  }

  class FileDescriptor {
    var fd: int
    var managed: bool

    constructor (fd: int, managed: bool)
      ensures Value() == Fd(fd, managed)
    {
      this.fd, this.managed := fd, managed;
    }

    function Value(): Fd
      reads this
    {
      Fd(fd, managed)
    }

    /** Move construction: the source gives up its descriptor. */
    constructor Move(other: FileDescriptor)
      modifies other
      ensures Value() == old(other.Value()) && other.Value() == Fd(-1, false)
      ensures Held(Value()) + Held(other.Value()) == old(Held(other.Value()))
    {
      fd, managed := other.fd, other.managed;
      new;
      other.fd := -1;
      other.managed := false;
    }

    /** Move assignment closes what the target held; assigning an object to itself changes nothing. Descriptors held
        and closed are conserved. */
    method Assign(other: FileDescriptor, process: Process)
      modifies this, other, process
      ensures other == this ==> Value() == old(Value()) && process.closed == old(process.closed)
      ensures other != this ==>
                && Value() == old(other.Value()) && other.Value() == Fd(-1, false)
                && process.closed == old(process.closed + Held(Value()))
                && Held(Value()) + Held(other.Value()) + process.closed ==
                     old(Held(Value()) + Held(other.Value()) + process.closed)
    {
      if this != other {
        if managed && fd != -1 { process.Close(fd); }
        fd, managed := other.fd, other.managed;
        other.fd := -1;
        other.managed := false;
      }
    }

    method Destroy(process: Process)
      modifies this, process
      ensures Value() == Fd(-1, false) && process.closed == old(process.closed + Held(Value()))
    {
      if managed && fd != -1 { process.Close(fd); }
      managed := false;
      fd := -1;
    }
  }

  /** An UnregisteredFile or a File as objects: descriptors of its own, the unbuffered one optional. */
  class FileObject {
    const client: FileDescriptor
    const buffered: FileDescriptor
    const unbuffered: FileDescriptor
    var hasUnbuffered: bool
    var memAlign: nat
    var offsetAlign: nat

    ghost predicate Valid() {
      client != buffered && client != unbuffered && buffered != unbuffered
    }

    function Value(): File
      reads this, client, buffered, unbuffered
    {
      File(client.Value(), buffered.Value(), if hasUnbuffered then Some(unbuffered.Value()) else None,
           memAlign, offsetAlign)
    }

    /** Members before the constructor's body runs. */
    constructor (fd: int, align: DioAlign)
      ensures Valid() && Value() == File(Fd(fd, false), Fd(-1, false), None, MemAlign(align), OffsetAlign(align))
      ensures unbuffered.Value() == Fd(-1, false)
      ensures fresh(client) && fresh(buffered) && fresh(unbuffered)
    {
      client := new FileDescriptor(fd, false);
      buffered := new FileDescriptor(-1, false);
      unbuffered := new FileDescriptor(-1, false);
      hasUnbuffered := false;
      memAlign, offsetAlign := MemAlign(align), OffsetAlign(align);
    }

    /** A File takes over an UnregisteredFile's descriptors; the moved-from object is left holding none. */
    constructor Move(uf: FileObject)
      requires uf.Valid()
      modifies uf.client, uf.buffered, uf.unbuffered
      ensures Valid() && Value() == old(uf.Value())
      ensures fresh(client) && fresh(buffered) && fresh(unbuffered)
      ensures HeldBy(uf.Value()) == multiset{}
    {
      client := new FileDescriptor.Move(uf.client);
      buffered := new FileDescriptor.Move(uf.buffered);
      unbuffered := new FileDescriptor.Move(uf.unbuffered);
      hasUnbuffered := uf.hasUnbuffered;
      memAlign, offsetAlign := uf.memAlign, uf.offsetAlign;
    }

    method Destroy(process: Process)
      requires Valid()
      modifies client, buffered, unbuffered, process
      ensures process.closed == old(process.closed) + HeldBy(old(Value()))
      ensures client.Value() == buffered.Value() == Fd(-1, false)
      ensures hasUnbuffered ==> unbuffered.Value() == Fd(-1, false)
    {
      ghost var was := Value();
      ghost var direct := if was.unbuffered.Some? then Held(was.unbuffered.value) else multiset{};
      if hasUnbuffered { unbuffered.Destroy(process); }
      assert process.closed == old(process.closed) + direct;
      buffered.Destroy(process);
      client.Destroy(process);
      Regroup(old(process.closed), Held(was.client), Held(was.buffered), direct);
    }

    method SetBuffered(fd: int, managed: bool, process: Process)
      requires Valid() && Held(buffered.Value()) == multiset{}
      modifies buffered, process
      ensures Value() == old(Value()).(buffered := Fd(fd, managed))
      ensures process.closed == old(process.closed)
    {
      var d := new FileDescriptor(fd, managed);
      buffered.Assign(d, process);
    }

    /** Emplaces a descriptor in the optional member. */
    method SetUnbuffered(fd: int, managed: bool, process: Process)
      requires Valid() && Held(unbuffered.Value()) == multiset{}
      modifies this, unbuffered, process
      ensures Value() == old(Value()).(unbuffered := Some(Fd(fd, managed)))
      ensures process.closed == old(process.closed)
    {
      var d := new FileDescriptor(fd, managed);
      unbuffered.Assign(d, process);
      hasUnbuffered := true;
    }

    /** The client opened the file for direct I/O: reopen it buffered. */
    method FillDirect(fd: int, open: Reopen, process: Process) returns (ok: bool)
      requires Valid() && Held(unbuffered.Value()) == Held(buffered.Value()) == multiset{}
      modifies this, buffered, unbuffered, process
      ensures ok == open.Opened? && process.closed == old(process.closed)
      ensures Value() == old(Value()).(unbuffered := Some(Fd(fd, false)),
                                       buffered := if ok then Fd(open.fd, true) else old(buffered.Value()))
    {
      SetUnbuffered(fd, false, process);
      if open.OpenFailed? { return false; }
      SetBuffered(open.fd, true, process);
      return true;
    }

    /** The client opened the file buffered: reopen it for direct I/O, doing without where that is not supported. */
    method FillBuffered(fd: int, open: Reopen, process: Process) returns (ok: bool)
      requires Valid() && !hasUnbuffered && Held(unbuffered.Value()) == Held(buffered.Value()) == multiset{}
      modifies this, buffered, unbuffered, process
      ensures ok == (open.Opened? || open.einval) && process.closed == old(process.closed)
      ensures open.Opened? ==>
                Value() == old(Value()).(buffered := Fd(fd, false), unbuffered := Some(Fd(open.fd, true)))
      ensures !open.Opened? && ok ==> Value() == old(Value()).(buffered := Fd(fd, false), memAlign := 0, offsetAlign := 0)
      ensures !ok ==> Value() == old(Value()).(buffered := Fd(fd, false))
    {
      SetBuffered(fd, false, process);
      if open.Opened? {
        SetUnbuffered(open.fd, true, process);
        return true;
      }
      if !open.einval { return false; }
      memAlign, offsetAlign := 0, 0;
      return true;
    }
  }

  /** Builds an UnregisteredFile member by member; a failed open that is not the tolerated one throws (null), and what
      had been built is destroyed. */
  method MakeUnregistered(fd: int, facts: Facts, open: Reopen, process: Process)
    returns (uf: FileObject?)
    modifies process
    ensures uf == null <==> Unregistered(fd, facts, open).None?
    ensures uf != null ==>
              && fresh(uf) && uf.Valid() && fresh(uf.client) && fresh(uf.buffered) && fresh(uf.unbuffered)
              && Some(uf.Value()) == Unregistered(fd, facts, open)
    ensures process.closed == old(process.closed)
  {
    if facts.Unavailable? { return null; }
    var f := new FileObject(fd, facts.align);
    var ok: bool;
    if facts.direct {
      ok := f.FillDirect(fd, open, process);
    } else {
      ok := f.FillBuffered(fd, open, process);
    }
    if !ok {
      assert HeldBy(f.Value()) == multiset{};
      f.Destroy(process);
      return null;
    }
    return f;
  }
}
