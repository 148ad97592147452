/** Who owns each descriptor the library has opened, over construction, moves, failed registrations and destruction. */
module FdLedger {
  import opened Descriptor

  datatype Owner = OfFile(o: nat) | OfPending(t: nat)

  /** pending: UnregisteredFiles between construction and registration. clients: descriptors the client has open.
      openLog and closeLog count the library's open and close calls for each descriptor number, which the kernel may
      reuse once closed. */
  datatype Ledger = Ledger(pending: map<nat, File>, clients: set<int>, owned: map<int, Owner>,
                           openLog: multiset<int>, closeLog: multiset<int>)

  function Share(owned: map<int, Owner>, who: Owner, fd: int): nat {
    if fd in owned && owned[fd] == who then 1 else 0
  }

  /** Destroying this file closes exactly the descriptors its owner is charged with, each once. */
  ghost predicate Charged(owned: map<int, Owner>, who: Owner, f: File) {
    forall fd :: HeldBy(f)[fd] == Share(owned, who, fd)
  }

  /** Every open has been followed by one close, or its descriptor has an owner. */
  ghost predicate Balanced(l: Ledger) {
    forall fd :: l.openLog[fd] == l.closeLog[fd] + (if fd in l.owned then 1 else 0)
  }

  ghost predicate LedgerOk(l: Ledger, files: map<nat, File>) {
    && (forall o :: o in files ==> Charged(l.owned, OfFile(o), files[o]))
    && (forall t :: t in l.pending ==> Charged(l.owned, OfPending(t), l.pending[t]))
    && (forall fd :: fd in l.owned ==> match l.owned[fd] case OfFile(o) => o in files case OfPending(t) => t in l.pending)
    && Balanced(l)
    && l.owned.Keys !! l.clients
  }

  /** Constructing an UnregisteredFile; the kernel hands out a descriptor that is not open. */
  function Construct(l: Ledger, t: nat, fd: int, facts: Facts, open: Reopen): Ledger {
    var made := Unregistered(fd, facts, open);
    if made.None? then l
    else if open.Opened? then
      l.(pending := l.pending[t := made.value], owned := l.owned[open.fd as int := OfPending(t)],
         openLog := l.openLog + multiset{open.fd as int})
    else l.(pending := l.pending[t := made.value])
  }

  /** A registration moves the descriptors into the File; the empty UnregisteredFile is destroyed. */
  function MoveTo(l: Ledger, t: nat, o: nat): Ledger {
    l.(pending := map x | x in l.pending && x != t :: l.pending[x],
       owned := map fd | fd in l.owned :: if l.owned[fd] == OfPending(t) then OfFile(o) else l.owned[fd])
  }

  /** The owner of f is destroyed. */
  function CloseAll(l: Ledger, who: Owner, f: File): Ledger {
    l.(owned := map fd | fd in l.owned && l.owned[fd] != who :: l.owned[fd], closeLog := l.closeLog + HeldBy(f))
  }

  function Discard(l: Ledger, t: nat): Ledger {
    if t !in l.pending then l
    else CloseAll(l, OfPending(t), l.pending[t]).(pending := map x | x in l.pending && x != t :: l.pending[x])
  }

  /** The kernel never hands out a descriptor that is open. */
  predicate Unused(l: Ledger, fd: int) { fd !in l.owned && fd !in l.clients }

  lemma ConstructKeepsLedger(l: Ledger, files: map<nat, File>, t: nat, fd: int, facts: Facts, open: Reopen)
    requires LedgerOk(l, files) && t !in l.pending && (open.Opened? ==> Unused(l, open.fd))
    ensures LedgerOk(Construct(l, t, fd, facts, open), files)
  {
    var l' := Construct(l, t, fd, facts, open);
    var made := Unregistered(fd, facts, open);
    if made.Some? {
      assert forall x :: x in l.owned ==> l.owned[x] != OfPending(t);
      assert Charged(l'.owned, OfPending(t), made.value);
      forall o | o in files
        ensures Charged(l'.owned, OfFile(o), files[o])
      {
        assert Charged(l.owned, OfFile(o), files[o]);
      }
      forall x | x in l.pending
        ensures Charged(l'.owned, OfPending(x), l.pending[x])
      {
        assert Charged(l.owned, OfPending(x), l.pending[x]);
      }
    }
  }

  lemma MoveShares(l: Ledger, t: nat, o: nat, who: Owner, f: File)
    requires forall fd :: fd in l.owned ==> l.owned[fd] != OfFile(o)
    ensures who != OfPending(t) && who != OfFile(o) && Charged(l.owned, who, f) ==> Charged(MoveTo(l, t, o).owned, who, f)
    ensures who == OfPending(t) && Charged(l.owned, who, f) ==> Charged(MoveTo(l, t, o).owned, OfFile(o), f)
  {
    assert forall fd :: who != OfPending(t) && who != OfFile(o) ==>
        Share(MoveTo(l, t, o).owned, who, fd) == Share(l.owned, who, fd);
    assert forall fd :: Share(MoveTo(l, t, o).owned, OfFile(o), fd) == Share(l.owned, OfPending(t), fd);
  }

  lemma MoveKeepsLedger(l: Ledger, files: map<nat, File>, t: nat, o: nat)
    requires LedgerOk(l, files) && t in l.pending && o !in files
    ensures LedgerOk(MoveTo(l, t, o), files[o := l.pending[t]])
  {
    var l' := MoveTo(l, t, o);
    assert forall fd :: fd in l.owned ==> l.owned[fd] != OfFile(o);
    assert l'.owned.Keys == l.owned.Keys;
    MoveShares(l, t, o, OfPending(t), l.pending[t]);
    forall x | x in files
      ensures Charged(l'.owned, OfFile(x), files[x])
    {
      MoveShares(l, t, o, OfFile(x), files[x]);
    }
    forall x | x in l'.pending
      ensures Charged(l'.owned, OfPending(x), l'.pending[x])
    {
      MoveShares(l, t, o, OfPending(x), l.pending[x]);
    }
  }

  lemma CloseAllBalances(l: Ledger, who: Owner, f: File)
    requires Charged(l.owned, who, f) && Balanced(l)
    ensures Balanced(CloseAll(l, who, f))
  {
    forall fd
      ensures CloseAll(l, who, f).openLog[fd] ==
              CloseAll(l, who, f).closeLog[fd] + (if fd in CloseAll(l, who, f).owned then 1 else 0)
    {
      assert HeldBy(f)[fd] == Share(l.owned, who, fd);
    }
  }

  /** Closing one owner's descriptors leaves the others' alone. */
  lemma CloseAllSpares(l: Ledger, who: Owner, f: File, other: Owner, g: File)
    requires Charged(l.owned, other, g) && other != who
    ensures Charged(CloseAll(l, who, f).owned, other, g)
  {
    assert forall fd :: Share(CloseAll(l, who, f).owned, other, fd) == Share(l.owned, other, fd);
  }

  lemma DiscardKeepsLedger(l: Ledger, files: map<nat, File>, t: nat)
    requires LedgerOk(l, files) && t in l.pending
    ensures LedgerOk(Discard(l, t), files)
  {
    var l' := Discard(l, t);
    CloseAllBalances(l, OfPending(t), l.pending[t]);
    forall o | o in files
      ensures Charged(l'.owned, OfFile(o), files[o])
    {
      CloseAllSpares(l, OfPending(t), l.pending[t], OfFile(o), files[o]);
    }
    forall x | x in l'.pending
      ensures Charged(l'.owned, OfPending(x), l'.pending[x])
    {
      CloseAllSpares(l, OfPending(t), l.pending[t], OfPending(x), l.pending[x]);
    }
  }

  lemma DestroyKeepsLedger(l: Ledger, files: map<nat, File>, o: nat)
    requires LedgerOk(l, files) && o in files
    ensures LedgerOk(CloseAll(l, OfFile(o), files[o]), map x | x in files && x != o :: files[x])
  {
    var l' := CloseAll(l, OfFile(o), files[o]);
    CloseAllBalances(l, OfFile(o), files[o]);
    forall x | x in files && x != o
      ensures Charged(l'.owned, OfFile(x), files[x])
    {
      CloseAllSpares(l, OfFile(o), files[o], OfFile(x), files[x]);
    }
    forall x | x in l'.pending
      ensures Charged(l'.owned, OfPending(x), l'.pending[x])
    {
      CloseAllSpares(l, OfFile(o), files[o], OfPending(x), l.pending[x]);
    }
  }

  /** Every descriptor a file would close is open, was opened by the library, and is nobody else's: neither another
      file's nor the client's. */
  lemma ClosesOnlyItsOwn(l: Ledger, files: map<nat, File>, o: nat, fd: int)
    requires LedgerOk(l, files) && o in files && fd in HeldBy(files[o])
    ensures HeldBy(files[o])[fd] == 1 && l.openLog[fd] == l.closeLog[fd] + 1 && fd !in l.clients
    ensures forall x :: x in files && x != o ==> fd !in HeldBy(files[x])
    ensures forall t :: t in l.pending ==> fd !in HeldBy(l.pending[t])
  {
    assert Charged(l.owned, OfFile(o), files[o]);
    assert HeldBy(files[o])[fd] == Share(l.owned, OfFile(o), fd);
    forall x | x in files && x != o
      ensures fd !in HeldBy(files[x])
    {
      assert Charged(l.owned, OfFile(x), files[x]);
      assert HeldBy(files[x])[fd] == Share(l.owned, OfFile(x), fd);
    }
    forall t | t in l.pending
      ensures fd !in HeldBy(l.pending[t])
    {
      assert Charged(l.owned, OfPending(t), l.pending[t]);
      assert HeldBy(l.pending[t])[fd] == Share(l.owned, OfPending(t), fd);
    }
  }

  /** fd belongs to file o and has been closed `closes` times so far. */
  ghost predicate OwnedSince(l: Ledger, o: nat, fd: int, closes: nat) {
    fd in l.owned && l.owned[fd] == OfFile(o) && l.closeLog[fd] == closes
  }

  lemma ConstructSpares(l: Ledger, t: nat, fd0: int, facts: Facts, open: Reopen, o: nat, fd: int, closes: nat)
    requires OwnedSince(l, o, fd, closes) && (open.Opened? ==> Unused(l, open.fd))
    ensures OwnedSince(Construct(l, t, fd0, facts, open), o, fd, closes)
  {
  }

  /** Destroying another owner neither takes fd away nor closes it. */
  lemma CloseSpares(l: Ledger, who: Owner, f: File, o: nat, fd: int, closes: nat)
    requires OwnedSince(l, o, fd, closes) && who != OfFile(o) && Charged(l.owned, who, f)
    ensures OwnedSince(CloseAll(l, who, f), o, fd, closes)
  {
    assert HeldBy(f)[fd] == Share(l.owned, who, fd);
  }

  /** With no file left there is no open descriptor left. */
  lemma NothingOwned(l: Ledger)
    requires LedgerOk(l, map[]) && l.pending == map[]
    ensures forall fd :: fd !in l.owned
    ensures forall fd :: l.openLog[fd] == l.closeLog[fd]
  {
  }
}
