/** FileMap: files registered under their client descriptor and under their handle, and the descriptors files own. */
module FileRegistry {
  import opened Descriptor
  import opened RefCounts

  datatype Outcome = Done | AlreadyRegistered | NotRegistered | Outstanding | NotInitialized | Rejected

  /** Objects are identified by address. birth: the epoch in which each object was registered. */
  datatype Files = Files(fromFd: map<int, nat>, fromFh: map<nat, nat>, objects: map<nat, File>,
                         uses: map<nat, nat>, holders: map<nat, nat>, birth: map<nat, nat>)

  /** from_fd and from_fh each hold one reference. */
  const FILE_WEIGHT: nat := 2

  /** A handle is the object's address. */
  function Handle(o: nat): nat { o }

  function ClientFd(f: Files, o: nat): int {
    if o in f.objects then f.objects[o].client.fd else -1
  }

  function Minus<K, V>(m: map<K, V>, k: K): map<K, V> {
    map x | x in m && x != k :: m[x]
  }

  function RegisterFile(f: Files, o: nat, file: File, epoch: nat): (Files, Outcome) {
    if file.client.fd in f.fromFd then (f, AlreadyRegistered)
    else
      (f.(fromFd := f.fromFd[file.client.fd := o], fromFh := f.fromFh[Handle(o) := o], objects := f.objects[o := file],
          uses := Acquire(f.uses, o, FILE_WEIGHT), birth := f.birth[o := epoch]),
       Done)
  }

  function DeregisterFile(f: Files, fh: nat): (Files, Outcome) {
    if fh !in f.fromFh then (f, NotRegistered)
    else if FILE_WEIGHT < Uses(f.uses, f.fromFh[fh]) then (f, Outstanding)
    else
      var o := f.fromFh[fh];
      (f.(fromFd := Minus(f.fromFd, ClientFd(f, o)), fromFh := Minus(f.fromFh, fh), uses := Release(f.uses, o, FILE_WEIGHT)),
       Done)
  }

  /** A successful lookup makes t a holder. */
  function GetFile(f: Files, fh: nat, t: nat): (Files, Outcome) {
    if fh !in f.fromFh then (f, NotRegistered)
    else (Hold(f, t, f.fromFh[fh]), Done)
  }

  function Hold(f: Files, t: nat, o: nat): Files {
    f.(holders := f.holders[t := o], uses := Acquire(f.uses, o, 1))
  }

  function DropFile(f: Files, t: nat): Files {
    if t !in f.holders then f
    else f.(holders := Without(f.holders, t), uses := Release(f.uses, f.holders[t], 1))
  }

  function ClearFiles(f: Files): Files {
    f.(fromFd := map[], fromFh := map[], uses := ReleaseAll(f.uses, f.fromFh.Values, FILE_WEIGHT))
  }

  /** The destructor of a file whose last reference is gone. */
  function DestroyFile(f: Files, o: nat): Files {
    f.(objects := Minus(f.objects, o))
  }

  /** Dropping the reference a lookup took restores the state before it. */
  lemma DropUndoesGet(f: Files, fh: nat, t: nat)
    requires fh in f.fromFh && t !in f.holders && (forall o :: o in f.uses ==> f.uses[o] > 0)
    ensures DropFile(GetFile(f, fh, t).0, t) == f
  {
    ReleaseUndoesAcquire(f.uses, f.fromFh[fh]);
    assert Without(f.holders[t := f.fromFh[fh]], t) == f.holders;
  }

  /** Both indexes hold exactly the same files, each once, under its client descriptor and its handle. */
  ghost predicate IndexOk(f: Files) {
    && (forall fd :: fd in f.fromFd ==>
          var o := f.fromFd[fd]; ClientFd(f, o) == fd && Handle(o) in f.fromFh && f.fromFh[Handle(o)] == o)
    && (forall fh :: fh in f.fromFh ==>
          var o := f.fromFh[fh]; Handle(o) == fh && ClientFd(f, o) in f.fromFd && f.fromFd[ClientFd(f, o)] == o)
  }

  ghost predicate CountsOk(f: Files) {
    && Counted(f.uses, f.holders, f.fromFh.Values, FILE_WEIGHT)
    && f.uses.Keys <= f.objects.Keys <= f.birth.Keys
  }

  ghost predicate EpochOk(f: Files, epoch: nat) {
    forall fh :: fh in f.fromFh && f.fromFh[fh] in f.birth ==> f.birth[f.fromFh[fh]] == epoch
  }

  ghost predicate FilesOk(f: Files, epoch: nat) {
    IndexOk(f) && CountsOk(f) && EpochOk(f, epoch)
  }

  /** Registered files are alive: the registry's own references keep them so. */
  lemma RegisteredIsAlive(f: Files, fh: nat)
    requires IndexOk(f) && CountsOk(f) && fh in f.fromFh
    ensures f.fromFh[fh] in f.uses && f.fromFh[fh] in f.objects && f.fromFh[fh] in f.birth
  {
    assert f.fromFh[fh] in f.fromFh.Values;
    assert Uses(f.uses, f.fromFh[fh]) >= FILE_WEIGHT;
  }

  lemma RegisterKeepsIndexes(f: Files, o: nat, file: File, epoch: nat)
    requires FilesOk(f, epoch) && o !in f.birth
    ensures IndexOk(RegisterFile(f, o, file, epoch).0) && EpochOk(RegisterFile(f, o, file, epoch).0, epoch)
  {
    forall fh | fh in f.fromFh
      ensures f.fromFh[fh] != o && f.fromFh[fh] in f.objects
    {
      RegisteredIsAlive(f, fh);
    }
    assert o !in f.fromFh;
  }

  lemma RegisteredSetGrows(fromFh: map<nat, nat>, o: nat)
    requires Handle(o) !in fromFh
    ensures fromFh[Handle(o) := o].Values == fromFh.Values + {o}
  {
    assert fromFh[Handle(o) := o][Handle(o)] == o;
    forall fh | fh in fromFh
      ensures fromFh[fh] in fromFh[Handle(o) := o].Values
    {
      assert fromFh[Handle(o) := o][fh] == fromFh[fh];
    }
  }

  lemma RegisterKeepsOk(f: Files, o: nat, file: File, epoch: nat)
    requires FilesOk(f, epoch) && o !in f.birth
    ensures FilesOk(RegisterFile(f, o, file, epoch).0, epoch)
  {
    RegisterKeepsIndexes(f, o, file, epoch);
    if RegisterFile(f, o, file, epoch).1.Done? {
      if o in f.fromFh { RegisteredIsAlive(f, o); }
      RegisteredSetGrows(f.fromFh, o);
      InsertKeepsCounts(f.uses, f.holders, f.fromFh.Values, FILE_WEIGHT, o);
    }
  }

  lemma DeregisterKeepsOk(f: Files, fh: nat, epoch: nat)
    requires FilesOk(f, epoch)
    ensures FilesOk(DeregisterFile(f, fh).0, epoch)
  {
    var (g, r) := DeregisterFile(f, fh);
    if r.Done? {
      var o := f.fromFh[fh];
      RegisteredIsAlive(f, fh);
      assert g.fromFh.Values == f.fromFh.Values - {o} by {
        forall x | x in f.fromFh.Values && x != o
          ensures x in g.fromFh.Values
        {
          assert g.fromFh[Handle(x)] == x;
        }
      }
      RemoveKeepsCounts(f.uses, f.holders, f.fromFh.Values, FILE_WEIGHT, o);
    }
  }

  lemma HoldKeepsOk(f: Files, t: nat, o: nat, epoch: nat)
    requires FilesOk(f, epoch) && t !in f.holders && o in f.objects
    ensures FilesOk(Hold(f, t, o), epoch)
  {
    HoldKeepsCounts(f.uses, f.holders, f.fromFh.Values, FILE_WEIGHT, t, o);
  }

  lemma DropKeepsOk(f: Files, t: nat, epoch: nat)
    requires FilesOk(f, epoch)
    ensures FilesOk(DropFile(f, t), epoch)
  {
    if t in f.holders {
      DropKeepsCounts(f.uses, f.holders, f.fromFh.Values, FILE_WEIGHT, t);
      HeldIsAlive(f.uses, f.holders, f.fromFh.Values, FILE_WEIGHT, t);
    }
  }

  /** Clearing is right in every epoch: nothing stays registered. */
  lemma ClearKeepsOk(f: Files, epoch: nat, epoch': nat)
    requires FilesOk(f, epoch)
    ensures FilesOk(ClearFiles(f), epoch')
  {
    ClearKeepsCounts(f.uses, f.holders, f.fromFh.Values, FILE_WEIGHT);
    assert ClearFiles(f).fromFh.Values == {};
  }

  lemma DestroyKeepsOk(f: Files, o: nat, epoch: nat)
    requires FilesOk(f, epoch) && o !in f.uses
    ensures FilesOk(DestroyFile(f, o), epoch)
  {
    forall fh | fh in f.fromFh
      ensures f.fromFh[fh] != o
    {
      RegisteredIsAlive(f, fh);
    }
  }

  /** Deregistration succeeds if and only if the handle is registered and nobody holds its file. */
  lemma DeregisterIffUnheld(f: Files, fh: nat, epoch: nat)
    requires FilesOk(f, epoch)
    ensures DeregisterFile(f, fh).1.Done? <==>
            fh in f.fromFh && forall t :: t in f.holders ==> f.holders[t] != f.fromFh[fh]
    ensures fh in f.fromFh ==> Uses(f.uses, f.fromFh[fh]) == 2 + |HoldersOf(f.holders, f.fromFh[fh])|
  {
    if fh in f.fromFh {
      assert f.fromFh[fh] in f.fromFh.Values;
      UseCountTest(f.uses, f.holders, f.fromFh.Values, FILE_WEIGHT, f.fromFh[fh]);
    }
  }

  /** Each client descriptor has at most one registered handle, and the other way round. */
  lemma IndexesAgree(f: Files, epoch: nat)
    requires FilesOk(f, epoch)
    ensures f.fromFd.Values == f.fromFh.Values
    ensures forall a, b :: a in f.fromFd && b in f.fromFd && f.fromFd[a] == f.fromFd[b] ==> a == b
    ensures forall a, b :: a in f.fromFh && b in f.fromFh && f.fromFh[a] == f.fromFh[b] ==> a == b
    ensures forall a, b :: a in f.fromFh && b in f.fromFh && ClientFd(f, f.fromFh[a]) == ClientFd(f, f.fromFh[b]) ==> a == b
  {
    forall fd | fd in f.fromFd
      ensures f.fromFd[fd] in f.fromFh.Values
    {
      assert f.fromFh[Handle(f.fromFd[fd])] == f.fromFd[fd];
    }
    forall fh | fh in f.fromFh
      ensures f.fromFh[fh] in f.fromFd.Values
    {
      assert f.fromFd[ClientFd(f, f.fromFh[fh])] == f.fromFh[fh];
    }
  }

  /** The two maps agree but for one key. */
  ghost predicate SameBut<K(!new)>(m: map<K, nat>, m': map<K, nat>, k: K) {
    forall x: K :: x != k ==> (x in m <==> x in m') && (x in m ==> m'[x] == m[x])
  }

  /** Use counts agree but for one object. */
  ghost predicate SameUsesBut(uses: map<nat, nat>, uses': map<nat, nat>, o: nat) {
    forall x: nat :: x != o ==> Uses(uses', x) == Uses(uses, x)
  }

  /** A successful registration enters the file under its handle and its client descriptor, with the registry's two
      references, and nothing else changes; a refused one changes nothing. */
  lemma RegisterAdds(f: Files, o: nat, file: File, epoch: nat)
    requires FilesOk(f, epoch) && o !in f.birth
    ensures var (g, r) := RegisterFile(f, o, file, epoch);
            && (r.Done? <==> file.client.fd !in f.fromFd) && (!r.Done? ==> r == AlreadyRegistered && g == f)
            && (r.Done? ==>
                  && Handle(o) in g.fromFh && g.fromFh[Handle(o)] == o && SameBut(f.fromFh, g.fromFh, Handle(o))
                  && file.client.fd in g.fromFd && g.fromFd[file.client.fd] == o && SameBut(f.fromFd, g.fromFd, file.client.fd)
                  && g.objects == f.objects[o := file] && g.birth == f.birth[o := epoch] && g.holders == f.holders
                  && Uses(g.uses, o) == 2 && SameUsesBut(f.uses, g.uses, o))
  {
  }

  /** A successful deregistration removes the file from both indexes and takes its last references away, and nothing
      else changes; a refused one changes nothing. */
  lemma DeregisterRemoves(f: Files, fh: nat, epoch: nat)
    requires FilesOk(f, epoch)
    ensures var (g, r) := DeregisterFile(f, fh);
            && (!r.Done? ==> g == f)
            && (r.Done? ==>
                  && fh in f.fromFh && fh !in g.fromFh && SameBut(f.fromFh, g.fromFh, fh)
                  && ClientFd(f, f.fromFh[fh]) !in g.fromFd && SameBut(f.fromFd, g.fromFd, ClientFd(f, f.fromFh[fh]))
                  && f.fromFh[fh] !in g.uses && SameUsesBut(f.uses, g.uses, f.fromFh[fh])
                  && g.objects == f.objects && g.holders == f.holders && g.birth == f.birth)
  {
    if fh in f.fromFh { RegisteredIsAlive(f, fh); }
  }

  /** Deregistering what was just registered restores both indexes, every use count and every holder. */
  lemma DeregisterUndoesRegister(f: Files, o: nat, file: File, epoch: nat)
    requires FilesOk(f, epoch) && o !in f.birth && file.client.fd !in f.fromFd
    ensures var g := RegisterFile(f, o, file, epoch).0;
            var (h, r) := DeregisterFile(g, Handle(o));
            r.Done? && h == f.(objects := f.objects[o := file], birth := f.birth[o := epoch])
  {
    assert o !in f.objects && o !in f.uses;
    if o in f.fromFh { RegisteredIsAlive(f, o); }
    var g := RegisterFile(f, o, file, epoch).0;
    assert Minus(g.fromFd, file.client.fd) == f.fromFd;
    assert Minus(g.fromFh, Handle(o)) == f.fromFh;
    assert Release(g.uses, o, FILE_WEIGHT) == f.uses;
  }

  /** Dropping a reference takes the holder away and lowers its object's use count by one; nothing else changes. */
  lemma DropGivesUp(f: Files, t: nat, epoch: nat)
    requires FilesOk(f, epoch) && t in f.holders
    ensures var g := DropFile(f, t);
            && t !in g.holders && SameBut(f.holders, g.holders, t)
            && Uses(g.uses, f.holders[t]) == Uses(f.uses, f.holders[t]) - 1 && SameUsesBut(f.uses, g.uses, f.holders[t])
            && g == f.(holders := g.holders, uses := g.uses)
  {
    HeldIsAlive(f.uses, f.holders, f.fromFh.Values, FILE_WEIGHT, t);
  }

  /** Taking a reference adds the holder and raises its object's use count by one; nothing else changes. */
  lemma HoldTakes(f: Files, t: nat, o: nat)
    requires t !in f.holders
    ensures var g := Hold(f, t, o);
            && t in g.holders && g.holders[t] == o && SameBut(f.holders, g.holders, t)
            && Uses(g.uses, o) == Uses(f.uses, o) + 1 && SameUsesBut(f.uses, g.uses, o)
            && g == f.(holders := g.holders, uses := g.uses)
  {
  }

  /** Clearing empties both indexes and takes exactly the registry's references away: holders keep theirs, and an object
      is left without references exactly when nobody holds it. */
  lemma ClearReleases(f: Files, epoch: nat)
    requires FilesOk(f, epoch)
    ensures var g := ClearFiles(f);
            && g.fromFd == map[] && g.fromFh == map[]
            && g.holders == f.holders && g.objects == f.objects && g.birth == f.birth
            && forall o :: Uses(g.uses, o) == |HoldersOf(f.holders, o)|
  {
    ClearKeepsCounts(f.uses, f.holders, f.fromFh.Values, FILE_WEIGHT);
  }
}
