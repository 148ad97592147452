/** BufferMap: buffers registered under their device pointer, and temporary buffers for the others. */
module BufferRegistry {
  import opened Memory
  import opened Device
  import opened RefCounts
  import opened FileRegistry

  datatype Buffers = Buffers(fromPtr: map<size_t, nat>, objects: map<nat, Buffer>, uses: map<nat, nat>,
                             holders: map<nat, nat>, known: set<nat>)

  const BUFFER_WEIGHT: nat := 1

  /** made: what the Buffer constructor did with the pointer and length. */
  function RegisterBuffer(b: Buffers, o: nat, ptr: size_t, made: BufferResult): (Buffers, Outcome) {
    if ptr in b.fromPtr then (b, AlreadyRegistered)
    else if !made.Created? then (b, Rejected)
    else
      (b.(fromPtr := b.fromPtr[ptr := o], objects := b.objects[o := made.buffer],
          uses := Acquire(b.uses, o, BUFFER_WEIGHT), known := b.known + {o}),
       Done)
  }

  function DeregisterBuffer(b: Buffers, ptr: size_t): (Buffers, Outcome) {
    if ptr !in b.fromPtr then (b, NotRegistered)
    else if BUFFER_WEIGHT < Uses(b.uses, b.fromPtr[ptr]) then (b, Outstanding)
    else (b.(fromPtr := Minus(b.fromPtr, ptr), uses := Release(b.uses, b.fromPtr[ptr], BUFFER_WEIGHT)), Done)
  }

  /** The registered buffer, or a temporary one that only t refers to. */
  function GetBuffer(b: Buffers, ptr: size_t, t: nat, o: nat, made: BufferResult): (Buffers, Outcome) {
    if ptr in b.fromPtr then (HoldBuffer(b, t, b.fromPtr[ptr]), Done)
    else if !made.Created? then (b, Rejected)
    else (HoldBuffer(b.(objects := b.objects[o := made.buffer], known := b.known + {o}), t, o), Done)
  }

  function HoldBuffer(b: Buffers, t: nat, o: nat): Buffers {
    b.(holders := b.holders[t := o], uses := Acquire(b.uses, o, 1))
  }

  function DropBuffer(b: Buffers, t: nat): Buffers {
    if t !in b.holders then b
    else b.(holders := Without(b.holders, t), uses := Release(b.uses, b.holders[t], 1))
  }

  function ClearBuffers(b: Buffers): Buffers {
    b.(fromPtr := map[], uses := ReleaseAll(b.uses, b.fromPtr.Values, BUFFER_WEIGHT))
  }

  function DestroyBuffer(b: Buffers, o: nat): Buffers {
    b.(objects := Minus(b.objects, o))
  }

  /** A buffer found in the map is given back as it was found. */
  lemma DropUndoesHold(b: Buffers, ptr: size_t, t: nat, o: nat, made: BufferResult)
    requires ptr in b.fromPtr && t !in b.holders && (forall x :: x in b.uses ==> b.uses[x] > 0)
    ensures DropBuffer(GetBuffer(b, ptr, t, o, made).0, t) == b
  {
    ReleaseUndoesAcquire(b.uses, b.fromPtr[ptr]);
    assert Without(b.holders[t := b.fromPtr[ptr]], t) == b.holders;
  }

  /** A temporary buffer dies with its only holder and leaves no trace. */
  lemma DropEndsTemporary(b: Buffers, ptr: size_t, t: nat, o: nat, made: BufferResult)
    requires ptr !in b.fromPtr && made.Created? && t !in b.holders && o !in b.uses && o !in b.objects
    ensures var g := GetBuffer(b, ptr, t, o, made).0;
            o !in DropBuffer(g, t).uses && DestroyBuffer(DropBuffer(g, t), o) == b.(known := b.known + {o})
  {
    ReleaseUndoesAcquire(b.uses, o);
    assert Without(b.holders[t := o], t) == b.holders;
    assert Minus(b.objects[o := made.buffer], o) == b.objects;
  }

  ghost predicate BuffersOk(b: Buffers) {
    && (forall p :: p in b.fromPtr && b.fromPtr[p] in b.objects ==> b.objects[b.fromPtr[p]].addr == p)
    && Counted(b.uses, b.holders, b.fromPtr.Values, BUFFER_WEIGHT)
    && b.uses.Keys <= b.objects.Keys <= b.known
  }

  /** A registered buffer is alive, and registered under its own address. */
  lemma RegisteredBufferIsAlive(b: Buffers, p: size_t)
    requires BuffersOk(b) && p in b.fromPtr
    ensures b.fromPtr[p] in b.uses && b.fromPtr[p] in b.objects && b.objects[b.fromPtr[p]].addr == p
    ensures b.fromPtr[p] in b.known
  {
    assert b.fromPtr[p] in b.fromPtr.Values;
    assert Uses(b.uses, b.fromPtr[p]) >= BUFFER_WEIGHT;
  }

  lemma PointerSetGrows(fromPtr: map<size_t, nat>, p: size_t, o: nat)
    requires p !in fromPtr
    ensures fromPtr[p := o].Values == fromPtr.Values + {o}
  {
    assert fromPtr[p := o][p] == o;
    forall q | q in fromPtr
      ensures fromPtr[q] in fromPtr[p := o].Values
    {
      assert fromPtr[p := o][q] == fromPtr[q];
    }
  }

  lemma PointerSetShrinks(fromPtr: map<size_t, nat>, p: size_t)
    requires p in fromPtr && forall q :: q in fromPtr && fromPtr[q] == fromPtr[p] ==> q == p
    ensures Minus(fromPtr, p).Values == fromPtr.Values - {fromPtr[p]}
  {
    forall q | q in fromPtr && q != p
      ensures fromPtr[q] in Minus(fromPtr, p).Values
    {
      assert Minus(fromPtr, p)[q] == fromPtr[q];
    }
  }

  lemma NewBufferIsUnregistered(b: Buffers, o: nat)
    requires BuffersOk(b) && o !in b.known
    ensures o !in b.fromPtr.Values && forall p :: p in b.fromPtr ==> b.fromPtr[p] != o && b.fromPtr[p] in b.objects
  {
    forall p | p in b.fromPtr
      ensures b.fromPtr[p] != o && b.fromPtr[p] in b.objects
    {
      RegisteredBufferIsAlive(b, p);
    }
  }

  lemma RegisterBufferKeepsOk(b: Buffers, o: nat, ptr: size_t, made: BufferResult)
    requires BuffersOk(b) && o !in b.known && (made.Created? ==> made.buffer.addr == ptr)
    ensures BuffersOk(RegisterBuffer(b, o, ptr, made).0)
  {
    if RegisterBuffer(b, o, ptr, made).1.Done? {
      NewBufferIsUnregistered(b, o);
      PointerSetGrows(b.fromPtr, ptr, o);
      InsertKeepsCounts(b.uses, b.holders, b.fromPtr.Values, BUFFER_WEIGHT, o);
    }
  }

  lemma DeregisterBufferKeepsOk(b: Buffers, ptr: size_t)
    requires BuffersOk(b)
    ensures BuffersOk(DeregisterBuffer(b, ptr).0)
  {
    if DeregisterBuffer(b, ptr).1.Done? {
      forall p | p in b.fromPtr
        ensures b.fromPtr[p] in b.objects && b.objects[b.fromPtr[p]].addr == p
      {
        RegisteredBufferIsAlive(b, p);
      }
      PointerSetShrinks(b.fromPtr, ptr);
      assert b.fromPtr[ptr] in b.fromPtr.Values;
      RemoveKeepsCounts(b.uses, b.holders, b.fromPtr.Values, BUFFER_WEIGHT, b.fromPtr[ptr]);
    }
  }

  lemma HoldBufferKeepsOk(b: Buffers, t: nat, o: nat)
    requires BuffersOk(b) && t !in b.holders && o in b.objects
    ensures BuffersOk(HoldBuffer(b, t, o))
  {
    HoldKeepsCounts(b.uses, b.holders, b.fromPtr.Values, BUFFER_WEIGHT, t, o);
  }

  lemma GetBufferKeepsOk(b: Buffers, ptr: size_t, t: nat, o: nat, made: BufferResult)
    requires BuffersOk(b) && t !in b.holders && o !in b.known
    ensures BuffersOk(GetBuffer(b, ptr, t, o, made).0)
  {
    if ptr in b.fromPtr {
      RegisteredBufferIsAlive(b, ptr);
      HoldBufferKeepsOk(b, t, b.fromPtr[ptr]);
    } else if made.Created? {
      var c := b.(objects := b.objects[o := made.buffer], known := b.known + {o});
      forall p | p in b.fromPtr
        ensures b.fromPtr[p] != o
      {
        RegisteredBufferIsAlive(b, p);
      }
      HoldBufferKeepsOk(c, t, o);
    }
  }

  lemma DropBufferKeepsOk(b: Buffers, t: nat)
    requires BuffersOk(b)
    ensures BuffersOk(DropBuffer(b, t))
  {
    if t in b.holders {
      DropKeepsCounts(b.uses, b.holders, b.fromPtr.Values, BUFFER_WEIGHT, t);
      HeldIsAlive(b.uses, b.holders, b.fromPtr.Values, BUFFER_WEIGHT, t);
    }
  }

  lemma ClearBuffersKeepsOk(b: Buffers)
    requires BuffersOk(b)
    ensures BuffersOk(ClearBuffers(b))
  {
    ClearKeepsCounts(b.uses, b.holders, b.fromPtr.Values, BUFFER_WEIGHT);
    assert ClearBuffers(b).fromPtr.Values == {};
  }

  lemma DestroyBufferKeepsOk(b: Buffers, o: nat)
    requires BuffersOk(b) && o !in b.uses
    ensures BuffersOk(DestroyBuffer(b, o))
  {
    forall p | p in b.fromPtr
      ensures b.fromPtr[p] != o
    {
      RegisteredBufferIsAlive(b, p);
    }
  }

  /** Deregistration succeeds if and only if the pointer is registered and nobody holds its buffer. */
  lemma DeregisterBufferIffUnheld(b: Buffers, ptr: size_t)
    requires BuffersOk(b)
    ensures DeregisterBuffer(b, ptr).1.Done? <==>
            ptr in b.fromPtr && forall t :: t in b.holders ==> b.holders[t] != b.fromPtr[ptr]
    ensures ptr in b.fromPtr ==> Uses(b.uses, b.fromPtr[ptr]) == 1 + |HoldersOf(b.holders, b.fromPtr[ptr])|
  {
    if ptr in b.fromPtr {
      assert b.fromPtr[ptr] in b.fromPtr.Values;
      UseCountTest(b.uses, b.holders, b.fromPtr.Values, BUFFER_WEIGHT, b.fromPtr[ptr]);
    }
  }

  /** A successful registration enters the buffer under its pointer with one reference of the registry; a refused one
      changes nothing. */
  lemma RegisterBufferAdds(b: Buffers, o: nat, ptr: size_t, made: BufferResult)
    requires BuffersOk(b) && o !in b.known
    ensures var (g, r) := RegisterBuffer(b, o, ptr, made);
            && (r.Done? <==> ptr !in b.fromPtr && made.Created?) && (r == AlreadyRegistered <==> ptr in b.fromPtr)
            && (!r.Done? ==> g == b)
            && (r.Done? ==>
                  && ptr in g.fromPtr && g.fromPtr[ptr] == o && SameBut(b.fromPtr, g.fromPtr, ptr)
                  && g.objects == b.objects[o := made.buffer] && g.holders == b.holders
                  && Uses(g.uses, o) == 1 && SameUsesBut(b.uses, g.uses, o))
  {
  }

  /** A successful deregistration removes the buffer and takes its last reference away; a refused one changes nothing. */
  lemma DeregisterBufferRemoves(b: Buffers, ptr: size_t)
    requires BuffersOk(b)
    ensures var (g, r) := DeregisterBuffer(b, ptr);
            && (!r.Done? ==> g == b)
            && (r.Done? ==>
                  && ptr in b.fromPtr && ptr !in g.fromPtr && SameBut(b.fromPtr, g.fromPtr, ptr)
                  && b.fromPtr[ptr] !in g.uses && SameUsesBut(b.uses, g.uses, b.fromPtr[ptr])
                  && g.objects == b.objects && g.holders == b.holders && g.known == b.known)
  {
  }

  lemma DeregisterUndoesRegisterBuffer(b: Buffers, o: nat, ptr: size_t, made: BufferResult)
    requires BuffersOk(b) && o !in b.known && ptr !in b.fromPtr && made.Created?
    ensures var g := RegisterBuffer(b, o, ptr, made).0;
            var (h, r) := DeregisterBuffer(g, ptr);
            r.Done? && h == b.(objects := b.objects[o := made.buffer], known := b.known + {o})
  {
    var g := RegisterBuffer(b, o, ptr, made).0;
    assert o !in b.uses;
    assert Minus(g.fromPtr, ptr) == b.fromPtr;
    assert Release(g.uses, o, BUFFER_WEIGHT) == b.uses;
  }

  /** Dropping a reference takes the holder away and lowers its buffer's use count by one; nothing else changes. */
  lemma DropBufferGivesUp(b: Buffers, t: nat)
    requires BuffersOk(b) && t in b.holders
    ensures var g := DropBuffer(b, t);
            && t !in g.holders && SameBut(b.holders, g.holders, t)
            && Uses(g.uses, b.holders[t]) == Uses(b.uses, b.holders[t]) - 1 && SameUsesBut(b.uses, g.uses, b.holders[t])
            && g == b.(holders := g.holders, uses := g.uses)
  {
    HeldIsAlive(b.uses, b.holders, b.fromPtr.Values, BUFFER_WEIGHT, t);
  }

  /** A lookup takes one reference to the registered buffer, or makes a temporary one that only its caller holds. */
  lemma GetBufferTakes(b: Buffers, ptr: size_t, t: nat, o: nat, made: BufferResult)
    requires BuffersOk(b) && t !in b.holders && o !in b.known
    ensures var (g, r) := GetBuffer(b, ptr, t, o, made);
            && (r.Done? <==> ptr in b.fromPtr || made.Created?) && (!r.Done? ==> g == b)
            && (r.Done? ==>
                  && t in g.holders && SameBut(b.holders, g.holders, t) && g.fromPtr == b.fromPtr
                  && g.holders[t] == (if ptr in b.fromPtr then b.fromPtr[ptr] else o)
                  && Uses(g.uses, g.holders[t]) == Uses(b.uses, g.holders[t]) + 1 && SameUsesBut(b.uses, g.uses, g.holders[t])
                  && (ptr in b.fromPtr ==> g.objects == b.objects)
                  && (ptr !in b.fromPtr ==> g.objects == b.objects[o := made.buffer] && Uses(g.uses, o) == 1))
  {
  }

  lemma ClearBuffersReleases(b: Buffers)
    requires BuffersOk(b)
    ensures var g := ClearBuffers(b);
            && g.fromPtr == map[] && g.holders == b.holders && g.objects == b.objects
            && forall o :: Uses(g.uses, o) == |HoldersOf(b.holders, o)|
  {
    ClearKeepsCounts(b.uses, b.holders, b.fromPtr.Values, BUFFER_WEIGHT);
  }
}
