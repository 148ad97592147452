/** Batch submission: validation of one operation, and contexts that take all the operations of a call or none. */
module Batch {
  import opened Memory
  import opened Device
  import opened Bits
  import R = FileRegistry
  import D = Driver
  import S = DriverSafety

  datatype OpCode = BatchRead | BatchWrite | UnknownCode

  datatype Params = Params(fh: nat, devPtrBase: size_t, devPtrOffset: hoff, size: size_t, fileOffset: hoff,
                           opcode: OpCode, modeIsBatch: bool)

  datatype Refusal = WrongBuffer | NegativeBufferOffset | OffsetBeyondBuffer | SizeBeyondBuffer | WrongFile
                   | NegativeFileOffset | BadOpCode | BadMode

  datatype Verdict = Accept | Refuse(why: Refusal)

  /** The constructor's checks in their order. */
  function Validate(p: Params, b: Buffer, handle: nat): Verdict {
    if p.devPtrBase != b.addr then Refuse(WrongBuffer)
    else if p.devPtrOffset < 0 then Refuse(NegativeBufferOffset)
    else if b.length <= p.devPtrOffset then Refuse(OffsetBeyondBuffer)
    else
      var room: size_t := b.length - p.devPtrOffset;
      if room < p.size then Refuse(SizeBeyondBuffer)
      else if p.fh != handle then Refuse(WrongFile)
      else if p.fileOffset < 0 then Refuse(NegativeFileOffset)
      else if p.opcode.UnknownCode? then Refuse(BadOpCode)
      else if !p.modeIsBatch then Refuse(BadMode)
      else Accept
  }

  predicate Named(p: Params, b: Buffer, handle: nat) { p.devPtrBase == b.addr && p.fh == handle }

  /** An operation is accepted exactly when the shared parameter check of the other IO paths accepts it for the buffer
      and the file its parameters name, and its opcode and mode are known. */
  lemma AcceptedIffParamsValid(p: Params, b: Buffer, handle: nat)
    ensures Validate(p, b, handle).Accept? <==>
            && Named(p, b, handle) && ParamsValid(b, p.size, p.fileOffset, p.devPtrOffset)
            && !p.opcode.UnknownCode? && p.modeIsBatch
  {
  }

  /** One check, on its own. */
  predicate Fails(why: Refusal, p: Params, b: Buffer, handle: nat) {
    match why
    case WrongBuffer => p.devPtrBase != b.addr
    case NegativeBufferOffset => p.devPtrOffset < 0
    case OffsetBeyondBuffer => p.devPtrOffset >= b.length
    case SizeBeyondBuffer => p.devPtrOffset + p.size > b.length
    case WrongFile => p.fh != handle
    case NegativeFileOffset => p.fileOffset < 0
    case BadOpCode => p.opcode.UnknownCode?
    case BadMode => !p.modeIsBatch
  }

  function Rank(why: Refusal): nat {
    match why
    case WrongBuffer => 0
    case NegativeBufferOffset => 1
    case OffsetBeyondBuffer => 2
    case SizeBeyondBuffer => 3
    case WrongFile => 4
    case NegativeFileOffset => 5
    case BadOpCode => 6
    case BadMode => 7
  }

  /** A refusal names the first check that fails, and there is one exactly when some check fails. */
  lemma RefusalIsFirstFailure(p: Params, b: Buffer, handle: nat)
    ensures Validate(p, b, handle).Refuse? <==> exists why :: Fails(why, p, b, handle)
    ensures Validate(p, b, handle).Refuse? ==>
              var why := Validate(p, b, handle).why;
              Fails(why, p, b, handle) && forall w :: Rank(w) < Rank(why) ==> !Fails(w, p, b, handle)
  {
    var v := Validate(p, b, handle);
    if v.Refuse? {
      assert Fails(v.why, p, b, handle);
    } else {
      assert forall why :: !Fails(why, p, b, handle);
    }
  }

  /** What getFileAndBuffer answered for one operation. */
  datatype Answer = Found(buffer: Buffer, handle: nat) | Threw

  datatype Operation = Operation(params: Params, buffer: Buffer, handle: nat)

  datatype Result = Submitted | OverCapacity | LookupThrew(i: nat) | Refused(i: nat, why: Refusal)

  predicate Admissible(p: Params, a: Answer) {
    a.Found? && Validate(p, a.buffer, a.handle).Accept?
  }

  predicate AllAdmissible(params: seq<Params>, answers: seq<Answer>)
    requires |answers| == |params|
  {
    forall i :: 0 <= i < |params| ==> Admissible(params[i], answers[i])
  }

  function Made(params: seq<Params>, answers: seq<Answer>): (ops: seq<Operation>)
    requires |answers| == |params| && AllAdmissible(params, answers)
    ensures |ops| == |params|
  {
    seq(|params|, i requires 0 <= i < |params| =>
      assert Admissible(params[i], answers[i]); Operation(params[i], answers[i].buffer, answers[i].handle))
  }

  const MAX_SIZE: nat := 128

  /** The room left in a context, in the source's unsigned arithmetic. */
  function Room(capacity: nat, outstanding: nat): nat {
    (capacity - outstanding) % WORD
  }

  lemma RoomIsExact(capacity: nat, outstanding: nat)
    requires capacity <= MAX_SIZE && outstanding <= MAX_SIZE
    ensures Room(capacity, outstanding) == capacity - outstanding <==> outstanding <= capacity
  {
    if outstanding <= capacity { SmallMod(capacity - outstanding, WORD); }
  }

  ghost predicate OperationOk(op: Operation) {
    && Named(op.params, op.buffer, op.handle)
    && ParamsValid(op.buffer, op.params.size, op.params.fileOffset, op.params.devPtrOffset)
    && !op.params.opcode.UnknownCode? && op.params.modeIsBatch
  }

  ghost predicate ContextOk(capacity: nat, outstanding: seq<Operation>) {
    && 1 <= capacity <= MAX_SIZE && |outstanding| <= capacity
    && forall i :: 0 <= i < |outstanding| ==> OperationOk(outstanding[i])
  }

  lemma MadeAreOk(params: seq<Params>, answers: seq<Answer>)
    requires |answers| == |params| && AllAdmissible(params, answers)
    ensures forall i :: 0 <= i < |params| ==> OperationOk(Made(params, answers)[i])
  {
    forall i | 0 <= i < |params|
      ensures OperationOk(Made(params, answers)[i])
    {
      assert Admissible(params[i], answers[i]);
      AcceptedIffParamsValid(params[i], answers[i].buffer, answers[i].handle);
    }
  }

  class BatchContext {
    const capacity: nat
    /** Outstanding operations are distinct objects. */
    var outstanding: seq<Operation>

    ghost predicate Valid()
      reads this
    {
      ContextOk(capacity, outstanding)
    }

    constructor (capacity: nat)
      requires 1 <= capacity <= MAX_SIZE
      ensures Valid() && this.capacity == capacity && outstanding == []
    {
      this.capacity := capacity;
      outstanding := [];
    }

    /** All the operations are added, in order, or none. They are added exactly when they fit and each is admissible;
        otherwise the result tells the first that is not. */
    method Submit(params: seq<Params>, answers: seq<Answer>) returns (r: Result)
      requires Valid() && |answers| == |params|
      modifies this
      ensures Valid()
      ensures r.Submitted? <==> |old(outstanding)| + |params| <= capacity && AllAdmissible(params, answers)
      ensures r.Submitted? ==> outstanding == old(outstanding) + Made(params, answers)
      ensures r.Submitted? ==> forall i :: 0 <= i < |params| ==>
                answers[i].Found? && outstanding[|old(outstanding)| + i] == Operation(params[i], answers[i].buffer, answers[i].handle)
      ensures !r.Submitted? ==> outstanding == old(outstanding)
      ensures r.OverCapacity? <==> |old(outstanding)| + |params| > capacity
      ensures r.LookupThrew? ==> r.i < |params| && answers[r.i].Threw? && AllAdmissible(params[..r.i], answers[..r.i])
      ensures r.Refused? ==>
                && r.i < |params| && AllAdmissible(params[..r.i], answers[..r.i]) && answers[r.i].Found?
                && Validate(params[r.i], answers[r.i].buffer, answers[r.i].handle) == Refuse(r.why)
    {
      RoomIsExact(capacity, |outstanding|);
      if |params| > Room(capacity, |outstanding|) { return OverCapacity; }
      var pending: seq<Operation> := [];
      for i := 0 to |params|
        invariant outstanding == old(outstanding)
        invariant AllAdmissible(params[..i], answers[..i])
        invariant pending == Made(params[..i], answers[..i])
      {
        if answers[i].Threw? { return LookupThrew(i); }
        var v := Validate(params[i], answers[i].buffer, answers[i].handle);
        if v.Refuse? { return Refused(i, v.why); }
        pending := pending + [Operation(params[i], answers[i].buffer, answers[i].handle)];
        assert params[..i + 1] == params[..i] + [params[i]] && answers[..i + 1] == answers[..i] + [answers[i]];
      }
      assert params[..|params|] == params && answers[..|params|] == answers;
      MadeAreOk(params, answers);
      assert forall i :: 0 <= i < |params| ==> Admissible(params[i], answers[i]);
      outstanding := outstanding + pending;
      return Submitted;
    }
  }

  /** The constructor refuses capacities outside 1..128. */
  method MakeContext(capacity: nat) returns (c: BatchContext?)
    ensures c == null <==> capacity == 0 || capacity > MAX_SIZE
    ensures c != null ==> fresh(c) && c.Valid() && c.capacity == capacity && c.outstanding == []
  {
    if capacity == 0 || capacity > MAX_SIZE { return null; }
    c := new BatchContext(capacity);
  }

  /** Found answers come from the driver: the lookup's own file and buffer, so an operation is never refused for naming
      the wrong ones. */
  lemma DriverAnswersAreNamed(events: seq<D.Event>, s: D.State, t: nat, o: nat, made: BufferResult, p: Params)
    requires D.Reaches(D.Initial(), events, s) && D.Enabled(s, D.Lookup(t, p.fh, p.devPtrBase, o, made))
    requires D.LookedUp(s, t, p.fh, p.devPtrBase, o, made).1.Done?
    ensures var s' := D.LookedUp(s, t, p.fh, p.devPtrBase, o, made).0;
            && t in s'.files.holders && t in s'.buffers.holders && s'.buffers.holders[t] in s'.buffers.objects
            && var (file, buffer) := (s'.files.holders[t], s'.buffers.objects[s'.buffers.holders[t]]);
            && Named(p, buffer, R.Handle(file))
            && (Validate(p, buffer, R.Handle(file)).Accept? <==>
                  ParamsValid(buffer, p.size, p.fileOffset, p.devPtrOffset) && !p.opcode.UnknownCode? && p.modeIsBatch)
  {
    S.LookupFindsCurrent(events, s, t, p.fh, p.devPtrBase, o, made);
  }
}
