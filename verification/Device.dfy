/** GPU memory as HIP presents it, the library's Buffer objects, and the parameter check shared by every IO path. */
module Device {
  import opened Memory

  datatype MemoryType = DeviceMemory | HostMemory | OtherMemory

  /** What hipPointerGetAttributes and hipMemGetAddressRange report for a pointer. */
  datatype HipInfo = HipInfo(memType: MemoryType, gpuId: int, base: size_t, size: size_t)

  /** HIP's promise: the allocation contains the pointer and does not wrap around the address space. */
  predicate HipPromises(info: HipInfo, ptr: size_t) {
    info.base <= ptr < info.base + info.size <= SIZE_MAX
  }

  datatype Buffer = Buffer(addr: size_t, length: size_t, memType: MemoryType, gpuId: int)

  datatype BufferResult = Created(buffer: Buffer) | NullPointer | InvalidMemoryType | InvalidPointerRange | HipRefused

  /** The overflow test comes before the addition it protects. */
  predicate IsValidBufferRegion(ptr: size_t, length: size_t, info: HipInfo)
    requires HipPromises(info, ptr)
  {
    if length > SIZE_MAX - ptr then false
    else
      var end: size_t := ptr + length;
      end <= info.base + info.size
  }

  /** A buffer registered with an explicit length. */
  function RegisteredBuffer(ptr: size_t, length: size_t, info: HipInfo): BufferResult
    requires HipPromises(info, ptr)
  {
    if ptr == 0 then NullPointer
    else if info.memType != DeviceMemory then InvalidMemoryType
    else if !IsValidBufferRegion(ptr, length, info) then InvalidPointerRange
    else Created(Buffer(ptr, length, info.memType, info.gpuId))
  }

  /** A temporary buffer for an unregistered pointer: its length is what remains of the allocation. */
  function TemporaryBuffer(ptr: size_t, info: HipInfo): BufferResult
    requires HipPromises(info, ptr)
  {
    if ptr == 0 then NullPointer
    else if info.memType != DeviceMemory then InvalidMemoryType
    else
      var length: size_t := info.size - (ptr - info.base);
      Created(Buffer(ptr, length, info.memType, info.gpuId))
  }

  /** HIP knows the pointer's allocation, or refuses the query. */
  datatype HipAnswer = Answer(info: HipInfo) | NoAnswer

  /** The two constructors with HIP's answer: a null pointer is refused before HIP is asked. */
  function MakeRegistered(ptr: size_t, length: size_t, answer: HipAnswer): BufferResult
    requires answer.Answer? ==> HipPromises(answer.info, ptr)
  {
    if ptr == 0 then NullPointer else if answer.NoAnswer? then HipRefused else RegisteredBuffer(ptr, length, answer.info)
  }

  function MakeTemporary(ptr: size_t, answer: HipAnswer): BufferResult
    requires answer.Answer? ==> HipPromises(answer.info, ptr)
  {
    if ptr == 0 then NullPointer else if answer.NoAnswer? then HipRefused else TemporaryBuffer(ptr, answer.info)
  }

  /** The buffer lies inside an allocation. */
  predicate Inside(b: Buffer, base: nat, size: nat) {
    base <= b.addr && b.addr + b.length <= base + size <= SIZE_MAX
  }

  predicate ParamsValid(b: Buffer, size: size_t, fileOffset: hoff, bufferOffset: hoff) {
    if fileOffset < 0 then false
    else if bufferOffset < 0 then false
    else if b.length <= bufferOffset then false
    else
      var room: size_t := b.length - bufferOffset;
      size <= room
  }

  /** Whatever the two checks accept stays inside the allocation, without wrapping:
      both constructors only produce device buffers inside it, a registration is refused exactly when the
      region leaves it, and a valid request only touches addresses of the buffer. */
  lemma AcceptedRequestsStayInside(ptr: size_t, length: size_t, info: HipInfo, size: size_t, fo: hoff, bo: hoff)
    requires HipPromises(info, ptr) && ptr != 0 && info.memType == DeviceMemory
    ensures RegisteredBuffer(ptr, length, info).Created? <==> ptr + length <= info.base + info.size
    ensures forall r :: r in {RegisteredBuffer(ptr, length, info), TemporaryBuffer(ptr, info)} && r.Created? ==>
              && r.buffer.addr == ptr && r.buffer.memType == DeviceMemory
              && Inside(r.buffer, info.base, info.size)
              && (ParamsValid(r.buffer, size, fo, bo) ==>
                    0 <= fo && 0 <= bo && info.base <= ptr + bo && ptr + bo + size <= info.base + info.size)
    ensures TemporaryBuffer(ptr, info).Created?
    ensures TemporaryBuffer(ptr, info).buffer.length > 0
    ensures TemporaryBuffer(ptr, info).buffer.addr + TemporaryBuffer(ptr, info).buffer.length == info.base + info.size
  {
  }

  /** Exactly which outcome a constructor has, for every pointer and answer: null pointers first, then HIP's refusal, then
      the kind of memory, then the range. */
  lemma BufferOutcomes(ptr: size_t, length: size_t, a: HipAnswer)
    requires a.Answer? ==> HipPromises(a.info, ptr)
    ensures MakeRegistered(ptr, length, a).NullPointer? <==> ptr == 0
    ensures MakeTemporary(ptr, a).NullPointer? <==> ptr == 0
    ensures MakeRegistered(ptr, length, a).HipRefused? <==> ptr != 0 && a.NoAnswer?
    ensures MakeTemporary(ptr, a).HipRefused? <==> ptr != 0 && a.NoAnswer?
    ensures MakeRegistered(ptr, length, a).InvalidMemoryType? <==> ptr != 0 && a.Answer? && a.info.memType != DeviceMemory
    ensures MakeTemporary(ptr, a).InvalidMemoryType? <==> ptr != 0 && a.Answer? && a.info.memType != DeviceMemory
    ensures MakeRegistered(ptr, length, a).Created? <==>
            ptr != 0 && a.Answer? && a.info.memType == DeviceMemory && ptr + length <= a.info.base + a.info.size
    ensures MakeTemporary(ptr, a).Created? <==> ptr != 0 && a.Answer? && a.info.memType == DeviceMemory
    ensures MakeRegistered(ptr, length, a).Created? ==>
              MakeRegistered(ptr, length, a).buffer == Buffer(ptr, length, DeviceMemory, a.info.gpuId)
    ensures MakeTemporary(ptr, a).Created? ==>
              MakeTemporary(ptr, a).buffer == Buffer(ptr, a.info.base + a.info.size - ptr, DeviceMemory, a.info.gpuId)
  {
  }

  /** The parameter check in one line, over unbounded integers: offsets are not negative, the buffer offset lies inside
      the buffer, and the request ends inside it. */
  lemma ParamsValidExactly(b: Buffer, size: size_t, fo: hoff, bo: hoff)
    ensures ParamsValid(b, size, fo, bo) <==> 0 <= fo && 0 <= bo < b.length && bo + size <= b.length
  {
  }

  /** A smaller size never turns valid parameters invalid. */
  lemma ParamsValidShrinks(b: Buffer, size: size_t, smaller: size_t, fo: hoff, bo: hoff)
    requires smaller <= size && ParamsValid(b, size, fo, bo)
    ensures ParamsValid(b, smaller, fo, bo)
  {
  }

  /** How a direct transfer fails: with a system error, or with one of HIP's own. */
  datatype DirectError = DirectSystem(code: int) | DirectHip

  /** One HIP allocation. Reaching outside `mem` would be an access outside the allocation. Failed copies and failed
      direct transfers are recorded. */
  class Gpu {
    const base: nat
    const mem: array<byte>
    var copyErrors: nat
    var directCalls: nat
    var directErrors: seq<DirectError>

    constructor (base: nat, size: nat)
      requires 0 < base && base + size <= SIZE_MAX
      ensures this.base == base && mem.Length == size && fresh(mem) && Valid()
      ensures copyErrors == 0 && directCalls == 0 && directErrors == []
    {
      this.base := base;
      mem := new byte[size];
      copyErrors, directCalls, directErrors := 0, 0, [];
    }

    ghost predicate Valid() {
      0 < base && base + mem.Length <= SIZE_MAX
    }

    predicate Owns(b: Buffer) {
      Inside(b, base, mem.Length)
    }

    /** hipMemcpy host to device; when it fails nothing has moved. */
    method CopyIn(dst: size_t, src: array<byte>, n: nat) returns (ok: bool)
      requires base <= dst && dst + n <= base + mem.Length && n <= src.Length && src != mem
      modifies mem, this`copyErrors
      ensures copyErrors == old(copyErrors) + (if ok then 0 else 1)
      ensures ok ==> mem[..] == Put(old(mem[..]), dst - base, src[..n])
      ensures !ok ==> mem[..] == old(mem[..])
    {
      ok := *;
      if ok {
        forall i | 0 <= i < n { mem[dst - base + i] := src[i]; }
      } else {
        copyErrors := copyErrors + 1;
      }
    }

    /** hipMemcpy device to host, and the stream synchronisation that follows it. */
    method CopyOut(dst: array<byte>, src: size_t, n: nat) returns (ok: bool)
      requires base <= src && src + n <= base + mem.Length && n <= dst.Length && dst != mem
      modifies dst, this`copyErrors
      ensures copyErrors == old(copyErrors) + (if ok then 0 else 1)
      ensures ok ==> dst[..n] == mem[src - base..src - base + n]
    {
      ok := *;
      if ok {
        forall i | 0 <= i < n { dst[i] := mem[src - base + i]; }
      } else {
        copyErrors := copyErrors + 1;
      }
    }
  }
}
