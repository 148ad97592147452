/** aiscp: copying a file through GPU memory with nothing but the public read and write calls. */
module Aiscp {
  import opened Memory
  import opened Posix
  import opened Device
  import opened Bits
  import opened Fallback
  import opened Dispatch

  const CHUNK_SIZE: nat := 0x7fff_f000

  /** dst holds the first n bytes of src. */
  ghost predicate Prefix(dst: seq<byte>, src: seq<byte>, n: nat) {
    n <= |src| && n <= |dst| && dst[..n] == src[..n]
  }

  /** The device holds the chunk of src that starts at base. */
  ghost predicate ChunkLoaded(mem: seq<byte>, src: seq<byte>, base: nat, n: nat) {
    n <= |mem| && n <= Avail(src, base) && mem[..n] == Slice(src, base, n)
  }

  /** A write of a block-rounded piece at base + done extends the copied prefix, whatever it leaves past it. */
  lemma WriteExtendsPrefix(f0: seq<byte>, f1: seq<byte>, mem: seq<byte>, src: seq<byte>, base: nat, nread: nat,
                           done: nat, size: nat, n: nat)
    requires ChunkLoaded(mem, src, base, nread) && done < nread && done + size <= |mem|
    requires Prefix(f0, src, base + done)
    requires Transferred(Write, mem, mem, done, size, f0, f1, base + done, n)
    ensures Prefix(f1, src, base + Min(done + n, nread))
  {
    var end := Min(done + n, nread);
    assert |f1| >= base + end;
    forall i | 0 <= i < base + end
      ensures f1[i] == src[i]
    {
      if i < base + done {
        assert f1[i] == ByteAt(f0, i) && f0[i] == f0[..base + done][i] && src[i] == src[..base + done][i];
      } else {
        var j := i - (base + done);
        assert f1[base + done + j] == mem[done..done + size][j] == mem[done + j] == mem[..nread][done + j];
        assert Slice(src, base, nread)[done + j] == src[i];
      }
    }
  }

  /** The rest of a chunk, rounded up to whole blocks, still lies inside the buffer. */
  predicate Fits(bufferSize: nat, blockSize: nat, nread: nat, nwrite: nat)
    requires 0 < blockSize < WORD && nwrite < nread <= INT_MAX
  {
    nwrite + AlignUp(nread - nwrite, blockSize) <= bufferSize
  }

  /** It does as long as every write so far ended on a block boundary. */
  lemma AlignedPieceFits(bufferSize: nat, blockSize: nat, nread: nat, nwrite: nat)
    requires IsPowerOfTwo(blockSize) && blockSize < WORD && nwrite < nread <= Min(bufferSize, INT_MAX)
    requires bufferSize % blockSize == 0 && nwrite % blockSize == 0
    ensures Fits(bufferSize, blockSize, nread, nwrite)
  {
    AlignmentIsHalfWord(blockSize);
    AlignUpExact(nread - nwrite, blockSize);
    SubMultiple(bufferSize, nwrite, blockSize);
    LeastIsLeast(AlignUp(nread - nwrite, blockSize), nread - nwrite, blockSize, bufferSize - nwrite);
  }

  /** After a write that stopped inside a block it need not: 100 of 4096 bytes written, and the next request would end
      100 bytes past the buffer. */
  lemma UnalignedPieceOverruns()
    ensures IsPowerOfTwo(4096) && !Fits(4096, 4096, 4096, 100)
  {
    assert Pow2(12) == 4096;
    Pow2PassesTest(12);
    AlignUpExact(3996, 4096);
  }

  /** Failures recorded of a file and of the device. */
  ghost function Recorded(file: OpenFile, gpu: Gpu): nat
    reads file, gpu
  {
    |file.errors| + gpu.copyErrors + |gpu.directErrors|
  }

  /** One block-rounded write of what is left of a chunk. With the fallback to rely on it fails only when something
      failed or when the rounded request leaves the buffer; a request that, clamped, still leaves it always fails. */
  method WritePiece(cfg: Config, dst: OpenFile, info: FileInfo, gpu: Gpu, b: Buffer, blockSize: nat, base: nat,
                    nread: nat, nwrite: nat, memory: bool, stats: Stats, ghost src: seq<byte>) returns (nbytes: int)
    requires cfg.Valid() && cfg.maxRw > 0 && dst.Valid() && gpu.Valid() && gpu.Owns(b) && b.addr == gpu.base
    requires b.memType == DeviceMemory && IsPowerOfTwo(blockSize) && blockSize < WORD
    requires |src| <= MAX_HOFF && nread <= Min(INT_MAX, b.length) && nwrite < nread
    requires ChunkLoaded(gpu.mem[..], src, base, nread) && Prefix(dst.contents, src, base + nwrite)
    modifies dst, gpu, gpu.mem, stats
    ensures dst.Valid() && gpu.mem[..] == old(gpu.mem[..])
    ensures nbytes == 0 ==> dst.stalls < old(dst.stalls)
    ensures nbytes >= 0 ==> Prefix(dst.contents, src, base + Min(nwrite + nbytes, nread))
    ensures Recorded(dst, gpu) >= old(Recorded(dst, gpu))
    ensures cfg.fallback && memory && Fits(b.length, blockSize, nread, nwrite) && Recorded(dst, gpu) == old(Recorded(dst, gpu)) ==>
              nbytes >= 0
    ensures nwrite + Min(AlignUp(nread - nwrite, blockSize), cfg.maxRw) > b.length ==>
              nbytes < 0 && dst.contents == old(dst.contents)
  {
    AlignmentIsHalfWord(blockSize);
    AlignUpCovers(nread - nwrite, blockSize);
    var size := AlignUp(nread - nwrite, blockSize);
    ghost var f0 := dst.contents;
    ghost var t0 := TallyOf(dst, gpu, stats);
    nbytes := HipFileIo(cfg, Write, dst, info, gpu, b, size, base + nwrite, nwrite, memory, stats);
    ghost var t1 := TallyOf(dst, gpu, stats);
    FailuresGrow(cfg, Write, info, b, size, base + nwrite, nwrite, memory, stats.level, dst.contents, nbytes, t0, t1);
    if cfg.fallback && memory && Fits(b.length, blockSize, nread, nwrite) && Failures(t1) == Failures(t0) {
      CleanCallsSucceed(cfg, Write, info, b, size, base + nwrite, nwrite, memory, stats.level, dst.contents, nbytes, t0, t1);
    }
    if nbytes >= 0 {
      WriteExtendsPrefix(f0, dst.contents, gpu.mem[..], src, base, nread, nwrite, Clamp(cfg, size), nbytes);
    }
  }

  /** Writes one chunk until all of it has been written; false on a failed write. inside: some write stopped inside a
      block with more to write. */
  method WriteOut(cfg: Config, dst: OpenFile, info: FileInfo, gpu: Gpu, b: Buffer, blockSize: nat, base: nat,
                  nread: nat, memory: bool, stats: Stats, ghost src: seq<byte>) returns (ok: bool, ghost inside: bool)
    requires cfg.Valid() && cfg.maxRw > 0 && dst.Valid() && gpu.Valid() && gpu.Owns(b) && b.addr == gpu.base
    requires b.memType == DeviceMemory && IsPowerOfTwo(blockSize) && blockSize < WORD && b.length % blockSize == 0
    requires |src| <= MAX_HOFF && nread <= Min(INT_MAX, b.length)
    requires ChunkLoaded(gpu.mem[..], src, base, nread) && Prefix(dst.contents, src, base)
    modifies dst, gpu, gpu.mem, stats
    ensures dst.Valid() && gpu.mem[..] == old(gpu.mem[..])
    ensures ok ==> Prefix(dst.contents, src, base + nread)
    ensures Recorded(dst, gpu) >= old(Recorded(dst, gpu))
    ensures !ok && cfg.fallback && memory && !inside ==> Recorded(dst, gpu) > old(Recorded(dst, gpu))
  {
    var nwrite := 0;
    inside := false;
    ghost var mem := gpu.mem[..];
    while nwrite < nread
      invariant dst.Valid() && gpu.mem[..] == mem && 0 <= nwrite
      invariant Recorded(dst, gpu) >= old(Recorded(dst, gpu))
      invariant !inside && nwrite < nread ==> nwrite % blockSize == 0
      invariant Prefix(dst.contents, src, base + Min(nwrite, nread))
      decreases nread - nwrite, dst.stalls
    {
      if !inside { AlignedPieceFits(b.length, blockSize, nread, nwrite); }
      var nbytes := WritePiece(cfg, dst, info, gpu, b, blockSize, base, nread, nwrite, memory, stats, src);
      if nbytes < 0 { return false, inside; }
      nwrite := nwrite + nbytes;
      inside := inside || (nwrite < nread && nwrite % blockSize != 0);
    }
    return true, inside;
  }

  /** Reads chunk after chunk until end of file, writing each out; false on the first failure. */
  method CopyChunks(cfg: Config, src: OpenFile, dst: OpenFile, srcInfo: FileInfo, dstInfo: FileInfo, gpu: Gpu, b: Buffer,
                    blockSize: nat, memory: bool, stats: Stats)
    returns (ok: bool, ghost inside: bool)
    requires cfg.Valid() && cfg.maxRw > 0 && src.Valid() && dst.Valid() && src != dst
    requires gpu.Valid() && gpu.Owns(b) && b.addr == gpu.base && b.memType == DeviceMemory && b.length > 0
    requires IsPowerOfTwo(blockSize) && blockSize < WORD && b.length % blockSize == 0
    modifies src, dst, gpu, gpu.mem, stats
    ensures src.contents == old(src.contents) && src.Valid() && dst.Valid()
    ensures ok ==> Prefix(dst.contents, src.contents, |src.contents|)
    ensures |src.errors| + Recorded(dst, gpu) >= old(|src.errors| + Recorded(dst, gpu))
    ensures !ok && cfg.fallback && memory && !inside ==>
              |src.errors| + Recorded(dst, gpu) > old(|src.errors| + Recorded(dst, gpu))
  {
    ghost var f := src.contents;
    var fileOffset := 0;
    var nread := 1;
    inside := false;
    while nread > 0
      invariant src.Valid() && dst.Valid() && src.contents == f
      invariant 0 <= nread && 0 <= fileOffset && Prefix(dst.contents, f, fileOffset)
      invariant nread == 0 ==> fileOffset == |f|
      invariant |src.errors| + Recorded(dst, gpu) >= old(|src.errors| + Recorded(dst, gpu))
      decreases |f| - fileOffset, nread
    {
      nread := ReadNext(cfg, src, srcInfo, gpu, b, fileOffset, memory, stats);
      if nread < 0 { return false, inside; }
      var ok: bool;
      ghost var stopped;
      ok, stopped := WriteOut(cfg, dst, dstInfo, gpu, b, blockSize, fileOffset, nread, memory, stats, f);
      inside := inside || stopped;
      if !ok { return false, inside; }
      fileOffset := fileOffset + nread;
    }
    return true, inside;
  }

  /** The next chunk of the source, or an error. Zero means end of file. */
  method ReadNext(cfg: Config, src: OpenFile, info: FileInfo, gpu: Gpu, b: Buffer, fileOffset: nat, memory: bool,
                  stats: Stats) returns (nread: int)
    requires cfg.Valid() && cfg.maxRw > 0 && src.Valid() && fileOffset <= |src.contents|
    requires gpu.Valid() && gpu.Owns(b) && b.addr == gpu.base && b.memType == DeviceMemory && b.length > 0
    modifies src, gpu, gpu.mem, stats
    ensures src.Valid() && src.contents == old(src.contents)
    ensures nread >= 0 ==> nread <= Min(INT_MAX, b.length) && ChunkLoaded(gpu.mem[..], src.contents, fileOffset, nread)
    ensures nread == 0 ==> fileOffset == |src.contents|
    ensures Recorded(src, gpu) >= old(Recorded(src, gpu)) && |src.errors| >= old(|src.errors|)
    ensures gpu.copyErrors >= old(gpu.copyErrors) && |gpu.directErrors| >= old(|gpu.directErrors|)
    ensures nread < 0 && cfg.fallback && memory ==> Recorded(src, gpu) > old(Recorded(src, gpu))
  {
    ghost var t0 := TallyOf(src, gpu, stats);
    nread := HipFileIo(cfg, Read, src, info, gpu, b, b.length, fileOffset, 0, memory, stats);
    ghost var t1 := TallyOf(src, gpu, stats);
    FailuresGrow(cfg, Read, info, b, b.length, fileOffset, 0, memory, stats.level, src.contents, nread, t0, t1);
    if cfg.fallback && memory && Failures(t1) == Failures(t0) {
      CleanCallsSucceed(cfg, Read, info, b, b.length, fileOffset, 0, memory, stats.level, src.contents, nread, t0, t1);
    }
    assert nread >= 0 ==> gpu.mem[0..0 + nread] == gpu.mem[..nread];
  }

  /** The copy loop and the final truncation. The arguments after blockSize say whether the files can be opened, the
      source and the buffer made ready, a bounce buffer mapped, the destination truncated and everything closed.
      A copy of a non-empty source that succeeds always tries to truncate, and is exact if that works. With the
      fallback to rely on, a copy fails only when one of these did, when a transfer did, or after a write that stopped
      inside a block. */
  method Copy(cfg: Config, src: OpenFile, dst: OpenFile, srcInfo: FileInfo, dstInfo: FileInfo, blockSize: nat,
              opens: bool, ready: bool, memory: bool, truncates: bool, closes: bool, stats: Stats)
    returns (success: bool, ghost gpu: Gpu?, ghost inside: bool)
    requires cfg.Valid() && cfg.maxRw > 0 && src.Valid() && dst.Valid() && src != dst && blockSize < WORD
    modifies src, dst, stats
    ensures src.contents == old(src.contents)
    ensures success && |src.contents| > 0 && truncates ==> dst.contents == src.contents
    ensures success && |src.contents| > 0 && !truncates ==>
              |src.contents| <= |dst.contents| && dst.contents[..|src.contents|] == src.contents
    ensures success && |src.contents| == 0 ==> dst.contents == old(dst.contents)
    ensures success ==> IsPowerOfTwo(blockSize) && opens && closes && (|src.contents| > 0 ==> ready)
    ensures |src.contents| == 0 && IsPowerOfTwo(blockSize) && opens && closes ==> success
    ensures !success && IsPowerOfTwo(blockSize) && opens && closes && ready && memory && cfg.fallback && !inside ==>
              gpu != null && |src.errors| + Recorded(dst, gpu) > old(|src.errors| + |dst.errors|)
  {
    gpu, inside := null, false;
    var fileSize := |src.contents|;
    if !IsPowerOfTwo(blockSize) { return false, null, false; }
    if !opens { return false, null, false; }
    if fileSize == 0 { return closes, null, false; }
    if !ready { return false, null, false; }
    AlignmentIsHalfWord(blockSize);
    AlignUpExact(Min(fileSize, CHUNK_SIZE), blockSize);
    var bufferSize: size_t := AlignUp(Min(fileSize, CHUNK_SIZE), blockSize);
    var base: nat :| 0 < base && base + bufferSize <= SIZE_MAX;
    var device := new Gpu(base, bufferSize);
    gpu := device;
    var info := HipInfo(DeviceMemory, 0, base, bufferSize);
    AcceptedRequestsStayInside(base, bufferSize, info, 0, 0, 0);
    var b := TemporaryBuffer(base, info).buffer;
    var copied: bool;
    copied, inside := CopyChunks(cfg, src, dst, srcInfo, dstInfo, device, b, blockSize, memory, stats);
    if !copied { return false, device, inside; }
    if truncates { dst.contents := dst.contents[..fileSize]; }
    return closes, device, inside;
  }
}
