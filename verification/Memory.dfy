/** Bytes, machine integer ranges, and the two stores that data moves between:
    fixed-size memory (Put) and growing files (FileWrite). */
module Memory {

  newtype byte = i: int | 0 <= i < 256

  const MAX_HOFF: int := 0x7fff_ffff_ffff_ffff
  const SIZE_MAX: int := 0xffff_ffff_ffff_ffff

  /** hoff_t and ssize_t; size_t and uintptr_t. Assigning to these types proves that no sum overflows. */
  type hoff = x: int | -0x8000_0000_0000_0000 <= x <= MAX_HOFF
  type size_t = x: int | 0 <= x <= SIZE_MAX

  function Min(a: int, b: int): int { if a <= b then a else b }
  function Max(a: int, b: int): int { if a <= b then b else a }

  /** Memory m with data stored at index `at`. */
  function Put(m: seq<byte>, at: nat, data: seq<byte>): (r: seq<byte>)
    requires at + |data| <= |m|
    ensures |r| == |m|
  {
    seq(|m|, i requires 0 <= i < |m| => if at <= i < at + |data| then data[i - at] else m[i])
  }

  lemma PutBytes(m: seq<byte>, at: nat, data: seq<byte>)
    requires at + |data| <= |m|
    ensures forall i :: 0 <= i < |m| ==> Put(m, at, data)[i] == if at <= i < at + |data| then data[i - at] else m[i]
  {
  }

  lemma PutAppend(m: seq<byte>, at: nat, x: seq<byte>, y: seq<byte>)
    requires at + |x| + |y| <= |m|
    ensures Put(Put(m, at, x), at + |x|, y) == Put(m, at, x + y)
  {
  }

  lemma PutEmpty(m: seq<byte>, at: nat)
    requires at <= |m|
    ensures Put(m, at, []) == m
  {
  }

  lemma PutThenTake(m: seq<byte>, data: seq<byte>)
    requires |data| <= |m|
    ensures Put(m, 0, data)[..|data|] == data
  {
  }

  lemma PutCommute(m: seq<byte>, a: nat, x: seq<byte>, b: nat, y: seq<byte>)
    requires a + |x| <= |m| && b + |y| <= |m|
    requires a + |x| <= b || b + |y| <= a
    ensures Put(Put(m, a, x), b, y) == Put(Put(m, b, y), a, x)
  {
  }

  /** The byte a file shows at an index: past the end a hole reads as zero once the file has grown over it. */
  function ByteAt(f: seq<byte>, i: nat): byte { if i < |f| then f[i] else 0 }

  /** POSIX write at an offset: grows the file as needed, over zeros when it starts past the end; writing nothing
      changes nothing. */
  function FileWrite(f: seq<byte>, at: nat, data: seq<byte>): (r: seq<byte>)
    ensures |r| == if data == [] then |f| else Max(|f|, at + |data|)
  {
    if data == [] then f
    else seq(Max(|f|, at + |data|), i requires 0 <= i => if at <= i < at + |data| then data[i - at] else ByteAt(f, i))
  }

  /** The written bytes are in place; every other byte is the old one, or zero where the file grew over a gap. */
  lemma FileWriteBytes(f: seq<byte>, at: nat, data: seq<byte>)
    ensures var r := FileWrite(f, at, data);
            forall i :: 0 <= i < |r| ==> r[i] == if at <= i < at + |data| then data[i - at] else ByteAt(f, i)
  {
  }

  lemma FileWriteAppend(f: seq<byte>, at: nat, x: seq<byte>, y: seq<byte>)
    ensures FileWrite(FileWrite(f, at, x), at + |x|, y) == FileWrite(f, at, x + y)
  {
    var g := FileWrite(f, at, x);
    var l, r := FileWrite(g, at + |x|, y), FileWrite(f, at, x + y);
    FileWriteBytes(f, at, x);
    FileWriteBytes(g, at + |x|, y);
    FileWriteBytes(f, at, x + y);
    forall i | 0 <= i < |l|
      ensures l[i] == r[i]
    {
      if at <= i < at + |x| { assert l[i] == g[i]; }
    }
  }

  /** Bytes between an offset and the end of the file. */
  function Avail(f: seq<byte>, off: nat): nat { if off <= |f| then |f| - off else 0 }

  function Slice(f: seq<byte>, off: nat, n: nat): (r: seq<byte>)
    requires n <= Avail(f, off)
    ensures |r| == n
  {
    if n == 0 then [] else f[off..off + n]
  }

  lemma SliceAppend(f: seq<byte>, off: nat, a: nat, b: nat)
    requires a + b <= Avail(f, off)
    ensures b <= Avail(f, off + a)
    ensures Slice(f, off, a) + Slice(f, off + a, b) == Slice(f, off, a + b)
  {
  }

  /** cur is old after some bytes of data, and nothing else, reached the range that starts at off. */
  ghost predicate PartlyWritten(old_: seq<byte>, cur: seq<byte>, off: nat, data: seq<byte>) {
    && |old_| <= |cur| <= Max(|old_|, off + |data|)
    && forall i :: 0 <= i < |cur| ==>
         cur[i] == ByteAt(old_, i) || (off <= i < off + |data| && cur[i] == data[i - off])
  }

  /** cur and old agree outside the n bytes that start at off. */
  ghost predicate SameOutside(old_: seq<byte>, cur: seq<byte>, off: nat, n: nat) {
    && |old_| <= |cur| <= Max(|old_|, off + n)
    && forall i :: 0 <= i < |cur| && !(off <= i < off + n) ==> cur[i] == ByteAt(old_, i)
  }

  /** The first n bytes of data are in f at off. */
  ghost predicate HoldsPrefix(f: seq<byte>, off: nat, data: seq<byte>, n: nat) {
    && n <= |data|
    && (n > 0 ==> off + n <= |f|)
    && forall i :: 0 <= i < n ==> f[off + i] == data[i]
  }
}
