/** The 64-bit mask arithmetic used for page, block and direct-IO alignment.
    Machine words are naturals below WORD; `&` is defined bit by bit. */
module Bits {

  const WORD: nat := 0x1_0000_0000_0000_0000
  const INT_MAX: nat := 0x7fff_ffff

  function Pow2(k: nat): (r: nat)
    ensures r > 0
  {
    if k == 0 then 1 else 2 * Pow2(k - 1)
  }

  /** Bitwise conjunction of two non-negative words. */
  function And(x: nat, y: nat): nat {
    if x == 0 || y == 0 then 0 else (x % 2) * (y % 2) + 2 * And(x / 2, y / 2)
  }

  /** Bitwise complement of a 64-bit word. */
  function Not64(x: nat): nat
    requires x < WORD
  {
    WORD - 1 - x
  }

  /** The 64-bit two's-complement pattern of a signed value. */
  function Pattern(x: int): nat { x % WORD }

  /** aiscp's power-of-two test. */
  predicate IsPowerOfTwo(value: nat) {
    value > 0 && And(value, value - 1) == 0
  }

  lemma {:induction false} AndSelf(x: nat)
    ensures And(x, x) == x
  {
    if x > 0 { AndSelf(x / 2); }
  }

  /** x mod 2b, split at the lowest bit. */
  lemma ModDouble(x: nat, b: nat)
    requires b > 0
    ensures x % (2 * b) == x % 2 + 2 * ((x / 2) % b)
  {
    var q := x / 2;
    var m := q / b;
    assert q == m * b + q % b;
    assert x == m * (2 * b) + (x % 2 + 2 * (q % b)) by { assert x == 2 * q + x % 2; }
    DivModUnique(x, 2 * b, m, x % 2 + 2 * (q % b));
  }

  lemma DivModUnique(x: nat, d: nat, q: nat, r: nat)
    requires d > 0 && r < d && x == q * d + r
    ensures x % d == r && x / d == q
  {
    var diff := q - x / d;
    MulFar(diff, d);
    assert x == (x / d) * d + x % d;
    assert diff * d == q * d - (x / d) * d;
  }

  lemma MulFar(diff: int, d: nat)
    requires d > 0
    ensures diff == 0 || diff * d >= d || diff * d + d <= 0
  {
    if diff > 0 {
      assert (diff - 1) * d >= 0;
    } else if diff < 0 {
      assert (-diff - 1) * d >= 0;
    }
  }

  /** A mask of k low ones keeps the remainder modulo 2^k. */
  lemma {:induction false} AndLowMask(x: nat, k: nat)
    ensures And(x, Pow2(k) - 1) == x % Pow2(k)
  {
    if k > 0 {
      var b := Pow2(k - 1);
      AndLowMask(x / 2, k - 1);
      ModDouble(x, b);
      assert (2 * b - 1) / 2 == b - 1 && (2 * b - 1) % 2 == 1;
      if x == 0 { assert 0 % (2 * b) == 0; }
    }
  }

  /** A mask of n - k high ones clears the remainder modulo 2^k. */
  lemma {:induction false} AndHighMask(x: nat, k: nat, n: nat)
    requires k <= n && x < Pow2(n)
    ensures Pow2(k) <= Pow2(n)
    ensures And(x, Pow2(n) - Pow2(k)) == x - x % Pow2(k)
  {
    if k == 0 {
      AndLowMask(x, n);
      assert x % Pow2(n) == x by { DivModUnique(x, Pow2(n), 0, x); }
    } else {
      AndHighMask(x / 2, k - 1, n - 1);
      ModDouble(x, Pow2(k - 1));
      AndEven(x, Pow2(n - 1) - Pow2(k - 1));
    }
  }

  lemma AndEven(x: nat, y: nat)
    ensures And(x, 2 * y) == 2 * And(x / 2, y)
  {
    assert (2 * y) / 2 == y && (2 * y) % 2 == 0;
  }

  lemma WordIsPow2()
    ensures Pow2(64) == WORD
  {
    Squares(2, 4);
    Squares(4, 16);
    Squares(8, 256);
    Squares(16, 0x1_0000);
    Squares(32, 0x1_0000_0000);
  }

  lemma Squares(k: nat, p: nat)
    requires Pow2(k) == p
    ensures Pow2(2 * k) == p * p
  {
    Pow2Add(k, k);
  }

  lemma {:induction false} Pow2Add(a: nat, b: nat)
    ensures Pow2(a + b) == Pow2(a) * Pow2(b)
  {
    if a > 0 { Pow2Add(a - 1, b); }
  }

  /** The exponent of a value that passes the power-of-two test. */
  lemma {:induction false} Exponent(value: nat) returns (k: nat)
    requires IsPowerOfTwo(value)
    ensures value == Pow2(k)
  {
    if value == 1 { return 0; }
    if value % 2 == 1 {
      AndSelf(value / 2);
      AndEven(value, value / 2);
      assert false;
    }
    assert (value - 1) / 2 == value / 2 - 1;
    assert And(value, value - 1) == 2 * And(value / 2, value / 2 - 1);
    k := Exponent(value / 2);
    k := k + 1;
  }

  lemma {:induction false} Pow2PassesTest(k: nat)
    ensures IsPowerOfTwo(Pow2(k))
  {
    AndLowMask(Pow2(k), k);
    assert Pow2(k) % Pow2(k) == 0 by { DivModUnique(Pow2(k), Pow2(k), 1, 0); }
  }

  /** The bit test accepts exactly the powers of two. */
  lemma PowerOfTwoTest(value: nat)
    ensures IsPowerOfTwo(value) <==> exists k: nat :: value == Pow2(k)
  {
    if IsPowerOfTwo(value) { var k := Exponent(value); }
    if k: nat :| value == Pow2(k) { Pow2PassesTest(k); }
  }

  lemma {:induction false} Pow2Monotone(a: nat, b: nat)
    ensures a <= b <==> Pow2(a) <= Pow2(b)
  {
    if a > 0 && b > 0 { Pow2Monotone(a - 1, b - 1); }
  }

  /** For a power-of-two alignment the mask test of a 64-bit pattern is exactly divisibility. */
  lemma MaskTestIsDivisibility(x: nat, align: nat)
    requires IsPowerOfTwo(align)
    ensures And(x, align - 1) == x % align
  {
    var k := Exponent(align);
    AndLowMask(x, k);
  }

  lemma AlignmentDividesWord(align: nat) returns (times: nat)
    requires IsPowerOfTwo(align) && align < WORD
    ensures times > 0 && WORD == times * align
  {
    var k := Exponent(align);
    WordIsPow2();
    Pow2Monotone(64, k);
    Pow2Add(64 - k, k);
    times := Pow2(64 - k);
  }

  /** The largest power of two in a 64-bit word. */
  lemma AlignmentIsHalfWord(align: nat)
    requires IsPowerOfTwo(align) && align < WORD
    ensures align <= WORD / 2
  {
    var k := Exponent(align);
    WordIsPow2();
    Pow2Monotone(64, k);
    Pow2Monotone(k, 63);
    assert Pow2(64) == 2 * Pow2(63);
  }

  /** Clearing with ~(align - 1) rounds a 64-bit word down to a multiple of the alignment. */
  lemma ClearMask(x: nat, align: nat)
    requires IsPowerOfTwo(align) && align < WORD && x < WORD
    ensures And(x, Not64(align - 1)) == x - x % align
  {
    var k := Exponent(align);
    WordIsPow2();
    Pow2Monotone(64, k);
    AndHighMask(x, k, 64);
  }

  /** aiscp's align_up, with the wrap-around of size_t addition. */
  function AlignUp(value: nat, align: nat): nat
    requires 0 < align < WORD && value < WORD
  {
    And((value + align - 1) % WORD, Not64(align - 1))
  }

  ghost predicate LeastMultipleAtOrAbove(r: nat, value: nat, align: nat)
    requires align > 0
  {
    r % align == 0 && value <= r < value + align
  }

  lemma RoundDownIsMultiple(x: nat, align: nat)
    requires align > 0
    ensures x % align <= x && (x - x % align) % align == 0
  {
    assert x == (x / align) * align + x % align;
    DivModUnique(x - x % align, align, x / align, 0);
  }

  /** align_up returns the least multiple at or above its argument exactly when the sum does not wrap. */
  lemma AlignUpIsLeastMultiple(value: nat, align: nat)
    requires IsPowerOfTwo(align) && align < WORD && value < WORD
    ensures LeastMultipleAtOrAbove(AlignUp(value, align), value, align) <==> value + align - 1 < WORD
  {
    if value + align - 1 < WORD {
      AlignUpExact(value, align);
    } else {
      AlignUpWrapped(value, align);
    }
  }

  lemma AlignUpExact(value: nat, align: nat)
    requires IsPowerOfTwo(align) && align < WORD && value + align - 1 < WORD
    ensures LeastMultipleAtOrAbove(AlignUp(value, align), value, align)
  {
    var s := value + align - 1;
    SmallMod(s, WORD);
    ClearMask(s, align);
    RoundDownIsMultiple(s, align);
  }

  lemma AlignUpWrapped(value: nat, align: nat)
    requires IsPowerOfTwo(align) && align < WORD && value < WORD && value + align - 1 >= WORD
    ensures AlignUp(value, align) < value
  {
    var s := value + align - 1 - WORD;
    DivModUnique(value + align - 1, WORD, 1, s);
    ClearMask(s, align);
  }

  /** The least multiple is at most every other multiple that is large enough. */
  lemma LeastIsLeast(r: nat, value: nat, align: nat, m: nat)
    requires align > 0 && LeastMultipleAtOrAbove(r, value, align) && m % align == 0 && value <= m
    ensures r <= m
  {
    var a, b := r / align, m / align;
    assert r == a * align && m == b * align;
    if a <= b {
      ProductsGrow(a, b, align);
    } else {
      ProductsGrow(b + 1, a, align);
    }
  }

  lemma ProductsGrow(a: nat, b: nat, d: nat)
    requires a <= b
    ensures a * d <= b * d
    ensures (a + 1) * d == a * d + d
    ensures a > 0 ==> a * d == (a - 1) * d + d
  {
  }

  lemma SubMultiple(x: nat, y: nat, align: nat)
    requires align > 0 && x % align == 0 && y % align == 0 && y <= x
    ensures (x - y) % align == 0
  {
    var a, b := x / align, y / align;
    assert x == a * align && y == b * align;
    assert x - y == (a - b) * align;
    if a < b { ProductsGrow(a, b, align); }
    DivModUnique(x - y, align, a - b, 0);
  }

  lemma SmallMod(x: nat, d: nat)
    requires x < d
    ensures x % d == x
  {
  }

  lemma AlignUpCovers(value: nat, align: nat)
    requires IsPowerOfTwo(align) && align < WORD && value + align - 1 < WORD
    ensures value <= AlignUp(value, align) < value + align
  {
    AlignUpExact(value, align);
  }

  /** A concrete wrap: rounding the largest word up to a page yields zero. */
  lemma AlignUpWraps()
    ensures IsPowerOfTwo(4096) && AlignUp(WORD - 1, 4096) == 0
  {
    assert Pow2(12) == 4096;
    Pow2PassesTest(12);
    var s := (WORD - 1 + 4096 - 1) % WORD;
    assert s == 4094;
    ClearMask(s, 4096);
  }

  /** The kernel's MAX_RW_COUNT: INT_MAX with the in-page bits cleared. */
  function MaxRwCount(pageSize: nat): (r: nat)
    requires IsPowerOfTwo(pageSize) && pageSize < WORD
    ensures r <= INT_MAX && r % pageSize == 0 && INT_MAX < r + pageSize
  {
    ClearMask(INT_MAX, pageSize);
    RoundDownIsMultiple(INT_MAX, pageSize);
    And(INT_MAX, Not64(pageSize - 1))
  }

  lemma MaxRwCountOfDefaultPage()
    ensures IsPowerOfTwo(4096) && MaxRwCount(4096) == 0x7fff_f000
  {
    assert Pow2(12) == 4096;
    Pow2PassesTest(12);
    ClearMask(INT_MAX, 4096);
  }

  lemma ModOfMultiple(x: nat, inner: nat, outer: nat)
    requires inner > 0 && outer > 0 && outer % inner == 0 && x % outer == 0
    ensures x % inner == 0
  {
    var a, b := x / outer, outer / inner;
    assert x == a * outer && outer == b * inner;
    assert x == (a * b) * inner;
    DivModUnique(x, inner, a * b, 0);
  }

  /** Clamping a size to MAX_RW_COUNT keeps any alignment that divides the page size. */
  lemma ClampKeepsAlignment(size: nat, align: nat, pageSize: nat)
    requires IsPowerOfTwo(pageSize) && pageSize < WORD && align > 0
    requires pageSize % align == 0 && size % align == 0
    ensures (if size <= MaxRwCount(pageSize) then size else MaxRwCount(pageSize)) % align == 0
  {
    ModOfMultiple(MaxRwCount(pageSize), align, pageSize);
  }
}
