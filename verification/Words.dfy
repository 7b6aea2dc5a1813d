/** Unsigned machine words: ranges, wrap-around, saturation, and the bit operators the sources use. */
module Words {

  const U64_MAX: nat := 0xFFFF_FFFF_FFFF_FFFF
  const PAGE_SIZE: nat := 4096
  const PAGE_COUNT_LIMIT: nat := 0x10_0000_0000_0000  // 2^52: the first page count whose byte size wraps

  type U64 = n: int | 0 <= n <= 0xFFFF_FFFF_FFFF_FFFF
  type U32 = n: int | 0 <= n <= 0xFFFF_FFFF

  /** Rust's `*` on u64 by the page size, with overflow checks off (the release profile): it wraps. */
  function PagesToBytes(pages: U64): U64 {
    (pages * PAGE_SIZE) % (U64_MAX + 1)
  }

  function BytesToPages(bytes: U64): U64 {
    bytes / PAGE_SIZE
  }

  /** The value a u64 counter that sticks at its maximum shows for a true count of `n`. */
  function Cap(n: nat): U64 {
    if n <= U64_MAX then n else U64_MAX
  }

  /** `u64::saturating_add`. */
  function SatAdd(a: U64, b: U64): U64 {
    if a + b > U64_MAX then U64_MAX else a + b
  }

  /** Converting pages to bytes and back loses exactly the bits from 2^52 up. */
  lemma PagesRoundTrip(pages: U64)
    ensures PagesToBytes(pages) == pages % 0x10_0000_0000_0000 * 4096
    ensures BytesToPages(PagesToBytes(pages)) == pages % 0x10_0000_0000_0000
    ensures PagesToBytes(BytesToPages(PagesToBytes(pages))) == PagesToBytes(pages)
    ensures PagesToBytes(pages) == pages * 4096 <==> pages < 0x10_0000_0000_0000
    ensures BytesToPages(PagesToBytes(pages)) == pages <==> pages < 0x10_0000_0000_0000
  {
    var q, r := pages / PAGE_COUNT_LIMIT, pages % PAGE_COUNT_LIMIT;
    assert pages * PAGE_SIZE == q * (U64_MAX + 1) + r * PAGE_SIZE;
    assert PagesToBytes(pages) == r * PAGE_SIZE;
  }

  /** Feeding a saturating accumulator is the same as capping the true sum. */
  lemma CapAdd(a: nat, b: nat)
    ensures SatAdd(Cap(a), Cap(b)) == Cap(a + b)
  {
  }

  // ---- Bit operators, defined one bit at a time ----

  function Pow2(k: nat): nat
    ensures Pow2(k) > 0
  {
    if k == 0 then 1 else 2 * Pow2(k - 1)
  }

  function BitAnd(a: nat, b: nat): nat
    decreases a
  {
    if a == 0 || b == 0 then 0
    else 2 * BitAnd(a / 2, b / 2) + (if a % 2 == 1 && b % 2 == 1 then 1 else 0)
  }

  function ShiftRight(a: nat, k: nat): nat
    decreases k
  {
    if k == 0 then a else ShiftRight(a / 2, k - 1)
  }

  lemma MulStep(x: int, y: int, m: nat)
    requires x < y
    ensures x * m + m <= y * m
  {
    var d := y - x - 1;
    assert y * m == x * m + m + d * m;
  }

  lemma QuotientNotAbove(q: nat, r: nat, q': nat, r': nat, m: nat)
    requires r < m && r' < m && q * m + r == q' * m + r'
    ensures q <= q'
  {
    if q' < q {
      MulStep(q', q, m);
    }
  }

  lemma DivModUnique(a: nat, m: nat, q: nat, r: nat)
    requires m > 0 && r < m && a == q * m + r
    ensures a / m == q && a % m == r
  {
    QuotientNotAbove(q, r, a / m, a % m, m);
    QuotientNotAbove(a / m, a % m, q, r, m);
  }

  lemma DoubleDivMod(a: nat, m: nat)
    requires m > 0
    ensures a % (2 * m) == 2 * ((a / 2) % m) + a % 2
    ensures a / (2 * m) == (a / 2) / m
  {
    var h := a / 2;
    assert a == h / m * (2 * m) + (2 * (h % m) + a % 2);
    DivModUnique(a, 2 * m, h / m, 2 * (h % m) + a % 2);
  }

  /** Masking with 2^k - 1 is remainder by 2^k. */
  lemma {:induction false} LowMaskIsMod(a: nat, k: nat)
    ensures BitAnd(a, Pow2(k) - 1) == a % Pow2(k)
  {
    if k > 0 {
      var m := Pow2(k - 1);
      assert (2 * m - 1) / 2 == m - 1;
      assert (2 * m - 1) % 2 == 1;
      LowMaskIsMod(a / 2, k - 1);
      DoubleDivMod(a, m);
    }
  }

  /** Shifting right by k is division by 2^k. */
  lemma {:induction false} ShiftIsDiv(a: nat, k: nat)
    ensures ShiftRight(a, k) == a / Pow2(k)
  {
    if k > 0 {
      ShiftIsDiv(a / 2, k - 1);
      DoubleDivMod(a, Pow2(k - 1));
    }
  }

  /** The page-alignment test of the parser and the nibble step of the hex printer. */
  lemma {:induction false} PageMask(a: nat)
    ensures BitAnd(a, 0xFFF) == a % PAGE_SIZE
  {
    assert Pow2(12) == 4096;
    LowMaskIsMod(a, 12);
  }

  lemma {:induction false} NibbleMask(a: nat)
    ensures BitAnd(a, 0xF) == a % 16
    ensures ShiftRight(a, 4) == a / 16
  {
    assert Pow2(4) == 16;
    LowMaskIsMod(a, 4);
    ShiftIsDiv(a, 4);
  }

  lemma {:induction false} PowersOfTwo()
    ensures Pow2(16) == 0x1_0000
    ensures Pow2(32) == 0x1_0000_0000
  {
    assert Pow2(8) == 0x100;
    assert Pow2(16) == 0x1_0000;
    assert Pow2(24) == 0x100_0000;
    assert Pow2(32) == 0x1_0000_0000;
  }

  lemma {:induction false} Mask16(a: nat)
    ensures BitAnd(a, 0xFFFF) == a % 0x1_0000
  {
    PowersOfTwo();
    LowMaskIsMod(a, 16);
  }

  lemma {:induction false} Mask32(a: nat)
    ensures BitAnd(a, 0xFFFF_FFFF) == a % 0x1_0000_0000
  {
    PowersOfTwo();
    LowMaskIsMod(a, 32);
  }

  lemma {:induction false} Shift16And32(a: nat)
    ensures ShiftRight(a, 16) == a / 0x1_0000
    ensures ShiftRight(a, 32) == a / 0x1_0000_0000
  {
    PowersOfTwo();
    ShiftIsDiv(a, 16);
    ShiftIsDiv(a, 32);
  }
}
