/** Machine-word arithmetic used by the arena and the codec: powers of two, the
    floor of the binary logarithm, bit masks, and the rounding written with them. */
module Bits {

  const TWO64: nat := 0x1_0000_0000_0000_0000

  function Pow2(k: nat): (p: nat)
    ensures p > 0
  {
    if k == 0 then 1 else 2 * Pow2(k - 1)
  }

  lemma {:induction false} Pow2Monotone(j: nat, k: nat)
    requires j <= k
    ensures Pow2(j) <= Pow2(k)
    ensures j < k ==> Pow2(j) < Pow2(k)
    decreases k
  {
    if j < k {
      Pow2Monotone(j, k - 1);
    }
  }

  lemma {:induction false} Pow2Add(j: nat, k: nat)
    ensures Pow2(j + k) == Pow2(j) * Pow2(k)
  {
    if j == 0 {
    } else {
      Pow2Add(j - 1, k);
      assert Pow2(j + k) == 2 * Pow2(j - 1 + k);
    }
  }

  lemma Pow2IsMultipleOf8(k: nat) returns (e: nat)
    requires k >= 3
    ensures Pow2(k) == 8 * e && e > 0
  {
    assert Pow2(k - 1) == 2 * Pow2(k - 2);
    assert Pow2(k - 2) == 2 * Pow2(k - 3);
    e := Pow2(k - 3);
  }

  lemma Pow2Values()
    ensures Pow2(3) == 8 && Pow2(4) == 16 && Pow2(5) == 32 && Pow2(6) == 64 && Pow2(7) == 128
    ensures Pow2(8) == 256 && Pow2(9) == 512 && Pow2(12) == 4096
    ensures Pow2(64) == TWO64
  {
    Pow2Bytes();
    Pow2Word();
  }

  lemma Pow2Bytes()
    ensures Pow2(3) == 8 && Pow2(4) == 16 && Pow2(5) == 32 && Pow2(6) == 64 && Pow2(7) == 128
    ensures Pow2(8) == 256 && Pow2(9) == 512 && Pow2(12) == 4096
  {
    assert Pow2(3) == 8;
    assert Pow2(6) == 64;
    assert Pow2(9) == 512;
  }

  lemma Pow2Word()
    ensures Pow2(64) == TWO64
  {
    hide Pow2;
    Pow2Bytes();
    Square(8, 0x100);
    Square(16, 0x1_0000);
    Square(32, 0x1_0000_0000);
  }

  lemma Square(k: nat, p: nat)
    requires Pow2(k) == p
    ensures Pow2(2 * k) == p * p
  {
    hide Pow2;
    Pow2Add(k, k);
  }

  /** Position of the highest set bit of a positive word. */
  function Log2Floor(n: nat): (k: nat)
    requires n > 0
  {
    if n == 1 then 0 else 1 + Log2Floor(n / 2)
  }

  /** Log2Floor is the only k with 2^k <= n < 2^(k+1). */
  lemma {:induction false} Log2FloorExact(n: nat, k: nat)
    requires n > 0
    ensures Log2Floor(n) == k <==> Pow2(k) <= n < Pow2(k + 1)
  {
    if n == 1 {
      if k > 0 {
        Pow2Monotone(1, k);
      }
    } else if k > 0 {
      Log2FloorExact(n / 2, k - 1);
    }
  }

  /** Bitwise conjunction of two words. */
  function BitAnd(x: nat, y: nat): (r: nat)
  {
    if x == 0 || y == 0 then 0 else (if x % 2 == 1 && y % 2 == 1 then 1 else 0) + 2 * BitAnd(x / 2, y / 2)
  }

  /** Clearing the k low bits of a word. */
  function ClearLow(x: nat, k: nat): (r: nat)
  {
    if k == 0 then x else 2 * ClearLow(x / 2, k - 1)
  }

  /** Masking with the `width`-bit word 2^width - 2^k clears the k low bits. */
  lemma {:induction false} HighMask(x: nat, k: nat, width: nat)
    requires k <= width && x < Pow2(width)
    ensures Pow2(width) >= Pow2(k)
    ensures BitAnd(x, Pow2(width) - Pow2(k)) == ClearLow(x, k)
    decreases width
  {
    Pow2Monotone(k, width);
    if k == width {
      ClearLowFacts(x, k);
    } else {
      Pow2Monotone(k, width - 1);
      HighMask(x / 2, if k == 0 then 0 else k - 1, width - 1);
      if x == 0 {
        ClearLowFacts(x, k);
      }
    }
  }

  /** Clearing the k low bits rounds down to a multiple of 2^k. */
  lemma {:induction false} ClearLowFacts(x: nat, k: nat)
    ensures ClearLow(x, k) <= x < ClearLow(x, k) + Pow2(k)
    ensures ClearLow(x, k) % Pow2(k) == 0
    ensures x < Pow2(k) ==> ClearLow(x, k) == 0
  {
    var q := ClearLowQuotient(x, k);
    DivModUnique(ClearLow(x, k), Pow2(k), q, 0);
    if x < Pow2(k) {
      SmallMultiple(q, Pow2(k), ClearLow(x, k));
    }
  }

  lemma {:induction false} ClearLowQuotient(x: nat, k: nat) returns (q: nat)
    ensures ClearLow(x, k) == q * Pow2(k)
    ensures ClearLow(x, k) <= x < ClearLow(x, k) + Pow2(k)
  {
    if k == 0 {
      q := x;
    } else {
      q := ClearLowQuotient(x / 2, k - 1);
      MulTwice(q, Pow2(k - 1));
    }
  }

  lemma MulTwice(q: int, m: int)
    ensures 2 * (q * m) == q * (2 * m)
  {
  }

  lemma MulGrows(a: int, b: int, m: nat)
    requires a <= b
    ensures a * m <= b * m
  {
  }

  lemma SmallMultiple(a: int, m: nat, r: int)
    requires a * m == r && -(m as int) < r < m
    ensures a == 0
  {
    if a >= 1 {
      MulGrows(1, a, m);
    } else if a <= -1 {
      MulGrows(a, -1, m);
    }
  }

  lemma DivModUnique(x: int, m: nat, q: int, r: int)
    requires m > 0 && x == q * m + r && 0 <= r < m
    ensures x / m == q && x % m == r
  {
    var d, e := x / m, x % m;
    assert d * m + e == x;
    assert (q - d) * m == e - r by {
      assert (q - d) * m == q * m - d * m;
    }
    SmallMultiple(q - d, m, e - r);
  }

  /** The two's complement word of -align, written ~align + 1 in the source. */
  function Negated(align: nat): (r: nat)
    requires 0 < align <= TWO64
  {
    TWO64 - align
  }

  /** Rounding a size up to the next multiple of 8, in 64-bit arithmetic. */
  function AlignUpTo8(n: nat): (r: nat)
  {
    BitAnd((n + 7) % TWO64, Negated(8))
  }

  /** The result is the least multiple of 8 that is at least n, unless n + 7 leaves
      the word: then the result is 0. */
  lemma AlignUpTo8Exact(n: nat)
    requires n < TWO64
    ensures AlignUpTo8(n) % 8 == 0
    ensures n + 7 < TWO64 ==> n <= AlignUpTo8(n) < n + 8
    ensures n <= AlignUpTo8(n) <==> n + 7 < TWO64
  {
    hide Pow2, BitAnd, ClearLow;
    Pow2Values();
    var x := (n + 7) % TWO64;
    HighMask(x, 3, 64);
    ClearLowFacts(x, 3);
  }

  /** Clearing the three low bits of a size. */
  function RoundDownTo8(n: nat): (r: nat)
  {
    BitAnd(n, Negated(8))
  }

  lemma RoundDownTo8Exact(n: nat)
    requires n < TWO64
    ensures RoundDownTo8(n) == n - n % 8
  {
    hide Pow2, BitAnd, ClearLow;
    Pow2Values();
    HighMask(n, 3, 64);
    ClearLowFacts(n, 3);
  }

  /** Rounding an address up to a power-of-two alignment, in 64-bit arithmetic. */
  function AlignTo(p: nat, align: nat): (r: nat)
    requires 0 < align <= TWO64
  {
    BitAnd((p + align - 1) % TWO64, Negated(align))
  }

  /** For a power of two the result is the least aligned address at or above p. */
  lemma AlignToExact(p: nat, k: nat)
    requires k < 64 && p + Pow2(k) - 1 < TWO64
    ensures Pow2(k) <= TWO64
    ensures AlignTo(p, Pow2(k)) % Pow2(k) == 0
    ensures p <= AlignTo(p, Pow2(k)) < p + Pow2(k)
  {
    AlignToMask(p, k);
    ClearLowFacts(p + Pow2(k) - 1, k);
  }

  /** Alignments above 8 leave the result a multiple of 8 as well. */
  lemma AlignToMultipleOf8(p: nat, k: nat)
    requires 3 <= k < 64 && p + Pow2(k) - 1 < TWO64
    ensures Pow2(k) <= TWO64
    ensures AlignTo(p, Pow2(k)) % 8 == 0
  {
    AlignToMask(p, k);
    ClearLowMultipleOf8(p + Pow2(k) - 1, k);
  }

  lemma AlignToMask(p: nat, k: nat)
    requires k < 64 && p + Pow2(k) - 1 < TWO64
    ensures Pow2(k) <= TWO64
    ensures AlignTo(p, Pow2(k)) == ClearLow(p + Pow2(k) - 1, k)
  {
    hide Pow2, BitAnd, ClearLow;
    Pow2Word();
    HighMask(p + Pow2(k) - 1, k, 64);
  }

  lemma ClearLowMultipleOf8(x: nat, k: nat)
    requires k >= 3
    ensures ClearLow(x, k) % 8 == 0
  {
    var q := ClearLowQuotient(x, k);
    var e := Pow2IsMultipleOf8(k);
    EightTimes(q, e, Pow2(k));
  }

  lemma EightTimes(q: int, e: int, p: int)
    requires p == 8 * e
    ensures q * p % 8 == 0
  {
    assert q * p == 8 * (q * e) by {
      assert q * (8 * e) == 8 * (q * e);
    }
    DivModUnique(q * p, 8, q * e, 0);
  }
}
