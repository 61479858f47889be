/**
 Go's uint32 arithmetic, with wrap-around and
 shift-past-width written out.
 */
module Words {
  const TWO31 := 0x8000_0000
  const TWO32 := 0x1_0000_0000

  type uint32 = x: int | 0 <= x < TWO32

  function Pow2(n: nat): (p: nat)
    ensures p >= 1
  {
    if n == 0 then 1 else 2 * Pow2(n - 1)
  }

  lemma {:induction false} Pow2Monotone(m: nat, n: nat)
    requires m <= n
    ensures Pow2(m) <= Pow2(n)
    ensures m < n ==> 2 * Pow2(m) <= Pow2(n)
    decreases n
  {
    if m < n {
      Pow2Monotone(m, n - 1);
    }
  }

  lemma Pow2Landmarks()
    ensures Pow2(31) == TWO31
    ensures Pow2(32) == TWO32
  {
    assert Pow2(8) == 256;
    assert Pow2(16) == 65536;
    assert Pow2(24) == 16777216;
  }

  /** `uint32(1) << n`: zero once the shift passes the word. */
  function OneShl(n: nat): (r: uint32)
    ensures n < 32 ==> r == Pow2(n)
    ensures n >= 32 ==> r == 0
  {
    if n < 32 then
      Pow2Landmarks();
      Pow2Monotone(n, 31);
      Pow2(n)
    else 0
  }

  function Add(a: uint32, b: uint32): (r: uint32)
    ensures r == (a + b) % TWO32
  {
    if a + b < TWO32 then a + b else a + b - TWO32
  }

  function Sub(a: uint32, b: uint32): (r: uint32)
    ensures r == (a - b) % TWO32
  {
    if a >= b then a - b else a - b + TWO32
  }

  /** `bits.TrailingZeros32`, which answers 32 for zero. */
  function TrailingZeros(n: uint32): nat {
    if n == 0 then 32 else if n % 2 == 1 then 0 else 1 + TrailingZeros(n / 2)
  }

  /** n is a multiple of 2^j: see AlignedIsDivisible. */
  predicate Aligned(n: nat, j: nat) {
    j == 0 || (n % 2 == 0 && Aligned(n / 2, j - 1))
  }

  lemma MulMonotone(a: int, b: int, p: nat)
    requires a <= b
    ensures a * p <= b * p
  {
  }

  lemma SmallMultipleIsZero(d: int, p: int)
    requires p > 0 && -p < d * p < p
    ensures d == 0
  {
    if d >= 1 {
      MulMonotone(1, d, p);
    } else if d <= -1 {
      MulMonotone(d, -1, p);
    }
  }

  /** Quotient and remainder are determined by their defining equation. */
  lemma EuclidUnique(x: nat, p: nat, q: nat, r: nat)
    requires 0 <= r < p
    requires x == q * p + r
    ensures x / p == q && x % p == r
  {
    var d := q - x / p;
    assert d * p == q * p - (x / p) * p;
    SmallMultipleIsZero(d, p);
  }

  lemma DoubledDivisor(h: nat, bit: nat, p: nat)
    requires p > 0 && bit < 2
    ensures (2 * h + bit) % (2 * p) == 2 * (h % p) + bit
  {
    var q, r := h / p, h % p;
    assert h == q * p + r;
    assert q * (2 * p) == 2 * (q * p);
    EuclidUnique(2 * h + bit, 2 * p, q, 2 * r + bit);
  }

  lemma {:induction false} AlignedIsDivisible(n: nat, j: nat)
    ensures Aligned(n, j) <==> n % Pow2(j) == 0
  {
    if j > 0 {
      AlignedIsDivisible(n / 2, j - 1);
      DoubledDivisor(n / 2, n % 2, Pow2(j - 1));
    }
  }

  lemma {:induction false} ZeroIsAligned(j: nat)
    ensures Aligned(0, j)
  {
    if j > 0 {
      ZeroIsAligned(j - 1);
    }
  }

  lemma MultipleIsAligned(q: nat, j: nat)
    ensures Aligned(q * Pow2(j), j)
  {
    EuclidUnique(q * Pow2(j), Pow2(j), q, 0);
    AlignedIsDivisible(q * Pow2(j), j);
  }

  lemma AlignedQuotient(n: nat, j: nat) returns (q: nat)
    requires Aligned(n, j)
    ensures n == q * Pow2(j)
  {
    AlignedIsDivisible(n, j);
    q := n / Pow2(j);
  }

  /** The trailing-zero count is exactly the coarsest alignment. */
  lemma {:induction false} TrailingZerosIsAlignment(n: uint32, j: nat)
    requires n > 0
    ensures Aligned(n, j) <==> j <= TrailingZeros(n)
    decreases j
  {
    if j > 0 && n % 2 == 0 {
      TrailingZerosIsAlignment(n / 2, j - 1);
    }
  }

  lemma {:induction false} TrailingZerosOfPower(k: nat, n: uint32)
    requires n as int == Pow2(k)
    ensures TrailingZeros(n) == k
  {
    if k > 0 {
      TrailingZerosOfPower(k - 1, n / 2);
    }
  }

  lemma {:induction false} TrailingZerosBelowWidth(n: uint32)
    requires n > 0
    ensures TrailingZeros(n) <= 31
    ensures Pow2(TrailingZeros(n)) <= n
  {
    var t := TrailingZeros(n);
    TrailingZerosIsAlignment(n, t);
    var q := AlignedQuotient(n, t);
    MulMonotone(1, q, Pow2(t));
    if t >= 32 {
      Pow2Landmarks();
      Pow2Monotone(32, t);
    }
  }

  /** A finer alignment is implied by a coarser one. */
  lemma {:induction false} AlignedFiner(n: nat, i: nat, j: nat)
    requires i <= j && Aligned(n, j)
    ensures Aligned(n, i)
    decreases i
  {
    if i > 0 {
      AlignedFiner(n / 2, i - 1, j - 1);
    }
  }

  /** Two multiples of the same step differ by at least the step. */
  lemma AlignedGap(a: nat, b: nat, j: nat)
    requires Aligned(a, j) && Aligned(b, j) && a < b
    ensures a + Pow2(j) <= b
  {
    var p := Pow2(j);
    var qa := AlignedQuotient(a, j);
    var qb := AlignedQuotient(b, j);
    assert qa < qb by {
      if qb <= qa {
        MulMonotone(qb, qa, p);
      }
    }
    MulMonotone(qa + 1, qb, p);
    assert (qa + 1) * p == a + p;
  }

  lemma AlignedStep(a: nat, j: nat)
    requires Aligned(a, j)
    ensures Aligned(a + Pow2(j), j)
  {
    var q := AlignedQuotient(a, j);
    assert a + Pow2(j) == (q + 1) * Pow2(j);
    MultipleIsAligned(q + 1, j);
  }
}
