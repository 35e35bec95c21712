/**
 Powers of two, alignment and trailing zeros over the natural numbers.
 Everything is stated by halving, so that the proofs follow the binary digits.
 */
module Bits {

  function Pow2(k: nat): (r: nat)
    ensures r > 0
  {
    if k == 0 then 1 else 2 * Pow2(k - 1)
  }

  /** `q << k` */
  function Shifted(q: nat, k: nat): nat {
    if k == 0 then q else 2 * Shifted(q, k - 1)
  }

  /** `p` is a multiple of `2^k`. */
  ghost predicate Aligned(p: nat, k: nat) {
    exists q: nat :: Shifted(q, k) == p
  }

  lemma AlignedStep(p: nat, k: nat)
    ensures Aligned(p, k + 1) <==> p % 2 == 0 && Aligned(p / 2, k)
  {
    if Aligned(p, k + 1) {
      var q: nat :| Shifted(q, k + 1) == p;
      assert Shifted(q, k) == p / 2;
    }
    if p % 2 == 0 && Aligned(p / 2, k) {
      var q: nat :| Shifted(q, k) == p / 2;
      assert Shifted(q, k + 1) == p;
    }
  }

  lemma AlignedZero(p: nat)
    ensures Aligned(p, 0)
  {
    assert Shifted(p, 0) == p;
  }

  /** The number of trailing zero bits of `p`. */
  function TrailingZeros(p: nat): nat
    requires p > 0
  {
    if p % 2 == 1 then 0 else 1 + TrailingZeros(p / 2)
  }

  /** The index of the highest set bit of `n`. */
  function Log2(n: nat): (k: nat)
    requires n > 0
    ensures Pow2(k) <= n < 2 * Pow2(k)
  {
    if n == 1 then 0 else 1 + Log2(n / 2)
  }

  /** `n ^ (1 << k)`: flips bit `k` of `n`. */
  function FlipBit(n: nat, k: nat): int {
    if (n / Pow2(k)) % 2 == 1 then n - Pow2(k) else n + Pow2(k)
  }

  lemma {:induction false} AlignedMeansMultiple(p: nat, k: nat)
    ensures Aligned(p, k) <==> p % Pow2(k) == 0
  {
    AlignedZero(p);
    if k > 0 {
      AlignedStep(p, k - 1);
      AlignedMeansMultiple(p / 2, k - 1);
      ModDouble(p, Pow2(k - 1));
    }
  }

  lemma ModDouble(p: nat, m: nat)
    requires m > 0
    ensures p % (2 * m) == 2 * ((p / 2) % m) + p % 2
  {
    var h := p / 2;
    var q := h / m;
    assert h == q * m + h % m;
    var r := 2 * (h % m) + p % 2;
    assert p == q * (2 * m) + r;
    DivModUnique(p, 2 * m, q, r);
  }

  lemma HalveThenDivide(p: nat, m: nat)
    requires m > 0
    ensures (p / 2) / m == p / (2 * m)
  {
    var h := p / 2;
    var q := h / m;
    assert h == q * m + h % m;
    assert p == q * (2 * m) + (2 * (h % m) + p % 2);
    DivModUnique(p, 2 * m, q, 2 * (h % m) + p % 2);
  }

  lemma DivModUnique(p: nat, m: nat, q: nat, r: nat)
    requires m > 0 && r < m && p == q * m + r
    ensures p / m == q && p % m == r
  {
    var q', r' := p / m, p % m;
    assert p == m * q' + r';
    MultipleGap(m, q, q', r, r');
  }

  lemma MultipleGap(m: nat, q: int, q': int, r: nat, r': nat)
    requires r < m && r' < m && q * m + r == m * q' + r'
    ensures q == q' && r == r'
  {
    var d := q - q';
    assert d * m == r' - r;
    assert d >= 1 ==> d * m >= m;
    assert d <= -1 ==> d * m <= -1 * m;
  }

  lemma {:induction false} AlignedWeaken(p: nat, j: nat, k: nat)
    requires j <= k && Aligned(p, k)
    ensures Aligned(p, j)
  {
    AlignedZero(p);
    if j > 0 {
      AlignedStep(p, j - 1);
      AlignedStep(p, k - 1);
      AlignedWeaken(p / 2, j - 1, k - 1);
    }
  }

  lemma {:induction false} AlignedSum(p: nat, q: nat, k: nat)
    requires Aligned(p, k)
    ensures Aligned(p + q, k) <==> Aligned(q, k)
  {
    if k == 0 {
      AlignedZero(p + q);
      AlignedZero(q);
    } else {
      AlignedStep(p, k - 1);
      AlignedStep(q, k - 1);
      AlignedStep(p + q, k - 1);
      assert q % 2 == 0 ==> (p + q) / 2 == p / 2 + q / 2;
      AlignedSum(p / 2, q / 2, k - 1);
    }
  }

  lemma {:induction false} Pow2Aligned(k: nat, j: nat)
    requires j <= k
    ensures Aligned(Pow2(k), j)
  {
    AlignedZero(Pow2(k));
    if j > 0 {
      AlignedStep(Pow2(k), j - 1);
      Pow2Aligned(k - 1, j - 1);
    }
  }

  /** Distinct multiples of `2^k` are at least `2^k` apart. */
  lemma {:induction false} AlignedGap(p: nat, q: nat, k: nat)
    requires Aligned(p, k) && Aligned(q, k) && p < q
    ensures p + Pow2(k) <= q
  {
    if k > 0 {
      AlignedStep(p, k - 1);
      AlignedStep(q, k - 1);
      AlignedGap(p / 2, q / 2, k - 1);
    }
  }

  /** An odd multiple of `2^k` sits `2^k` above a multiple of `2^(k+1)`. */
  lemma {:induction false} OddMultiple(p: nat, k: nat)
    requires Aligned(p, k) && !Aligned(p, k + 1)
    ensures p >= Pow2(k) && Aligned(p - Pow2(k), k + 1)
    ensures p > 0 && TrailingZeros(p) == k
  {
    AlignedStep(p, k);
    if k == 0 {
      AlignedZero(p / 2);
      AlignedZero((p - 1) / 2);
      AlignedStep(p - 1, 0);
    } else {
      AlignedStep(p, k - 1);
      OddMultiple(p / 2, k - 1);
      AlignedStep(p - Pow2(k), k);
      assert (p - Pow2(k)) / 2 == p / 2 - Pow2(k - 1);
    }
  }

  lemma {:induction false} UpperHalf(p: nat, k: nat)
    requires Aligned(p, k + 1)
    ensures Aligned(p, k)
    ensures Aligned(p + Pow2(k), k) && !Aligned(p + Pow2(k), k + 1)
    ensures TrailingZeros(p + Pow2(k)) == k
  {
    AlignedStep(p, k);
    AlignedStep(p + Pow2(k), k);
    if k == 0 {
      AlignedZero(p);
      AlignedZero(p + 1);
    } else {
      AlignedStep(p, k - 1);
      AlignedStep(p + Pow2(k), k - 1);
      UpperHalf(p / 2, k - 1);
      assert (p + Pow2(k)) / 2 == p / 2 + Pow2(k - 1);
    }
  }

  lemma {:induction false} TrailingZerosAligned(p: nat, k: nat)
    requires p > 0
    ensures Aligned(p, k) <==> k <= TrailingZeros(p)
  {
    AlignedZero(p);
    if k > 0 {
      AlignedStep(p, k - 1);
      if p % 2 == 0 {
        TrailingZerosAligned(p / 2, k - 1);
      }
    }
  }

  /** Two aligned blocks that share a page are nested. */
  lemma Nested(p: nat, j: nat, q: nat, k: nat, x: nat)
    requires Aligned(p, j) && Aligned(q, k) && j <= k
    requires p <= x < p + Pow2(j) && q <= x < q + Pow2(k)
    ensures q <= p && p + Pow2(j) <= q + Pow2(k)
  {
    AlignedWeaken(q, j, k);
    if p < q {
      AlignedGap(p, q, j);
    }
    Pow2Aligned(k, j);
    AlignedSum(q, Pow2(k), j);
    AlignedGap(p, q + Pow2(k), j);
  }

  lemma {:induction false} Pow2Monotone(j: nat, k: nat)
    requires j <= k
    ensures Pow2(j) <= Pow2(k)
  {
    if j < k {
      Pow2Monotone(j, k - 1);
    }
  }

  lemma {:induction false} Pow2Apart(j: nat, k: nat)
    ensures j < k ==> 2 * Pow2(j) <= Pow2(k)
  {
    if j < k {
      Pow2Monotone(j + 1, k);
    }
  }

  lemma Log2Unique(n: nat, k: nat)
    requires n > 0 && Pow2(k) <= n < 2 * Pow2(k)
    ensures Log2(n) == k
  {
    Pow2Apart(Log2(n), k);
    Pow2Apart(k, Log2(n));
  }

  /** Flipping the top bit of a number clears it. */
  lemma FlipTopBit(n: nat, k: nat)
    requires Pow2(k) <= n < 2 * Pow2(k)
    ensures FlipBit(n, k) == n - Pow2(k)
  {
    DivModUnique(n, Pow2(k), 1, n - Pow2(k));
  }

  /** Inside a block aligned to its size, an offset and its page number have the same trailing zeros. */
  lemma {:induction false} OffsetTrailingZeros(p: nat, k: nat, d: nat)
    requires Aligned(p, k) && 0 < d < Pow2(k)
    ensures TrailingZeros(p + d) == TrailingZeros(d)
  {
    if d % 2 == 0 {
      AlignedStep(p, k - 1);
      assert (p + d) / 2 == p / 2 + d / 2;
      OffsetTrailingZeros(p / 2, k - 1, d / 2);
    } else if k > 0 {
      AlignedStep(p, k - 1);
    }
  }
}
