/** 64-bit division by shifting and subtracting. */
module Division {
  import opened Bits

  const TWO63: nat := 0x8000_0000_0000_0000
  const TWO64: nat := 0x1_0000_0000_0000_0000

  function Times(a: int, b: int): int { a * b }

  lemma TimesSum(a: int, b: int, c: int)
    ensures Times(a + b, c) == Times(a, c) + Times(b, c)
  {
  }

  lemma Doubled(k: nat, d: nat)
    ensures Pow2(k + 1) == 2 * Pow2(k) && Times(Pow2(k + 1), d) == 2 * Times(Pow2(k), d)
    ensures d > 0 ==> Pow2(k) <= Times(Pow2(k), d)
  {
    hide Times;
    TimesSum(Pow2(k), Pow2(k), d);
    TimesAtLeast(Pow2(k), d);
  }

  lemma TimesAtLeast(a: nat, d: nat)
    ensures d > 0 ==> a <= Times(a, d)
  {
    if d > 0 {
      assert Times(a, d) == a * (d - 1) + a;
    }
  }

  /** A remainder below the divisor fixes the quotient. */
  lemma QuotientIs(n: nat, d: nat, q: nat, r: nat)
    requires r < d && n == Times(q, d) + r
    ensures q == n / d
  {
    DivModUnique(n, d, q, r);
  }

  /** `__udivdi3`: the quotient, for every 64-bit dividend and every non-zero 64-bit divisor; no shift
      and no addition leaves 64 bits. */
  method UDivDI3(n0: nat, d0: nat) returns (q: nat)
    requires n0 < TWO64 && 0 < d0 < TWO64
    ensures q == n0 / d0
  {
    hide Times, Pow2;
    Unit(d0);
    var n, d, bit := n0, d0, 1;
    ghost var k := 0;
    q := 0;
    while d < TWO63
      invariant 0 < d < TWO64 && bit == Pow2(k) && d == Times(Pow2(k), d0)
      decreases TWO64 - d
    {
      Doubled(k, d0);
      assert d * 2 < TWO64 && bit * 2 < TWO64;
      d := (d * 2) % TWO64;
      bit := (bit * 2) % TWO64;
      k := k + 1;
    }
    while bit != 0
      invariant n0 == Times(q, d0) + n && 0 <= n
      invariant bit != 0 ==> bit == Pow2(k) && d == Times(Pow2(k), d0) && n < 2 * d
      invariant bit == 0 ==> n < d0
      decreases bit
    {
      if d <= n {
        n := n - d;
        TimesSum(q, bit, d0);
        q := q + bit;
      }
      if k > 0 {
        k := k - 1;
        Doubled(k, d0);
      }
      d := d / 2;
      bit := bit / 2;
    }
    QuotientIs(n0, d0, q, n);
  }

  lemma Unit(d: nat)
    ensures Pow2(0) == 1 && Times(Pow2(0), d) == d && Times(0, d) == 0
  {
  }
}
