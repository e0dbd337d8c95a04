/** Facts about division and powers that several modules need. */
module Numbers {

  lemma QuotientBelow(x: nat, n: nat, d: nat)
    requires x < n * d
    ensures d > 0 && x / d < n
  {
    assert x == d * (x / d) + x % d;
  }

  /** A fraction below one of `size` is below `size`. */
  lemma ScaledBelow(x: nat, size: nat, word: nat)
    requires x < word && size > 0
    ensures x * size / word < size
  {
    assert x * size < size * word;
    QuotientBelow(x * size, size, word);
  }

  /** The quotient is the only number that fits. */
  lemma QuotientIs(x: nat, d: nat, q: nat)
    requires d > 0 && q * d <= x < (q + 1) * d
    ensures x / d == q
  {
    var q', r := x / d, x % d;
    assert x == d * q' + r;
    if q' < q {
      MulMonotone(q' + 1, q, d);
    } else if q' > q {
      MulMonotone(q + 1, q', d);
    }
  }

  lemma QuotientBounds(x: nat, d: nat)
    requires d > 0
    ensures x / d * d <= x < (x / d + 1) * d
  {
  }

  lemma MulMonotone(x: int, y: int, d: nat)
    requires x <= y
    ensures x * d <= y * d
  {
  }

  lemma QuotientMonotone(x: nat, y: nat, d: nat)
    requires d > 0 && x <= y
    ensures x / d <= y / d
  {
    QuotientBounds(x, d);
    QuotientBounds(y, d);
    if x / d > y / d {
      MulMonotone(y / d + 1, x / d, d);
    }
  }

  lemma AtMost(q: int, d: nat, x: nat)
    requires d > 0 && q * d <= x
    ensures q <= x
  {
    if q > 0 {
      MulAtLeast(q, d);
    }
  }

  lemma AtLeastZero(q: int, d: nat, x: nat)
    requires d > 0 && x < (q + 1) * d
    ensures 0 <= q
  {
    if q < 0 {
      MulMonotone(q + 1, 0, d);
    }
  }

  /** The quotient as a unit of proofs. */
  function Over(x: nat, d: nat): (q: nat)
    requires d > 0
    ensures q <= x
  {
    QuotientBounds(x, d);
    AtMost(x / d, d, x);
    AtLeastZero(x / d, d, x);
    x / d
  }

  lemma OverIs(x: nat, d: nat)
    requires d > 0
    ensures Over(x, d) == x / d
  {
  }

  // ---------------------------------------------------------------------
  // Products
  // ---------------------------------------------------------------------

  /** A product, named so that proofs can treat it as a unit. */
  function Times(x: int, y: int): int { x * y }

  lemma TimesLaws(x: int, y: int, z: int)
    ensures Times(x + y, z) == Times(x, z) + Times(y, z)
    ensures Times(x, y + z) == Times(x, y) + Times(x, z)
    ensures Times(Times(x, y), z) == Times(x, Times(y, z))
    ensures Times(x, y) == Times(y, x)
    ensures Times(0, x) == 0 && Times(1, x) == x
  {
  }

  lemma TimesPositive(x: nat, y: nat)
    ensures Times(x, y) >= 0
    ensures x > 0 && y > 0 ==> Times(x, y) >= x && Times(x, y) >= y
  {
  }

  lemma TimesMonotone(x: int, y: int, p: nat)
    requires x <= y
    ensures Times(x, p) <= Times(y, p)
  {
    MulMonotone(x, y, p);
  }

  lemma TimesGap(x: nat, y: nat, p: nat)
    requires x < y
    ensures Times(x, p) + p <= Times(y, p)
  {
    MulMonotone(x + 1, y, p);
  }

  lemma TimesIs(x: int, y: int)
    ensures Times(x, y) == x * y
  {
  }

  lemma QuotientTimes(x: nat, d: nat)
    requires d > 0
    ensures x == Times(x / d, d) + x % d && 0 <= x % d < d && 0 <= x / d
  {
    QuotientBounds(x, d);
    AtLeastZero(x / d, d, x);
  }

  lemma QuotientTimesBelow(x: nat, t: nat, d: nat)
    requires d > 0 && x < Times(t, d)
    ensures x / d < t
  {
    QuotientBelow(x, t, d);
  }

  /** Quotient and remainder are the only numbers that fit. */
  lemma RemainderIs(x: nat, d: nat, q: nat, r: nat)
    requires r < d && x == Times(q, d) + r
    ensures x / d == q && x % d == r
  {
    assert (q + 1) * d == q * d + d;
    QuotientIs(x, d, q);
  }

  // ---------------------------------------------------------------------
  // Powers
  // ---------------------------------------------------------------------

  function Pow(b: nat, e: nat): nat {
    if e == 0 then 1 else b * Pow(b, e - 1)
  }

  lemma {:induction false} PowPositive(b: nat, e: nat)
    requires b > 0
    ensures Pow(b, e) > 0
  {
    if e > 0 {
      PowPositive(b, e - 1);
      MulPositive(b, Pow(b, e - 1));
    }
  }

  lemma MulPositive(x: nat, y: nat)
    requires x > 0 && y > 0
    ensures x * y > 0
  {
  }

  lemma {:induction false} PowAdd(b: nat, m: nat, n: nat)
    ensures Pow(b, m + n) == Pow(b, m) * Pow(b, n)
  {
    if m > 0 {
      PowAdd(b, m - 1, n);
      MulAssoc(b, Pow(b, m - 1), Pow(b, n));
    }
  }

  lemma MulAssoc(x: int, y: int, z: int)
    ensures x * y * z == x * (y * z)
  {
  }

  lemma {:induction false} PowMul(b: nat, m: nat, n: nat)
    ensures Pow(Pow(b, m), n) == Pow(b, m * n)
  {
    if n > 0 {
      PowMul(b, m, n - 1);
      assert m * n == m + m * (n - 1);
      PowAdd(b, m, m * (n - 1));
    } else {
      assert m * n == 0;
    }
  }

  lemma PowMonotone(b: nat, m: nat, n: nat)
    requires b > 0 && m <= n
    ensures Pow(b, m) <= Pow(b, n)
  {
    PowAdd(b, m, n - m);
    PowPositive(b, n - m);
    PowPositive(b, m);
    MulAtLeast(Pow(b, m), Pow(b, n - m));
  }

  lemma MulAtLeast(x: nat, y: nat)
    requires y > 0
    ensures x <= x * y
  {
  }

  function Two(n: nat): (p: nat)
    ensures p > 0
  {
    PowPositive(2, n);
    Pow(2, n)
  }

  lemma Pow2Next(n: nat)
    ensures Pow(2, n + 1) == 2 * Pow(2, n)
  {
  }

  lemma Pow2Word()
    ensures Pow(2, 8) == 256 && Pow(2, 16) == 0x1_0000 && Pow(2, 32) == 0x1_0000_0000
  {
    assert Pow(2, 4) == 16;
    PowAdd(2, 4, 4);
    PowAdd(2, 8, 8);
    PowAdd(2, 16, 16);
  }
}
