/** Amount compression: decimal exponent, last digit and the rest, packed into one number. */
module Compressor {
  import opened Common
  import opened Numbers

  const MAX_MONEY := 46116860184 * 100000000

  // ---------------------------------------------------------------------
  // On natural numbers
  // ---------------------------------------------------------------------

  function Ten(e: nat): (p: nat)
    ensures p > 0
  {
    if e == 0 then 1 else 10 * Ten(e - 1)
  }

  /** Divide `n` by ten while that leaves no remainder and the exponent, from `e`, is below nine. */
  function Strip(n: nat, e: nat): (r: (nat, nat))
    requires n > 0 && e <= 9
    ensures r.0 > 0 && e <= r.1 <= 9 && (r.1 < 9 ==> r.0 % 10 != 0)
    decreases n
  {
    if n % 10 == 0 && e < 9 then Strip(n / 10, e + 1) else (n, e)
  }

  /** The packed form of the stripped number `m` with exponent `e`. */
  function Pack(m: nat, e: nat): nat
    requires m > 0 && e <= 9 && (e < 9 ==> m % 10 != 0)
  {
    if e < 9 then 1 + (m / 10 * 9 + m % 10 - 1) * 10 + e else 1 + (m - 1) * 10 + 9
  }

  function Compressed(n: nat): nat {
    if n == 0 then 0 else Pack(Strip(n, 0).0, Strip(n, 0).1)
  }

  /** The stripped number in a packed form. */
  function Unpacked(x: nat): (m: nat)
    requires x > 0
    ensures m > 0 && ((x - 1) % 10 < 9 ==> m % 10 != 0)
  {
    var y := (x - 1) / 10;
    if (x - 1) % 10 < 9 then y / 9 * 10 + y % 9 + 1 else y + 1
  }

  function Decompressed(x: nat): nat {
    if x == 0 then 0 else TimesPositive(Unpacked(x), Ten((x - 1) % 10)); Times(Unpacked(x), Ten((x - 1) % 10))
  }

  lemma PackUnpack(m: nat, e: nat)
    requires m > 0 && e <= 9 && (e < 9 ==> m % 10 != 0)
    ensures var x := Pack(m, e); x > 0 && (x - 1) % 10 == e && Unpacked(x) == m
  {
  }

  lemma UnpackPack(x: nat)
    requires x > 0
    ensures Pack(Unpacked(x), (x - 1) % 10) == x
  {
    var y, e := (x - 1) / 10, (x - 1) % 10;
    if e < 9 {
      Regrouped(y / 9, y % 9);
    }
  }

  /** Base nine digits shifted up by one. */
  lemma Regrouped(q: nat, r: nat)
    requires r < 9
    ensures (q * 10 + r + 1) / 10 == q && (q * 10 + r + 1) % 10 == r + 1
  {
  }

  lemma {:induction false} StripValue(n: nat, e: nat)
    requires n > 0 && e <= 9
    ensures Times(Strip(n, e).0, Ten(Strip(n, e).1 - e)) == n
    decreases n
  {
    hide Times;
    if n % 10 == 0 && e < 9 {
      StripValue(n / 10, e + 1);
      var r := Strip(n, e);
      TenNext(r.1 - e - 1);
      TimesLaws(r.0, 10, Ten(r.1 - e - 1));
      TimesLaws(10, r.0, Ten(r.1 - e - 1));
      TimesIs(10, n / 10);
    } else {
      TimesLaws(n, 1, 0);
    }
  }

  lemma TenNext(e: nat)
    ensures Ten(e + 1) == Times(10, Ten(e))
  {
  }

  lemma {:induction false} StripIs(m: nat, k: nat, e: nat)
    requires m > 0 && e + k <= 9 && (e + k < 9 ==> m % 10 != 0)
    ensures Times(m, Ten(k)) > 0 && Strip(Times(m, Ten(k)), e) == (m, e + k)
    decreases k
  {
    hide Times;
    TimesPositive(m, Ten(k));
    if k == 0 {
      TimesLaws(m, 1, 0);
    } else {
      StripIs(m, k - 1, e + 1);
      TenNext(k - 1);
      TimesLaws(m, 10, Ten(k - 1));
      TimesLaws(10, m, Ten(k - 1));
      TimesIs(10, Times(m, Ten(k - 1)));
    }
  }

  /** Each undoes the other, for every natural number. */
  lemma DecompressCompressed(n: nat)
    ensures Decompressed(Compressed(n)) == n
  {
    hide Times;
    if n > 0 {
      var r := Strip(n, 0);
      StripValue(n, 0);
      PackUnpack(r.0, r.1);
    }
  }

  lemma CompressDecompressed(x: nat)
    ensures Compressed(Decompressed(x)) == x
  {
    hide Times;
    if x > 0 {
      var e := (x - 1) % 10;
      StripIs(Unpacked(x), e, 0);
      UnpackPack(x);
    }
  }

  // ---------------------------------------------------------------------
  // In 64-bit words
  // ---------------------------------------------------------------------

  /** When the packed form fits in a word. */
  predicate FitsWord(n: nat) { n % 10 == 0 || 9 * n + n % 10 < WORD64 + 9 }

  lemma PackSmall(m: nat, e: nat)
    requires m > 0 && e <= 9 && (e < 9 ==> m % 10 != 0)
    ensures Pack(m, e) <= 10 * m || Pack(m, e) <= 80
    ensures e == 0 ==> Pack(m, e) == 9 * m + m % 10 - 9
  {
  }

  lemma TenAtLeast(k: nat)
    requires k > 0
    ensures Ten(k) >= 10
  {
  }

  lemma FitsIff(n: nat)
    requires n < WORD64
    ensures Compressed(n) < WORD64 <==> FitsWord(n)
  {
    hide Times;
    if n > 0 {
      var r := Strip(n, 0);
      PackSmall(r.0, r.1);
      StripValue(n, 0);
      if r.1 > 0 {
        TenAtLeast(r.1);
        TimesAtLeast(r.0, Ten(r.1));
      } else {
        TimesLaws(r.0, 1, 0);
      }
    }
  }

  lemma TimesAtLeast(m: nat, t: nat)
    requires t >= 10
    ensures Times(m, t) >= 10 * m
  {
    MulMonotone(10, t, m);
  }

  /** Every amount up to a ninth of the word range fits, and every multiple of ten. */
  lemma FitsWhen(n: nat)
    requires n <= (WORD64 - 1) / 9 || n % 10 == 0
    ensures FitsWord(n)
  {
  }

  // The fork's amounts reach further than a ninth of the word range, where the packed form of a
  // number that is no multiple of ten may wrap around, once or twice. What a wrapped form unpacks
  // to, modulo the word size, is never the amount: the two would have to agree modulo the word
  // size, which leaves one candidate for each last digit, and that lies elsewhere.

  const HALF := 0x8000_0000_0000_0000

  /** A linear congruence modulo HALF, solved with the inverse `v` of `q`. */
  lemma Solve(a: int, q: int, v: int, t: int, r: int, j: int)
    requires Times(q, v) == 1 + Times(t, HALF) && Times(q, a) == r + Times(j, HALF)
    ensures a == Times(v, r) + Times(Times(v, j) - Times(t, a), HALF)
  {
    hide Times;
    TimesLaws(v, q, a);
    TimesLaws(q, v, a);
    TimesLaws(1, Times(t, HALF), a);
    TimesLaws(a, 0, 0);
    TimesLaws(t, HALF, a);
    TimesLaws(t, a, HALF);
    TimesLaws(HALF, a, 0);
    TimesLaws(v, r, Times(j, HALF));
    TimesLaws(v, j, HALF);
    TimesLaws(Times(v, j) - Times(t, a), Times(t, a), HALF);
  }

  lemma OnlyCandidate(a: nat, s: nat, y: int)
    requires a == s + y * HALF && a < HALF && s < HALF
    ensures a == s
  {
  }

  /** What the wrapped form of 10 * a + d unpacks to. */
  lemma UnpackedOnce(a: nat, d: nat)
    requires 1 <= d <= 9 && 1 * WORD64 < 90 * a + 10 * d - 9
    ensures var x := 90 * a + 10 * d - 9 - 1 * WORD64;
      x > 0 && (x - 1) % 10 == 4 && Unpacked(x) == 10 * a + OnceOffset(d)
  {
    var x, y := 90 * a + 10 * d - 9 - 1 * WORD64, d - 1 - 1844674407370955162;
    assert x - 1 == 10 * (9 * a + y) + 4;
    NineShift(a, y);
  }

  function OnceOffset(d: nat): int {
    var y := d - 1 - 1844674407370955162;
    y / 9 * 10 + y % 9 + 1
  }

  lemma OnceSolved(a: nat, d: nat, r: int, j: int) returns (z: int)
    requires 2 * r == d - 10000 * OnceOffset(d)
    requires 10000 * (10 * a + OnceOffset(d)) == 10 * a + d + j * WORD64
    ensures a == 6380997940008660579 * r + z * HALF
  {
    hide OnceOffset;
    TimesIs(49995, a);
    TimesIs(j, HALF);
    TimesIs(49995, 6380997940008660579);
    TimesIs(34588, HALF);
    hide Times;
    Solve(a, 49995, 6380997940008660579, 34588, r, j);
    z := Times(6380997940008660579, j) - Times(34588, a);
    TimesIs(6380997940008660579, r);
    TimesIs(z, HALF);
  }

  lemma OnceDigit2(a: nat, j: int)
    requires 1 * WORD64 < 90 * a + 11 < 2 * WORD64 && 10 * a + 2 < WORD64
    ensures 10000 * (10 * a + OnceOffset(2)) != 10 * a + 2 + j * WORD64
  {
    if 10000 * (10 * a + OnceOffset(2)) == 10 * a + 2 + j * WORD64 {
      var z := OnceSolved(a, 2, 10248191152060862005001, j);
      OnlyCandidate(a, 8408702848023182971, z + 7089997711120733973976);
      assert false;
    }
  }

  lemma OnceDigit4(a: nat, j: int)
    requires 1 * WORD64 < 90 * a + 31 < 2 * WORD64 && 10 * a + 4 < WORD64
    ensures 10000 * (10 * a + OnceOffset(4)) != 10 * a + 4 + j * WORD64
  {
    if 10000 * (10 * a + OnceOffset(4)) == 10 * a + 4 + j * WORD64 {
      var z := OnceSolved(a, 4, 10248191152060861990002, j);
      OnlyCandidate(a, 1528855063276942358, z + 7089997711120733963600);
      assert false;
    }
  }

  lemma OnceDigit6(a: nat, j: int)
    requires 1 * WORD64 < 90 * a + 51 < 2 * WORD64 && 10 * a + 6 < WORD64
    ensures 10000 * (10 * a + OnceOffset(6)) != 10 * a + 6 + j * WORD64
  {
    if 10000 * (10 * a + OnceOffset(6)) == 10 * a + 6 + j * WORD64 {
      var z := OnceSolved(a, 6, 10248191152060861980003, j);
      OnlyCandidate(a, 5218203878018852681, z + 7089997711120733956682);
      assert false;
    }
  }

  lemma OnceDigit8(a: nat, j: int)
    requires 1 * WORD64 < 90 * a + 71 < 2 * WORD64 && 10 * a + 8 < WORD64
    ensures 10000 * (10 * a + OnceOffset(8)) != 10 * a + 8 + j * WORD64
  {
    if 10000 * (10 * a + OnceOffset(8)) == 10 * a + 8 + j * WORD64 {
      var z := OnceSolved(a, 8, 10248191152060861970004, j);
      OnlyCandidate(a, 8907552692760763004, z + 7089997711120733949764);
      assert false;
    }
  }

  lemma WrapOnce(a: nat, d: nat, j: int)
    requires 1 <= d <= 9 && 1 * WORD64 < 90 * a + 10 * d - 9 < 2 * WORD64 && 10 * a + d < WORD64
    ensures 10000 * (10 * a + OnceOffset(d)) != 10 * a + d + j * WORD64
  {
    if d == 2 {
      OnceDigit2(a, j);
    } else if d == 4 {
      OnceDigit4(a, j);
    } else if d == 6 {
      OnceDigit6(a, j);
    } else if d == 8 {
      OnceDigit8(a, j);
    } else {
      Parity(5000 * (10 * a + OnceOffset(d)), 5 * a, d, j);
    }
  }

  /** What the wrapped form of 10 * a + d unpacks to. */
  lemma UnpackedTwice(a: nat, d: nat)
    requires 1 <= d <= 9 && 2 * WORD64 < 90 * a + 10 * d - 9
    ensures var x := 90 * a + 10 * d - 9 - 2 * WORD64;
      x > 0 && (x - 1) % 10 == 8 && Unpacked(x) == 10 * a + TwiceOffset(d)
  {
    var x, y := 90 * a + 10 * d - 9 - 2 * WORD64, d - 1 - 3689348814741910324;
    assert x - 1 == 10 * (9 * a + y) + 8;
    NineShift(a, y);
  }

  lemma NineShift(a: nat, y: int)
    ensures (9 * a + y) / 9 == a + y / 9 && (9 * a + y) % 9 == y % 9
  {
  }

  function TwiceOffset(d: nat): int {
    var y := d - 1 - 3689348814741910324;
    y / 9 * 10 + y % 9 + 1
  }

  lemma TwiceSolved(a: nat, d: nat, r: int, j: int) returns (z: int)
    requires 2 * r == d - 100000000 * TwiceOffset(d)
    requires 100000000 * (10 * a + TwiceOffset(d)) == 10 * a + d + j * WORD64
    ensures a == 5594053834762946099 * r + z * HALF
  {
    hide TwiceOffset;
    TimesIs(499999995, a);
    TimesIs(j, HALF);
    TimesIs(499999995, 5594053834762946099);
    TimesIs(303254263, HALF);
    hide Times;
    Solve(a, 499999995, 5594053834762946099, 303254263, r, j);
    z := Times(5594053834762946099, j) - Times(303254263, a);
    TimesIs(5594053834762946099, r);
    TimesIs(z, HALF);
  }

  lemma TwiceDigit2(a: nat, j: int)
    requires 2 * WORD64 < 90 * a + 11 < 3 * WORD64 && 10 * a + 2 < WORD64
    ensures 100000000 * (10 * a + TwiceOffset(2)) != 10 * a + 2 + j * WORD64
  {
    if 100000000 * (10 * a + TwiceOffset(2)) == 10 * a + 2 + j * WORD64 {
      var z := TwiceSolved(a, 2, 204963823041217240150000001, j);
      OnlyCandidate(a, 1478102203758023347, z + 124312307439176579960930319);
      assert false;
    }
  }

  lemma TwiceDigit4(a: nat, j: int)
    requires 2 * WORD64 < 90 * a + 31 < 3 * WORD64 && 10 * a + 4 < WORD64
    ensures 100000000 * (10 * a + TwiceOffset(4)) != 10 * a + 4 + j * WORD64
  {
    if 100000000 * (10 * a + TwiceOffset(4)) == 10 * a + 4 + j * WORD64 {
      var z := TwiceSolved(a, 4, 204963823041217240050000002, j);
      OnlyCandidate(a, 5167451018499933670, z + 124312307439176579900279466);
      assert false;
    }
  }

  lemma TwiceDigit6(a: nat, j: int)
    requires 2 * WORD64 < 90 * a + 51 < 3 * WORD64 && 10 * a + 6 < WORD64
    ensures 100000000 * (10 * a + TwiceOffset(6)) != 10 * a + 6 + j * WORD64
  {
    if 100000000 * (10 * a + TwiceOffset(6)) == 10 * a + 6 + j * WORD64 {
      var z := TwiceSolved(a, 6, 204963823041217239900000003, j);
      OnlyCandidate(a, 3292761304803938201, z + 124312307439176579809303187);
      assert false;
    }
  }

  lemma TwiceDigit8(a: nat, j: int)
    requires 2 * WORD64 < 90 * a + 71 < 3 * WORD64 && 10 * a + 8 < WORD64
    ensures 100000000 * (10 * a + TwiceOffset(8)) != 10 * a + 8 + j * WORD64
  {
    if 100000000 * (10 * a + TwiceOffset(8)) == 10 * a + 8 + j * WORD64 {
      var z := TwiceSolved(a, 8, 204963823041217239800000004, j);
      OnlyCandidate(a, 6982110119545848524, z + 124312307439176579748652334);
      assert false;
    }
  }

  lemma WrapTwice(a: nat, d: nat, j: int)
    requires 1 <= d <= 9 && 2 * WORD64 < 90 * a + 10 * d - 9 < 3 * WORD64 && 10 * a + d < WORD64
    ensures 100000000 * (10 * a + TwiceOffset(d)) != 10 * a + d + j * WORD64
  {
    if d == 2 {
      TwiceDigit2(a, j);
    } else if d == 4 {
      TwiceDigit4(a, j);
    } else if d == 6 {
      TwiceDigit6(a, j);
    } else if d == 8 {
      TwiceDigit8(a, j);
    } else {
      Parity(50000000 * (10 * a + TwiceOffset(d)), 5 * a, d, j);
    }
  }

  /** An even number is not an odd one. */
  lemma Parity(x: int, a: int, d: nat, j: int)
    requires d % 2 == 1
    ensures 2 * x != 2 * a + d + j * WORD64
  {
  }

  lemma SmallTens()
    ensures Ten(4) == 10000 && Ten(8) == 100000000
  {
    assert Ten(2) == 100 && Ten(3) == 1000;
    assert Ten(5) == 100000 && Ten(6) == 1000000 && Ten(7) == 10000000;
  }

  lemma WrappedDiffers(a: nat, d: nat)
    requires 1 <= d <= 9 && 10 * a + d <= MAX_MONEY && 90 * a + 10 * d - 9 >= WORD64
    ensures Decompressed((90 * a + 10 * d - 9) % WORD64) % WORD64 != 10 * a + d
  {
    hide Unpacked;
    hide OnceOffset;
    hide TwiceOffset;
    var n, c := 10 * a + d, 90 * a + 10 * d - 9;
    var x := c % WORD64;
    SmallTens();
    hide Ten;
    if x > 0 {
      hide Times;
      var v := Decompressed(x);
      TimesIs(Unpacked(x), 10000);
      TimesIs(Unpacked(x), 100000000);
      if c < 2 * WORD64 {
        UnpackedOnce(a, d);
        WrapOnce(a, d, v / WORD64);
      } else {
        UnpackedTwice(a, d);
        WrapTwice(a, d, v / WORD64);
      }
    }
  }

  /** In 64-bit words the trip is exact, over the whole range of amounts, exactly when the packed form fits. */
  lemma RoundTripWord(n: nat)
    requires n <= MAX_MONEY
    ensures Decompressed(Compressed(n) % WORD64) % WORD64 == n <==> FitsWord(n)
  {
    hide Decompressed;
    DecompressCompressed(n);
    FitsIff(n);
    if !FitsWord(n) {
      WrappedDiffers(n / 10, n % 10);
    }
  }

  /** An amount within the documented range that does not survive the trip. */
  lemma RangeExceeded()
    ensures !FitsWord(MAX_MONEY - 1)
    ensures Decompressed(Compressed(MAX_MONEY - 1) % WORD64) % WORD64 != MAX_MONEY - 1
  {
    hide Decompressed;
    hide Compressed;
    RoundTripWord(MAX_MONEY - 1);
  }

  method CompressAmount(amount: nat) returns (x: nat)
    requires amount < WORD64
    ensures x == Compressed(amount) % WORD64
  {
    if amount == 0 {
      return 0;
    }
    var n, e := amount, 0;
    while n % 10 == 0 && e < 9
      invariant n > 0 && 0 <= e <= 9 && Strip(n, e) == Strip(amount, 0)
      decreases 9 - e
    {
      n := n / 10;
      e := e + 1;
    }
    if e < 9 {
      var d := n % 10;
      assert 1 <= d <= 9;
      n := n / 10;
      x := (1 + (n * 9 + d - 1) * 10 + e) % WORD64;
    } else {
      x := (1 + (n - 1) * 10 + 9) % WORD64;
    }
  }

  lemma ModTen(v: nat)
    ensures v % WORD64 * 10 % WORD64 == 10 * v % WORD64
  {
    var q, r := v / WORD64, v % WORD64;
    var q', r' := 10 * r / WORD64, 10 * r % WORD64;
    TimesIs(10 * q + q', WORD64);
    hide Times;
    RemainderIs(10 * v, WORD64, 10 * q + q', r');
  }

  lemma WordTimesTen(m: nat, k: nat)
    ensures Times(m, Ten(k)) >= 0 && Times(m, Ten(k + 1)) >= 0
    ensures Times(m, Ten(k)) % WORD64 * 10 % WORD64 == Times(m, Ten(k + 1)) % WORD64
  {
    hide Times;
    TimesPositive(m, Ten(k));
    TimesPositive(m, Ten(k + 1));
    TenNext(k);
    TimesLaws(m, 10, Ten(k));
    TimesLaws(10, m, Ten(k));
    TimesIs(10, Times(m, Ten(k)));
    ModTen(Times(m, Ten(k)));
  }

  method DecompressAmount(packed: nat) returns (n: nat)
    requires packed < WORD64
    ensures n == Decompressed(packed) % WORD64
  {
    if packed == 0 {
      return 0;
    }
    var x := packed - 1;
    var e := x % 10;
    x := x / 10;
    if e < 9 {
      var d := x % 9 + 1;
      x := x / 9;
      n := x * 10 + d;
    } else {
      n := x + 1;
    }
    ghost var m, k := n, e;
    assert m == Unpacked(packed);
    hide Unpacked;
    hide Times;
    TimesLaws(m, 1, 0);
    while e > 0
      invariant 0 <= e <= k && 0 <= n < WORD64 && Times(m, Ten(k - e)) >= 0 && n == Times(m, Ten(k - e)) % WORD64
    {
      WordTimesTen(m, k - e);
      n := n * 10 % WORD64;
      e := e - 1;
    }
  }
}
