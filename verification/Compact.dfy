/** The "compact" form of 256-bit numbers: a byte count, a sign bit and a mantissa of 23 bits. */
module Compact {
  import opened Numbers
  import opened ArithUint

  const WIDTH := 8
  const SIGN := 0x80_0000
  const EXPONENT := 0x100_0000

  /** 256 to the power of `n`. */
  function Byte(n: nat): (p: nat)
    ensures p > 0
  {
    Two(8 * n)
  }

  lemma ByteAdd(m: nat, n: nat)
    ensures Byte(m + n) == Times(Byte(m), Byte(n))
  {
    TwoAdd(8 * m, 8 * n);
  }

  lemma Bytes()
    ensures Byte(0) == 1 && Byte(1) == 0x100 && Byte(2) == 0x1_0000 && Byte(3) == EXPONENT && Byte(32) == Weight(WIDTH)
  {
    Pow2Word();
    TwoAdd(8, 16);
    WeightTwo(WIDTH);
  }

  lemma ByteMonotone(m: nat, n: nat)
    requires m <= n
    ensures Byte(m) <= Byte(n)
  {
    TwoMonotone(8 * m, 8 * n);
  }

  // ---------------------------------------------------------------------
  // The meaning of a compact number
  // ---------------------------------------------------------------------

  function SizeOf(c: nat): nat { c / EXPONENT }
  function WordOf(c: nat): nat { c % SIGN }
  predicate SignOf(c: nat) { c / SIGN % 2 == 1 }

  function Mantissa(c: nat): nat {
    if SizeOf(c) <= 3 then Over(WordOf(c), Byte(3 - SizeOf(c))) else WordOf(c)
  }

  /** The magnitude it stands for, however large. */
  function Exact(c: nat): nat {
    if SizeOf(c) <= 3 then Mantissa(c) else
      TimesPositive(WordOf(c), Byte(SizeOf(c) - 3));
      Times(WordOf(c), Byte(SizeOf(c) - 3))
  }

  predicate Overflows(c: nat) {
    var size, word := SizeOf(c), Mantissa(c);
    word != 0 && (size > 34 || (word > 0xff && size > 33) || (word > 0xffff && size > 32))
  }

  lemma ScaleCompare(word: nat, k: nat, m: nat)
    requires k <= m
    ensures Times(word, Byte(k)) >= Byte(m) <==> word >= Byte(m - k)
  {
    hide Times;
    hide Byte;
    ByteAdd(m - k, k);
    if word >= Byte(m - k) {
      TimesMonotone(Byte(m - k), word, Byte(k));
    } else {
      TimesLess(word, Byte(m - k), Byte(k));
    }
  }

  /** The overflow test means exactly that the magnitude needs more than 256 bits. */
  lemma OverflowIff(c: nat)
    ensures Overflows(c) <==> Exact(c) >= Byte(32)
  {
    hide Times;
    hide Byte;
    var size, word := SizeOf(c), WordOf(c);
    Bytes();
    if size <= 3 {
      ByteMonotone(3, 32);
    } else if size <= 35 {
      ScaleCompare(word, size - 3, 32);
      if size <= 32 {
        ByteMonotone(3, 35 - size);
      }
    } else if word == 0 {
      TimesLaws(Byte(size - 3), 0, 0);
    } else {
      ByteMonotone(32, size - 3);
      TimesMonotone(1, word, Byte(size - 3));
      TimesLaws(Byte(size - 3), 0, 0);
    }
  }

  // ---------------------------------------------------------------------
  // Compacting
  // ---------------------------------------------------------------------

  function ByteLen(v: nat): nat { if v == 0 then 0 else 1 + ByteLen(v / 256) }

  ghost predicate HasBytes(v: nat, n: nat) { v < Byte(n) && (n > 0 ==> Byte(n - 1) <= v) }

  lemma {:induction false} ByteLenIs(v: nat, n: nat)
    requires HasBytes(v, n)
    ensures ByteLen(v) == n
  {
    Bytes();
    if n > 0 {
      ByteAdd(1, n - 1);
      TimesIs(Byte(1), Byte(n - 1));
      if n > 1 {
        ByteAdd(1, n - 2);
        TimesIs(Byte(1), Byte(n - 2));
      }
      ByteLenIs(v / 256, n - 1);
    }
  }

  lemma {:induction false} ByteLenHas(v: nat)
    ensures HasBytes(v, ByteLen(v))
  {
    Bytes();
    if v > 0 {
      ByteLenHas(v / 256);
      var n := ByteLen(v);
      ByteAdd(1, n - 1);
      TimesIs(Byte(1), Byte(n - 1));
      if n > 1 {
        ByteAdd(1, n - 2);
        TimesIs(Byte(1), Byte(n - 2));
      }
    }
  }

  /** The top three bytes, or the number shifted up to three bytes. */
  function Top(v: nat, n: nat): nat {
    if n <= 3 then TimesPositive(v, Byte(3 - n)); Times(v, Byte(3 - n)) else Over(v, Byte(n - 3))
  }

  /** The mantissa's top bit would read as the sign, so it gives up a byte. */
  predicate Big(v: nat) { Top(v, ByteLen(v)) >= SIGN }

  function CompactMantissa(v: nat): nat { if Big(v) then Top(v, ByteLen(v)) / 256 else Top(v, ByteLen(v)) }
  function CompactSize(v: nat): nat { ByteLen(v) + if Big(v) then 1 else 0 }

  function CompactOf(v: nat, fNegative: bool): nat {
    var mantissa := CompactMantissa(v);
    mantissa + CompactSize(v) * EXPONENT + if fNegative && mantissa != 0 then SIGN else 0
  }

  /** The bytes below the mantissa. */
  function Dropped(v: nat): nat { if CompactSize(v) <= 3 then 0 else CompactSize(v) - 3 }

  function Rounded(v: nat): nat {
    TimesPositive(Over(v, Byte(Dropped(v))), Byte(Dropped(v)));
    Times(Over(v, Byte(Dropped(v))), Byte(Dropped(v)))
  }

  lemma TopRange(v: nat, n: nat)
    requires HasBytes(v, n)
    ensures Top(v, n) < EXPONENT && (n > 0 ==> Top(v, n) >= 0x1_0000)
  {
    hide Times;
    hide Byte;
    Bytes();
    if n <= 3 {
      ByteAdd(n, 3 - n);
      TimesLess(v, Byte(n), Byte(3 - n));
      if n > 0 {
        ByteAdd(n - 1, 3 - n);
        TimesMonotone(Byte(n - 1), v, Byte(3 - n));
      }
    } else {
      ByteAdd(3, n - 3);
      QuotientTimesBelow(v, Byte(3), Byte(n - 3));
      ByteAdd(2, n - 3);
      QuotientAtLeast(v, Byte(2), Byte(n - 3));
    }
  }

  lemma QuotientAtLeast(x: nat, q: nat, d: nat)
    requires d > 0 && x >= Times(q, d)
    ensures x / d >= q
  {
    QuotientBounds(x, d);
    if x / d < q {
      MulMonotone(x / d + 1, q, d);
    }
  }

  /** The parts of what GetCompact builds are the parts SetCompact reads. */
  lemma Parts(v: nat, fNegative: bool)
    requires v < Byte(32)
    ensures var c := CompactOf(v, fNegative);
      && c < B && SizeOf(c) == CompactSize(v) && WordOf(c) == CompactMantissa(v) < SIGN
      && (SignOf(c) <==> fNegative && CompactMantissa(v) != 0)
  {
    hide Byte;
    hide Top;
    ByteLenHas(v);
    TopRange(v, ByteLen(v));
    AtMost32(v);
  }

  lemma AtMost32(v: nat)
    requires v < Byte(32)
    ensures ByteLen(v) <= 32
  {
    ByteLenHas(v);
    if ByteLen(v) > 32 {
      ByteMonotone(32, ByteLen(v) - 1);
    }
  }

  lemma OverTimes(v: nat, d: nat)
    requires d > 0
    ensures Times(v, d) >= 0 && Over(Times(v, d), d) == v
  {
    TimesPositive(v, d);
    RemainderIs(Times(v, d), d, v, 0);
  }

  lemma OverOver(v: nat, a: nat, b: nat)
    requires a > 0 && b > 0
    ensures Times(a, b) > 0 && Over(Over(v, a), b) == Over(v, Times(a, b))
  {
    hide Times;
    TimesPositive(a, b);
    var q1, r1 := v / a, v % a;
    QuotientTimes(v, a);
    QuotientTimes(q1, b);
    Recombine(v, a, b, q1, r1, q1 / b, q1 % b);
  }

  lemma Recombine(v: nat, a: nat, b: nat, q1: nat, r1: nat, q2: nat, r2: nat)
    requires v == Times(q1, a) + r1 && r1 < a && q1 == Times(q2, b) + r2 && r2 < b && Times(a, b) > 0
    ensures v / Times(a, b) == q2
  {
    hide Times;
    var r := Times(r2, a) + r1;
    TimesLaws(Times(q2, b), r2, a);
    TimesLaws(q2, b, a);
    TimesLaws(a, b, 0);
    TimesGap(r2, b, a);
    TimesPositive(r2, a);
    RemainderIs(v, Times(a, b), q2, r);
  }

  lemma DropOne(v: nat, n: nat)
    requires n >= 3
    ensures Over(v, Byte(n - 3)) / 256 == Over(v, Byte(n - 2))
  {
    hide Times;
    hide Byte;
    hide Over;
    Bytes();
    ByteAdd(n - 3, 1);
    OverOver(v, Byte(n - 3), Byte(1));
    OverIs(Over(v, Byte(n - 3)), 256);
  }

  lemma OverOne(v: nat)
    ensures Over(v, 1) == v && Times(v, 1) == v
  {
  }

  /** Up to two bytes, giving up a byte of the shifted mantissa loses nothing. */
  lemma SmallBig(v: nat, n: nat)
    requires n <= 2
    ensures Top(v, n) / 256 >= 0 && Over(Top(v, n) / 256, Byte(2 - n)) == v
  {
    hide Times;
    hide Byte;
    hide Over;
    Bytes();
    ByteAdd(2 - n, 1);
    TimesLaws(v, Byte(2 - n), Byte(1));
    OverTimes(v, Byte(2 - n));
    OverTimes(Times(v, Byte(2 - n)), 256);
    OverIs(Top(v, n), 256);
  }

  /** Expanding a compacted number gives it back, less the bytes below the mantissa, and never overflows. */
  lemma ExpandCompact(v: nat, fNegative: bool)
    requires v < Byte(32)
    ensures Exact(CompactOf(v, fNegative)) == Rounded(v) <= v
    ensures !Overflows(CompactOf(v, fNegative))
  {
    hide Times;
    hide Byte;
    hide Over;
    hide ByteLen;
    hide CompactOf;
    hide Overflows;
    var n, c := ByteLen(v), CompactOf(v, fNegative);
    Parts(v, fNegative);
    Bytes();
    OverOne(v);
    if n <= 3 {
      OverTimes(v, Byte(3 - n));
      OverOne(CompactMantissa(v));
    }
    if Big(v) {
      if n <= 2 {
        SmallBig(v, n);
      } else {
        DropOne(v, n);
        OverIs(v, 256);
      }
    }
    RoundedBelow(v, Byte(Dropped(v)));
    OverflowIff(c);
  }

  lemma RoundedBelow(v: nat, d: nat)
    requires d > 0
    ensures Times(Over(v, d), d) <= v
  {
    QuotientBounds(v, d);
  }

  lemma RoundedBytes(v: nat, n: nat, k: nat)
    requires HasBytes(v, n) && k < n
    ensures Times(Over(v, Byte(k)), Byte(k)) >= 0 && HasBytes(Times(Over(v, Byte(k)), Byte(k)), n)
  {
    hide Times;
    hide Byte;
    hide Over;
    var q := Over(v, Byte(k));
    RoundedBelow(v, Byte(k));
    ByteAdd(n - 1 - k, k);
    OverIs(v, Byte(k));
    QuotientAtLeast(v, Byte(n - 1 - k), Byte(k));
    TimesMonotone(Byte(n - 1 - k), q, Byte(k));
  }

  lemma RoundedTop(v: nat, n: nat)
    requires n >= 3
    ensures Rounds(v, n - 3) >= 0 && Rounds(v, n - 2) >= 0
    ensures Top(Rounds(v, n - 3), n) == Top(v, n)
    ensures Top(Rounds(v, n - 2), n) == Top(v, n) / 256 * 256
  {
    hide Times;
    hide Byte;
    hide Over;
    Bytes();
    var d := Byte(n - 3);
    TimesPositive(Over(v, d), d);
    TimesPositive(Over(v, Byte(n - 2)), Byte(n - 2));
    OverOne(v);
    OverOne(Rounds(v, n - 3));
    OverOne(Rounds(v, n - 2));
    OverTimes(Over(v, d), d);
    DropOne(v, n);
    ByteAdd(1, n - 3);
    var q := Over(v, Byte(n - 2));
    TimesLaws(q, Byte(1), d);
    TimesPositive(q, 256);
    OverTimes(Times(q, 256), d);
    TimesIs(q, 256);
  }

  /** `v` with its lowest `k` bytes cleared. */
  function Rounds(v: nat, k: nat): int { Times(Over(v, Byte(k)), Byte(k)) }

  /** Repeating the trip changes nothing. */
  lemma CompactStable(v: nat, fNegative: bool)
    ensures CompactOf(Rounded(v), fNegative) == CompactOf(v, fNegative)
  {
    hide Times;
    hide Byte;
    hide Over;
    hide ByteLen;
    hide Top;
    var n := ByteLen(v);
    Bytes();
    OverOne(v);
    if Dropped(v) > 0 {
      ByteLenHas(v);
      RoundedBytes(v, n, Dropped(v));
      ByteLenIs(Rounded(v), n);
      RoundedTop(v, n);
    }
  }

  // ---------------------------------------------------------------------
  // The methods of arith_uint256
  // ---------------------------------------------------------------------

  lemma SmallValue(s: seq<Limb>)
    requires |s| > 0 && forall k :: 0 < k < |s| ==> s[k] == 0
    ensures Value(s) == s[0]
  {
    ZeroTop(s, 1);
    assert s[..1] == [s[0]];
    WeightZero();
  }

  method SetCompact(u: BaseUint, nCompact: nat) returns (fNegative: bool, fOverflow: bool)
    requires u.pn.Length == WIDTH && nCompact < B
    modifies u.pn
    ensures u.Val() == Exact(nCompact) % Byte(32)
    ensures fNegative <==> SignOf(nCompact) && Mantissa(nCompact) != 0
    ensures fOverflow <==> Exact(nCompact) >= Byte(32)
  {
    hide Times;
    hide Byte;
    hide Over;
    hide Value;
    Bytes();
    OverflowIff(nCompact);
    var nSize, nWord := nCompact / EXPONENT, nCompact % SIGN;
    if nSize <= 3 {
      OverIs(nWord, Byte(3 - nSize));
      nWord := Over(nWord, Byte(3 - nSize));
      u.Assign([nWord, 0, 0, 0, 0, 0, 0, 0]);
      SmallValue(u.pn[..]);
      SmallMod(nWord, Byte(32));
    } else {
      u.Assign([nWord, 0, 0, 0, 0, 0, 0, 0]);
      SmallValue(u.pn[..]);
      u.ShiftLeft(8 * (nSize - 3));
      ByteIs(nSize - 3);
    }
    fNegative := nWord != 0 && nCompact / SIGN % 2 != 0;
    fOverflow := nWord != 0 && (nSize > 34 || (nWord > 0xff && nSize > 33) || (nWord > 0xffff && nSize > 32));
  }

  lemma ByteIs(n: nat)
    ensures Byte(n) == Two(8 * n)
  {
  }

  method GetLow64(u: BaseUint) returns (low: nat)
    requires u.pn.Length == WIDTH
    ensures low == u.Val() % Weight(2)
  {
    hide Times;
    low := u.pn[0] + B * u.pn[1];
    ghost var s := u.pn[..];
    ValueSplit(s, 2);
    ValueNext(s, 0);
    ValueNext(s, 1);
    WeightZero();
    WeightNext(0);
    TimesIs(B, 1);
    TimesIs(u.pn[0], 1);
    TimesIs(u.pn[1], B);
    LowOf(Value(s[..2]), Value(s[2..]), Weight(2));
  }

  lemma LowOf(low: nat, high: nat, d: nat)
    requires low < d
    ensures 0 <= low + Times(high, d) && (low + Times(high, d)) % d == low
  {
    TimesPositive(high, d);
    RemainderIs(low + Times(high, d), d, high, low);
  }

  lemma BitsToBytes(v: nat, bits: nat)
    requires HasBits(v, bits)
    ensures HasBytes(v, (bits + 7) / 8)
  {
    var n := (bits + 7) / 8;
    TwoMonotone(bits, 8 * n);
    if n > 0 {
      TwoMonotone(8 * (n - 1), bits - 1);
    }
  }

  lemma SmallLow(x: nat)
    requires x < EXPONENT
    ensures x % Weight(2) == x && x % B == x
  {
    WeightMonotone(1, 2);
    WeightZero();
    WeightNext(0);
    TimesIs(B, 1);
    SmallMod(x, Weight(2));
  }

  method GetCompact(u: BaseUint, fNegative: bool) returns (nCompact: nat)
    requires u.pn.Length == WIDTH
    ensures nCompact == CompactOf(u.Val(), fNegative) && nCompact < B
  {
    hide Times;
    hide Value;
    hide Weight;
    hide Over;
    hide Two;
    ghost var v := u.Val();
    var bits := u.Bits();
    var nSize := (bits + 7) / 8;
    BitsToBytes(v, bits);
    ByteLenIs(v, nSize);
    TopRange(v, nSize);
    Bytes();
    Parts(v, fNegative);
    nCompact := TopBytes(u, nSize);
    if nCompact / SIGN % 2 == 1 {
      nCompact := nCompact / 256;
      nSize := nSize + 1;
    }
    assert nCompact < SIGN && nSize < 256;
    var mantissa := nCompact;
    nCompact := nCompact + nSize * EXPONENT;
    if fNegative && mantissa != 0 {
      nCompact := nCompact + SIGN;
    }
  }

  method TopBytes(u: BaseUint, nSize: nat) returns (top: nat)
    requires u.pn.Length == WIDTH && HasBytes(u.Val(), nSize)
    ensures top == Top(u.Val(), nSize)
  {
    hide Times;
    hide Value;
    hide Weight;
    hide Over;
    ghost var v := u.Val();
    TopRange(v, nSize);
    Bytes();
    if nSize <= 3 {
      ByteMonotone(nSize, 3);
      var low := GetLow64(u);
      SmallLow(v);
      TimesPositive(low, Byte(3 - nSize));
      top := Times(low, Byte(3 - nSize)) % B;
      SmallLow(Times(v, Byte(3 - nSize)));
    } else {
      var bn := new BaseUint(u.pn[..]);
      bn.ShiftRight(8 * (nSize - 3));
      OverIs(v, Byte(nSize - 3));
      SmallLow(bn.Val());
      var low := GetLow64(bn);
      top := low % B;
    }
  }
}
