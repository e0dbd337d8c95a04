/** Base58: numbers in base 256 and base 58, converted digit by digit in a buffer of fixed size. */
module Base58 {
  import opened Common
  import opened Numbers

  // ---------------------------------------------------------------------
  // Numbers and their digits, the highest first
  // ---------------------------------------------------------------------

  ghost predicate IsDigits(s: seq<nat>, base: nat) { forall i :: 0 <= i < |s| ==> s[i] < base }

  ghost predicate NoLeadingZero(s: seq<nat>) { s != [] ==> s[0] != 0 }

  ghost function Num(s: seq<nat>, base: nat): nat {
    if s == [] then 0 else
      TimesPositive(Num(s[..|s| - 1], base), base);
      Times(Num(s[..|s| - 1], base), base) + s[|s| - 1]
  }

  lemma Shrinks(n: nat, base: nat)
    requires n > 0 && base > 1
    ensures 0 <= n / base < n
  {
    hide Times;
    QuotientTimes(n, base);
    Doubles(n / base, base);
  }

  lemma Doubles(q: nat, base: nat)
    requires base > 1
    ensures Times(q, base) >= 2 * q
  {
    MulMonotone(2, base, q);
  }

  ghost function Digits(n: nat, base: nat): seq<nat>
    requires base > 1
    decreases n
  {
    if n == 0 then [] else Shrinks(n, base); Digits(n / base, base) + [n % base]
  }

  lemma DigitStep(v: nat, d: nat, base: nat)
    requires d < base
    ensures Times(v, base) + d >= 0 && (Times(v, base) + d) / base == v && (Times(v, base) + d) % base == d
  {
    TimesPositive(v, base);
    RemainderIs(Times(v, base) + d, base, v, d);
  }

  lemma {:induction false} NumPositive(s: seq<nat>, base: nat)
    requires s != [] && s[0] != 0 && base > 1
    ensures Num(s, base) > 0
    decreases |s|
  {
    hide Times;
    var front := s[..|s| - 1];
    if front != [] {
      NumPositive(front, base);
      TimesPositive(Num(front, base), base);
    } else {
      TimesLaws(base, 0, 0);
    }
  }

  /** Digits without a leading zero are determined by their number. */
  lemma {:induction false} DigitsNum(s: seq<nat>, base: nat)
    requires base > 1 && IsDigits(s, base) && NoLeadingZero(s)
    ensures Digits(Num(s, base), base) == s
    decreases |s|
  {
    hide Times;
    if s != [] {
      var front := s[..|s| - 1];
      DigitsNum(front, base);
      NumPositive(s, base);
      DigitStep(Num(front, base), s[|s| - 1], base);
      assert s == front + [s[|s| - 1]];
    }
  }

  lemma {:induction false} NumDigits(n: nat, base: nat)
    requires base > 1
    ensures Num(Digits(n, base), base) == n && IsDigits(Digits(n, base), base) && NoLeadingZero(Digits(n, base))
    decreases n
  {
    if n > 0 {
      Shrinks(n, base);
      NumDigits(n / base, base);
      var front := Digits(n / base, base);
      assert Digits(n, base)[..|front|] == front;
      QuotientTimes(n, base);
    }
  }

  // ---------------------------------------------------------------------
  // The buffers are large enough
  // ---------------------------------------------------------------------

  lemma {:induction false} PowGrows(x: nat, y: nat, k: nat)
    requires x <= y
    ensures Pow(x, k) <= Pow(y, k)
  {
    if k > 0 {
      PowGrows(x, y, k - 1);
      MulMonotone(x, y, Pow(x, k - 1));
      MulMonotone(Pow(x, k - 1), Pow(y, k - 1), y);
    }
  }

  lemma {:induction false} PowStrict(x: nat, y: nat, k: nat)
    requires x < y && k > 0
    ensures Pow(x, k) < Pow(y, k)
  {
    if k > 1 {
      PowStrict(x, y, k - 1);
      MulMonotone(x, y, Pow(x, k - 1));
      StrictProduct(Pow(x, k - 1), Pow(y, k - 1), y);
    }
  }

  lemma StrictProduct(p: nat, q: nat, y: nat)
    requires p < q && y > 0
    ensures y * p < y * q
  {
  }

  lemma RootMonotone(x: nat, y: nat, k: nat)
    requires k > 0 && Pow(x, k) <= Pow(y, k)
    ensures x <= y
  {
    if y < x {
      PowStrict(y, x, k);
    }
  }

  lemma PowPow(b: nat, m: nat, n: nat)
    ensures Times(m, n) >= 0 && Pow(Pow(b, m), n) == Pow(b, Times(m, n))
  {
    TimesPositive(m, n);
    PowMul(b, m, n);
  }

  /** If a^p <= b^q then n digits in base a fit into s digits in base b as soon as q * n <= p * s. */
  lemma DigitsFit(a: nat, p: nat, b: nat, q: nat, n: nat, s: nat)
    requires p > 0 && b > 0 && Pow(a, p) <= Pow(b, q) && Times(q, n) <= Times(p, s)
    ensures Pow(a, n) <= Pow(b, s)
  {
    hide Pow;
    hide Times;
    PowPow(a, n, p);
    PowPow(a, p, n);
    TimesLaws(n, p, 0);
    PowGrows(Pow(a, p), Pow(b, q), n);
    PowPow(b, q, n);
    PowPow(b, s, p);
    TimesLaws(s, p, 0);
    PowMonotone(b, Times(q, n), Times(p, s));
    RootMonotone(Pow(a, n), Pow(b, s), p);
  }

  lemma SmallPowers()
    ensures Pow(58, 3) == 195112 && Pow(58, 4) == 11316496 && Pow(256, 4) == 0x1_0000_0000
  {
    assert Pow(58, 2) == 3364 && Pow(256, 2) == 0x1_0000;
  }

  lemma EncodeConstant()
    ensures Pow(256, 8) <= Pow(58, 11)
  {
    hide Pow;
    SmallPowers();
    PowAdd(58, 4, 4);
    PowAdd(58, 8, 3);
    PowAdd(256, 4, 4);
  }

  lemma DecodeConstant()
    ensures Pow(58, 71) <= Pow(256, 52)
  {
    hide Pow;
    SmallPowers();
    PowAdd(58, 4, 4);
    PowAdd(58, 8, 8);
    PowAdd(58, 16, 16);
    PowAdd(58, 32, 32);
    PowAdd(58, 64, 4);
    PowAdd(58, 68, 3);
    PowAdd(256, 4, 4);
    PowAdd(256, 8, 8);
    PowAdd(256, 16, 16);
    PowAdd(256, 32, 16);
    PowAdd(256, 48, 4);
  }

  lemma EncodeFits(n: nat)
    ensures Pow(256, n) <= Pow(58, n * 138 / 100 + 1)
  {
    EncodeConstant();
    DigitsFit(256, 8, 58, 11, n, n * 138 / 100 + 1);
  }

  lemma DecodeFits(n: nat)
    ensures Pow(58, n) <= Pow(256, n * 733 / 1000 + 1)
  {
    DecodeConstant();
    DigitsFit(58, 71, 256, 52, n, n * 733 / 1000 + 1);
  }

  // ---------------------------------------------------------------------
  // Digits in a buffer, used from its end
  // ---------------------------------------------------------------------

  /** The number in the last `n` places. */
  ghost function Tail(buf: seq<nat>, n: nat, base: nat): int
    requires n <= |buf|
  {
    if n == 0 then 0 else Tail(buf, n - 1, base) + Times(buf[|buf| - n], Pow(base, n - 1))
  }

  lemma {:induction false} NumPrepend(d: nat, s: seq<nat>, base: nat)
    ensures Num([d] + s, base) == Times(d, Pow(base, |s|)) + Num(s, base)
    decreases |s|
  {
    hide Times;
    if s == [] {
      assert [d] + s == [d];
      TimesLaws(base, 0, 0);
      TimesLaws(d, 1, 0);
    } else {
      var front := s[..|s| - 1];
      NumPrepend(d, front, base);
      assert ([d] + s)[..|s|] == [d] + front;
      PowTimes(base, |front|);
      TimesLaws(Times(d, Pow(base, |front|)), Num(front, base), base);
      TimesLaws(d, Pow(base, |front|), base);
      TimesLaws(base, Pow(base, |front|), 0);
    }
  }

  lemma PowTimes(base: nat, n: nat)
    ensures Pow(base, n + 1) == Times(base, Pow(base, n))
  {
  }

  lemma {:induction false} TailIsNum(buf: seq<nat>, n: nat, base: nat)
    requires n <= |buf|
    ensures Tail(buf, n, base) == Num(buf[|buf| - n..], base)
  {
    hide Times;
    if n > 0 {
      TailIsNum(buf, n - 1, base);
      NumPrepend(buf[|buf| - n], buf[|buf| - (n - 1)..], base);
      assert buf[|buf| - n..] == [buf[|buf| - n]] + buf[|buf| - (n - 1)..];
    } else {
      assert buf[|buf|..] == [];
    }
  }

  lemma {:induction false} TailSame(x: seq<nat>, y: seq<nat>, n: nat, base: nat)
    requires |x| == |y| && n <= |x| && forall k :: |x| - n <= k < |x| ==> x[k] == y[k]
    ensures Tail(x, n, base) == Tail(y, n, base)
  {
    if n > 0 {
      TailSame(x, y, n - 1, base);
    }
  }

  /** Zeros in front add nothing. */
  lemma {:induction false} TailZeros(x: seq<nat>, m: nat, n: nat, base: nat)
    requires m <= n <= |x| && forall k :: |x| - n <= k < |x| - m ==> x[k] == 0
    ensures Tail(x, n, base) == Tail(x, m, base)
  {
    hide Times;
    if m < n {
      TailZeros(x, m, n - 1, base);
      TimesLaws(Pow(base, n - 1), 0, 0);
    }
  }

  /** The last `length` places hold exactly the digits of `n`, and the rest is zero. */
  ghost predicate Holds(buf: seq<nat>, length: nat, n: int, base: nat) {
    && length <= |buf| && IsDigits(buf, base)
    && (forall k :: 0 <= k < |buf| - length ==> buf[k] == 0)
    && (length > 0 ==> buf[|buf| - length] != 0)
    && Tail(buf, length, base) == n
  }

  lemma HoldsDigits(buf: seq<nat>, length: nat, n: nat, base: nat)
    requires base > 1 && Holds(buf, length, n, base)
    ensures buf[|buf| - length..] == Digits(n, base)
  {
    TailIsNum(buf, length, base);
    DigitsNum(buf[|buf| - length..], base);
  }

  lemma AccumulateStep(v: int, carry: nat, v0: int, d: nat, from: nat, to: nat, i: nat, c: nat)
    requires to > 1 && v + Times(carry, Pow(to, i)) == Times(v0, from) + c
    ensures var x := carry + Times(from, d);
      x >= 0 && v + Times(x % to, Pow(to, i)) + Times(x / to, Pow(to, i + 1))
        == Times(v0 + Times(d, Pow(to, i)), from) + c
  {
    hide Times;
    hide Pow;
    var p, x := Pow(to, i), carry + Times(from, d);
    TimesPositive(from, d);
    PowTimes(to, i);
    QuotientTimes(x, to);
    TimesLaws(Times(x / to, to), x % to, p);
    TimesLaws(x / to, to, p);
    TimesLaws(carry, Times(from, d), p);
    TimesLaws(from, d, p);
    TimesLaws(v0, Times(d, p), from);
    TimesLaws(from, Times(d, p), 0);
  }

  lemma CarryBelow(carry: nat, from: nat, to: nat, d: nat)
    requires carry < from && d < to
    ensures 0 <= carry + Times(from, d) && 0 <= (carry + Times(from, d)) / to < from
            && 0 <= (carry + Times(from, d)) % to < to
  {
    hide Times;
    TimesPositive(from, d);
    TimesLaws(from, d, 0);
    TimesLaws(d, 1, from);
    TimesLaws(from, 0, 0);
    TimesMonotone(d + 1, to, from);
    TimesLaws(to, from, 0);
    QuotientTimesBelow(carry + Times(from, d), from, to);
    QuotientTimes(carry + Times(from, d), to);
  }

  /** A single digit, with nothing to carry, is not zero unless it was and nothing came in. */
  lemma DigitStays(carry: nat, from: nat, to: nat, d: nat)
    requires from > 0 && to > 1 && (carry != 0 || d != 0) && 0 <= carry + Times(from, d)
             && (carry + Times(from, d)) / to == 0
    ensures (carry + Times(from, d)) % to != 0
  {
    hide Times;
    var x := carry + Times(from, d);
    TimesPositive(from, d);
    QuotientTimes(x, to);
    TimesLaws(to, 0, 0);
  }

  lemma NothingLeft(v: nat, carry: nat, m: nat, total: int)
    requires v + Times(carry, m) == total < m
    ensures carry == 0
  {
    if carry > 0 {
      TimesPositive(carry, m);
    }
  }

  /** One round of the conversion, "buffer = buffer * from + c" in base `to`; the source asserts that no carry is
      left. */
  method Accumulate(buf: array<nat>, length0: nat, from: nat, to: nat, c: nat, ghost n: nat) returns (length: nat)
    requires from > 1 && to > 1 && c < from && Holds(buf[..], length0, n, to)
             && Times(n, from) + c < Pow(to, buf.Length)
    modifies buf
    ensures Holds(buf[..], length, Times(n, from) + c, to)
  {
    hide Times;
    hide Pow;
    hide Tail;
    ghost var a := buf[..];
    var carry := c;
    var i := 0;
    TailNone(a, to);
    TailNone(buf[..], to);
    TimesLaws(from, 0, 0);
    PowNone(to);
    TimesLaws(carry, 1, 0);
    while (carry != 0 || i < length0) && i < buf.Length
      invariant 0 <= i <= buf.Length && 0 <= carry < from && IsDigits(buf[..], to)
      invariant forall k :: 0 <= k < buf.Length - i ==> buf[k] == a[k]
      invariant Tail(buf[..], i, to) + Times(carry, Pow(to, i)) == Times(Tail(a, i, to), from) + c
      invariant i > 0 && i >= length0 && carry == 0 ==> buf[buf.Length - i] != 0
      decreases buf.Length - i
    {
      ghost var before := buf[..];
      var at := buf.Length - 1 - i;
      var d := buf[at];
      CarryBelow(carry, from, to, d);
      AccumulateStep(Tail(before, i, to), carry, Tail(a, i, to), d, from, to, i, c);
      var x := carry + Times(from, d);
      if i + 1 >= length0 && x / to == 0 {
        DigitStays(carry, from, to, d);
      }
      buf[at] := x % to;
      carry := x / to;
      TailPush(before, buf[..], i, to);
      TailPush(a, a, i, to);
      i := i + 1;
    }
    TailZeros(a, length0, i, to);
    TailIsNum(buf[..], i, to);
    if i == buf.Length {
      NothingLeft(Tail(buf[..], i, to), carry, Pow(to, i), Times(n, from) + c);
    }
    assert carry == 0;
    TimesLaws(Pow(to, i), 0, 0);
    length := i;
  }

  lemma TailNone(buf: seq<nat>, base: nat)
    ensures Tail(buf, 0, base) == 0
  {
  }

  lemma PowNone(base: nat)
    ensures Pow(base, 0) == 1
  {
  }

  lemma TailPush(before: seq<nat>, buf: seq<nat>, i: nat, base: nat)
    requires |before| == |buf| && i < |buf| && forall k :: |buf| - i <= k < |buf| ==> buf[k] == before[k]
    ensures Tail(buf, i + 1, base) == Tail(before, i, base) + Times(buf[|buf| - 1 - i], Pow(base, i))
  {
    TailSame(buf, before, i, base);
  }

  // ---------------------------------------------------------------------
  // The alphabet
  // ---------------------------------------------------------------------

  function Shift(c: char, k: int): char
    requires 0 <= c as int + k < 128
  {
    (c as int + k) as char
  }

  /** pszBase58: digits and letters without 0, I, O and l. */
  function CharOf(d: nat): char
    requires d < 58
  {
    if d < 9 then Shift('1', d) else if d < 17 then Shift('A', d - 9) else if d < 22 then Shift('J', d - 17)
    else if d < 33 then Shift('P', d - 22) else if d < 44 then Shift('a', d - 33) else Shift('m', d - 44)
  }

  /** mapBase58 */
  function DigitOf(c: char): (d: Option<nat>)
    ensures d.Some? ==> d.value < 58
  {
    if '1' <= c <= '9' then Some(c as int - '1' as int)
    else if 'A' <= c <= 'H' then Some(c as int - 'A' as int + 9)
    else if 'J' <= c <= 'N' then Some(c as int - 'J' as int + 17)
    else if 'P' <= c <= 'Z' then Some(c as int - 'P' as int + 22)
    else if 'a' <= c <= 'k' then Some(c as int - 'a' as int + 33)
    else if 'm' <= c <= 'z' then Some(c as int - 'm' as int + 44)
    else None
  }

  predicate IsSpace(c: char) { c == ' ' || 9 <= c as int <= 13 }

  lemma CharIs(d: nat)
    requires d < 58
    ensures DigitOf(CharOf(d)) == Some(d) && !IsSpace(CharOf(d)) && CharOf(d) != 0 as char
            && (CharOf(d) == '1' <==> d == 0)
  {
  }

  lemma DigitIs(c: char)
    ensures DigitOf(c).Some? ==> CharOf(DigitOf(c).value) == c && !IsSpace(c)
    ensures DigitOf(c) == Some(0) <==> c == '1'
  {
  }

  function Chars(ds: seq<nat>): (r: string)
    requires forall i :: 0 <= i < |ds| ==> ds[i] < 58
    ensures |r| == |ds| && forall i :: 0 <= i < |ds| ==> r[i] == CharOf(ds[i])
  {
    seq(|ds|, i requires 0 <= i < |ds| => CharOf(ds[i]))
  }

  /** None when some character is not in the alphabet. */
  function DigitsOf(w: string): (r: Option<seq<nat>>)
    ensures r.Some? ==> |r.value| == |w| && forall i :: 0 <= i < |w| ==> DigitOf(w[i]) == Some(r.value[i])
    ensures r.Some? ==> forall i :: 0 <= i < |w| ==> r.value[i] < 58
    ensures r.None? ==> exists i :: 0 <= i < |w| && DigitOf(w[i]).None?
  {
    if w == "" then Some([]) else
      var front, last := DigitsOf(w[..|w| - 1]), DigitOf(w[|w| - 1]);
      if front.Some? && last.Some? then Some(front.value + [last.value]) else None
  }

  // ---------------------------------------------------------------------
  // What encoding and decoding compute
  // ---------------------------------------------------------------------

  /** The number of leading occurrences of `x`. */
  function Leading<T(==)>(s: seq<T>, x: T): (n: nat)
    ensures n <= |s| && (n < |s| ==> s[n] != x) && forall i :: 0 <= i < n ==> s[i] == x
  {
    if s == [] || s[0] != x then 0 else 1 + Leading(s[1..], x)
  }

  function Repeat<T>(n: nat, x: T): (s: seq<T>)
    ensures |s| == n && forall i :: 0 <= i < n ==> s[i] == x
  {
    seq(n, _ => x)
  }

  type Bytes = s: seq<nat> | forall i :: 0 <= i < |s| ==> s[i] < 256

  ghost function Convert(s: seq<nat>, from: nat, to: nat): (r: seq<nat>)
    requires to > 1
    ensures IsDigits(r, to) && NoLeadingZero(r) && Num(r, to) == Num(s, from)
  {
    NumDigits(Num(s, from), to);
    Digits(Num(s, from), to)
  }

  /** Leading zero bytes stay apart; the rest is one number. */
  ghost function Encoded(input: Bytes): string {
    var zeroes := Leading(input, 0);
    Repeat(zeroes, '1') + Chars(Convert(input[zeroes..], 256, 58))
  }

  function SkipSpaces(s: string): (r: string)
    ensures |r| <= |s| && r == s[|s| - |r|..] && (r != "" ==> !IsSpace(r[0]))
            && forall i :: 0 <= i < |s| - |r| ==> IsSpace(s[i])
  {
    if s != "" && IsSpace(s[0]) then SkipSpaces(s[1..]) else s
  }

  /** Up to the first space. */
  function Word(s: string): (w: string)
    ensures w <= s && (forall i :: 0 <= i < |w| ==> !IsSpace(w[i])) && (|w| < |s| ==> IsSpace(s[|w|]))
  {
    if s == "" || IsSpace(s[0]) then "" else [s[0]] + Word(s[1..])
  }

  predicate AllSpaces(s: string) { forall i :: 0 <= i < |s| ==> IsSpace(s[i]) }

  /** The bytes that a word without spaces stands for. */
  ghost function WordBytes(w: string): Option<seq<nat>> {
    var ones := Leading(w, '1');
    var digits := DigitsOf(w[ones..]);
    if digits.None? then None else Some(Repeat(ones, 0) + Convert(digits.value, 58, 256))
  }

  /** Decoding without the limit on the length: one word, with spaces around it. */
  ghost function Decoded(str: string): Option<seq<nat>> {
    var s := SkipSpaces(str);
    var w := Word(s);
    if 0 as char in str || !AllSpaces(s[|w|..]) then None else WordBytes(w)
  }

  /** The limit on the length. */
  ghost predicate TooLong(bytes: seq<nat>, maxRetLen: int) { bytes != [] && |bytes| > maxRetLen }

  ghost function DecodedWithin(str: string, maxRetLen: int): Option<seq<nat>> {
    var r := Decoded(str);
    if r.Some? && TooLong(r.value, maxRetLen) then None else r
  }

  // ---------------------------------------------------------------------
  // Each undoes the other
  // ---------------------------------------------------------------------

  lemma LeadingIs<T>(s: seq<T>, x: T, n: nat)
    requires n <= |s| && (forall i :: 0 <= i < n ==> s[i] == x) && (n < |s| ==> s[n] != x)
    ensures Leading(s, x) == n
  {
  }

  lemma ConvertBack(s: seq<nat>, base: nat, other: nat)
    requires base > 1 && other > 1 && IsDigits(s, base) && NoLeadingZero(s)
    ensures Convert(Convert(s, base, other), other, base) == s
  {
    DigitsNum(s, base);
  }

  lemma CharsDigits(ds: seq<nat>)
    requires forall i :: 0 <= i < |ds| ==> ds[i] < 58
    ensures DigitsOf(Chars(ds)) == Some(ds)
    ensures forall i :: 0 <= i < |ds| ==>
      !IsSpace(Chars(ds)[i]) && Chars(ds)[i] != 0 as char && (Chars(ds)[i] == '1' <==> ds[i] == 0)
  {
    hide CharOf;
    hide DigitOf;
    forall i | 0 <= i < |ds|
      ensures DigitOf(Chars(ds)[i]) == Some(ds[i]) && !IsSpace(Chars(ds)[i]) && Chars(ds)[i] != 0 as char
              && (Chars(ds)[i] == '1' <==> ds[i] == 0)
    {
      CharIs(ds[i]);
    }
    var r := DigitsOf(Chars(ds));
    if r.Some? {
      assert r.value == ds;
    }
  }

  lemma {:induction false} WordWhole(s: string)
    requires forall i :: 0 <= i < |s| ==> !IsSpace(s[i])
    ensures Word(s) == s && SkipSpaces(s) == s
  {
  }

  lemma EncodedClean(input: Bytes)
    ensures var e := Encoded(input);
      && (forall i :: 0 <= i < |e| ==> !IsSpace(e[i]) && e[i] != 0 as char)
      && Leading(e, '1') == Leading(input, 0)
      && e[Leading(input, 0)..] == Chars(Convert(input[Leading(input, 0)..], 256, 58))
  {
    hide CharOf;
    hide Num;
    hide Digits;
    var zeroes := Leading(input, 0);
    var ds := Convert(input[zeroes..], 256, 58);
    CharsDigits(ds);
    var e := Repeat(zeroes, '1') + Chars(ds);
    forall i | 0 <= i < |e| ensures !IsSpace(e[i]) && e[i] != 0 as char {
      assert i >= zeroes ==> e[i] == Chars(ds)[i - zeroes];
    }
    LeadingIs(e, '1', zeroes);
  }

  /** Decoding inverts encoding, and rejects exactly what is longer than the limit. */
  lemma DecodeEncoded(input: Bytes, maxRetLen: int)
    ensures DecodedWithin(Encoded(input), maxRetLen) == if TooLong(input, maxRetLen) then None else Some(input)
  {
    hide Convert;
    hide Chars;
    hide DigitsOf;
    hide Leading;
    hide Encoded;
    var e, zeroes := Encoded(input), Leading(input, 0);
    EncodedClean(input);
    WordWhole(e);
    var rest := input[zeroes..];
    CharsDigits(Convert(rest, 256, 58));
    ConvertBack(rest, 256, 58);
    assert input == Repeat(zeroes, 0) + rest;
  }

  lemma DigitsChars(w: string)
    requires DigitsOf(w).Some?
    ensures Chars(DigitsOf(w).value) == w
  {
    hide CharOf;
    hide DigitOf;
    forall i | 0 <= i < |w| ensures Chars(DigitsOf(w).value)[i] == w[i] {
      DigitIs(w[i]);
    }
  }

  /** Encoding inverts decoding, up to the spaces around the word. */
  lemma EncodeDecoded(str: string)
    requires Decoded(str).Some?
    ensures IsDigits(Decoded(str).value, 256) && Encoded(Decoded(str).value) == Word(SkipSpaces(str))
  {
    hide Convert;
    hide Chars;
    hide DigitsOf;
    hide SkipSpaces;
    hide Word;
    var w := Word(SkipSpaces(str));
    var ones := Leading(w, '1');
    var ds := DigitsOf(w[ones..]).value;
    var rest := Convert(ds, 58, 256);
    var bytes := Repeat(ones, 0) + rest;
    DigitsChars(w[ones..]);
    if ds != [] {
      DigitIs(w[ones]);
    }
    ConvertBack(ds, 58, 256);
    LeadingIs(bytes, 0, ones);
    assert bytes[ones..] == rest;
    assert w == Repeat(ones, '1') + w[ones..];
  }

  // ---------------------------------------------------------------------
  // The loops
  // ---------------------------------------------------------------------

  lemma {:induction false} NumBound(s: seq<nat>, base: nat)
    requires IsDigits(s, base)
    ensures Num(s, base) < Pow(base, |s|)
    decreases |s|
  {
    hide Times;
    if s != [] {
      var front := s[..|s| - 1];
      NumBound(front, base);
      PowTimes(base, |front|);
      TimesMonotone(Num(front, base) + 1, Pow(base, |front|), base);
      TimesLaws(Num(front, base), 1, base);
      TimesLaws(base, Pow(base, |front|), 0);
      TimesLaws(base, 0, 0);
    }
  }

  lemma NumNext(s: seq<nat>, j: nat, base: nat)
    requires j < |s|
    ensures Num(s[..j + 1], base) == Times(Num(s[..j], base), base) + s[j]
  {
    assert s[..j + 1][..j] == s[..j];
  }

  /** The next round of a conversion that has room for `total` digits. */
  lemma RoundFits(s: seq<nat>, j: nat, from: nat, total: nat, to: nat, size: nat)
    requires IsDigits(s, from) && j < |s| <= total && from > 0 && Pow(from, total) <= Pow(to, size)
    ensures Times(Num(s[..j], from), from) + s[j] < Pow(to, size)
  {
    hide Times;
    hide Pow;
    NumNext(s, j, from);
    NumBound(s[..j + 1], from);
    PowMonotone(from, j + 1, total);
  }

  lemma HoldsNothing(buf: seq<nat>, base: nat)
    requires base > 0 && forall k :: 0 <= k < |buf| ==> buf[k] == 0
    ensures Holds(buf, 0, 0, base)
  {
  }

  /** The digits of a number, without leading zeros, through a buffer of the size the source computes. */
  method Base58Digits(rest: Bytes) returns (ds: seq<nat>)
    ensures ds == Convert(rest, 256, 58)
  {
    hide Num;
    hide Digits;
    hide Holds;
    var size := |rest| * 138 / 100 + 1;
    EncodeFits(|rest|);
    var b58 := new nat[size](_ => 0);
    var length := 0;
    HoldsNothing(b58[..], 58);
    NumNone(256);
    for j := 0 to |rest|
      invariant Holds(b58[..], length, Num(rest[..j], 256), 58)
    {
      RoundFits(rest, j, 256, |rest|, 58, size);
      NumNext(rest, j, 256);
      length := Accumulate(b58, length, 256, 58, rest[j], Num(rest[..j], 256));
    }
    assert rest[..|rest|] == rest;
    HoldsLength(b58[..], length, Num(rest, 256), 58);
    HoldsDigits(b58[..], length, Num(rest, 256), 58);
    var b := b58[..];
    var it := size - length;
    while it < size && b[it] == 0
      invariant size - length <= it <= size && forall k :: size - length <= k < it ==> b[k] == 0
    {
      it := it + 1;
    }
    if length > 0 {
      HoldsTop(b, length, Num(rest, 256), 58);
    }
    ds := b[it..];
  }

  method EncodeBase58(input: Bytes) returns (str: string)
    ensures str == Encoded(input)
  {
    hide Convert;
    hide CharOf;
    var zeroes := 0;
    while zeroes < |input| && input[zeroes] == 0
      invariant zeroes <= |input| && forall i :: 0 <= i < zeroes ==> input[i] == 0
    {
      zeroes := zeroes + 1;
    }
    LeadingIs(input, 0, zeroes);
    var ds := Base58Digits(input[zeroes..]);
    str := Repeat(zeroes, '1');
    for k := 0 to |ds|
      invariant str == Repeat(zeroes, '1') + Chars(ds[..k])
    {
      assert Chars(ds[..k + 1]) == Chars(ds[..k]) + [CharOf(ds[k])];
      str := str + [CharOf(ds[k])];
    }
    assert ds[..|ds|] == ds;
  }

  lemma NumNone(base: nat)
    ensures Num([], base) == 0
  {
  }

  lemma HoldsLength(buf: seq<nat>, length: nat, n: int, base: nat)
    requires Holds(buf, length, n, base)
    ensures length <= |buf|
  {
  }

  lemma HoldsTop(buf: seq<nat>, length: nat, n: int, base: nat)
    requires Holds(buf, length, n, base) && length > 0
    ensures buf[|buf| - length] != 0
  {
  }

  lemma {:induction false} DigitsLonger(m: nat, n: nat, base: nat)
    requires base > 1 && m <= n
    ensures |Digits(m, base)| <= |Digits(n, base)|
    decreases n
  {
    if m > 0 {
      Shrinks(m, base);
      Shrinks(n, base);
      QuotientMonotone(m, n, base);
      DigitsLonger(m / base, n / base, base);
    }
  }

  lemma {:induction false} NumPrefix(s: seq<nat>, j: nat, base: nat)
    requires j <= |s| && base > 0
    ensures Num(s[..j], base) <= Num(s, base)
    decreases |s| - j
  {
    hide Times;
    if j < |s| {
      NumPrefix(s, j + 1, base);
      NumNext(s, j, base);
      TimesPositive(Num(s[..j], base), base);
      if Num(s[..j], base) == 0 {
        TimesLaws(base, 0, 0);
      }
    } else {
      assert s[..j] == s;
    }
  }

  lemma {:induction false} WordIs(s: string, k: nat)
    requires k <= |s| && (forall i :: 0 <= i < k ==> !IsSpace(s[i])) && (k < |s| ==> IsSpace(s[k]))
    ensures Word(s) == s[..k]
    decreases k
  {
    hide IsSpace;
    if k > 0 {
      WordIs(s[1..], k - 1);
      assert s[..k] == [s[0]] + s[1..][..k - 1];
    }
  }

  lemma {:induction false} WordCovers(s: string, k: nat)
    requires k <= |s| && forall i :: 0 <= i < k ==> !IsSpace(s[i])
    ensures k <= |Word(s)| && Word(s)[..k] == s[..k]
    decreases k
  {
    hide IsSpace;
    if k > 0 {
      WordCovers(s[1..], k - 1);
      assert s[..k] == [s[0]] + s[1..][..k - 1];
    }
  }

  lemma DigitsOfNone(w: string, i: nat)
    requires i < |w| && DigitOf(w[i]).None?
    ensures DigitsOf(w).None?
  {
  }

  /** A word with `ones` leading ones and a further character that is no digit. */
  lemma BadChar(w: string, ones: nat, k: nat)
    requires ones == Leading(w, '1') && ones <= k < |w| && DigitOf(w[k]).None?
    ensures WordBytes(w).None?
  {
    hide DigitOf;
    hide Num;
    hide Digits;
    DigitsOfNone(w[ones..], k - ones);
  }

  /** The bytes of a word are no fewer than those of its beginning. */
  lemma WordLonger(w: string, ones: nat, ds: seq<nat>)
    requires ones == Leading(w, '1') && |ds| <= |w| - ones && DigitsOf(w[ones..][..|ds|]) == Some(ds)
    requires WordBytes(w).Some?
    ensures |WordBytes(w).value| >= ones + |Digits(Num(ds, 58), 256)|
  {
    hide DigitOf;
    hide Num;
    hide Digits;
    var all := DigitsOf(w[ones..]).value;
    assert all[..|ds|] == ds;
    NumPrefix(all, |ds|, 58);
    DigitsLonger(Num(ds, 58), Num(all, 58), 256);
  }

  lemma LeadingOnes(w: string, ones: nat)
    requires ones <= |w| && forall i :: 0 <= i < ones ==> w[i] == '1'
    ensures ones <= Leading(w, '1')
  {
  }

  /** The limit is passed already by the leading ones. */
  lemma OnesTooLong(w: string, ones: nat, maxRetLen: int)
    requires 0 < ones <= Leading(w, '1') && ones > maxRetLen
    ensures WordBytes(w).Some? ==> TooLong(WordBytes(w).value, maxRetLen)
  {
    hide DigitsOf;
    hide Num;
    hide Digits;
  }

  /** After the leading ones: the characters from `zeroes` to `k` have been read. */
  ghost predicate Reading(s: string, zeroes: nat, k: nat, ds: seq<nat>) {
    && zeroes <= k <= |s| && (forall i :: 0 <= i < zeroes ==> s[i] == '1') && (zeroes < |s| ==> s[zeroes] != '1')
    && (forall i :: 0 <= i < k ==> !IsSpace(s[i])) && DigitsOf(s[zeroes..k]) == Some(ds)
  }

  lemma ReadingStart(s: string, zeroes: nat)
    requires zeroes <= |s| && (forall i :: 0 <= i < zeroes ==> s[i] == '1') && (zeroes < |s| ==> s[zeroes] != '1')
    ensures Reading(s, zeroes, zeroes, [])
  {
  }

  lemma ReadingNext(s: string, zeroes: nat, k: nat, ds: seq<nat>)
    requires Reading(s, zeroes, k, ds) && k < |s| && !IsSpace(s[k]) && DigitOf(s[k]).Some?
    ensures Reading(s, zeroes, k + 1, ds + [DigitOf(s[k]).value])
  {
    hide IsSpace;
    hide DigitOf;
    assert s[zeroes..k + 1] == s[zeroes..k] + [s[k]];
  }

  lemma ReadingWord(s: string, zeroes: nat, k: nat, ds: seq<nat>)
    requires Reading(s, zeroes, k, ds)
    ensures var w := Word(s);
      k <= |w| && w[..k] == s[..k] && (zeroes < k || |w| == zeroes ==> Leading(w, '1') == zeroes)
  {
    hide IsSpace;
    hide DigitsOf;
    WordCovers(s, k);
    var w := Word(s);
    assert forall i :: 0 <= i < k ==> w[i] == w[..k][i];
    if zeroes < k || |w| == zeroes {
      LeadingIs(w, '1', zeroes);
    }
  }

  /** The digits read so far have no leading zero. */
  lemma ReadingTop(s: string, zeroes: nat, k: nat, ds: seq<nat>)
    requires Reading(s, zeroes, k, ds)
    ensures |ds| == k - zeroes && IsDigits(ds, 58) && NoLeadingZero(ds)
  {
    hide IsSpace;
    if k > zeroes {
      DigitIs(s[zeroes]);
      assert s[zeroes..k][0] == s[zeroes];
    }
  }

  /** A character that is no digit spoils the word. */
  lemma ReadingBad(s: string, zeroes: nat, k: nat, ds: seq<nat>)
    requires Reading(s, zeroes, k, ds) && k < |s| && !IsSpace(s[k]) && DigitOf(s[k]).None?
    ensures WordBytes(Word(s)).None?
  {
    hide IsSpace;
    hide DigitOf;
    hide DigitsOf;
    hide WordBytes;
    WordCovers(s, k + 1);
    var w := Word(s);
    assert forall i :: 0 <= i <= k ==> w[i] == w[..k + 1][i];
    LeadingIs(w, '1', zeroes);
    BadChar(w, zeroes, k);
  }

  /** The digits read so far are already too many. */
  lemma ReadingLong(s: string, zeroes: nat, k: nat, ds: seq<nat>, maxRetLen: int)
    requires Reading(s, zeroes, k, ds) && zeroes < k && zeroes + |Digits(Num(ds, 58), 256)| > maxRetLen
    ensures WordBytes(Word(s)).Some? ==> TooLong(WordBytes(Word(s)).value, maxRetLen)
  {
    hide IsSpace;
    hide DigitsOf;
    hide Num;
    hide Digits;
    hide WordBytes;
    var w := Word(s);
    ReadingWord(s, zeroes, k, ds);
    ReadingTop(s, zeroes, k, ds);
    NumPositive(ds, 58);
    SomeDigits(Num(ds, 58), 256);
    if WordBytes(w).Some? {
      assert w[zeroes..][..|ds|] == s[zeroes..k] by {
        assert w[zeroes..][..|ds|] == w[..k][zeroes..];
        assert s[zeroes..k] == s[..k][zeroes..];
      }
      WordLonger(w, zeroes, ds);
    }
  }

  lemma SomeDigits(n: nat, base: nat)
    requires n > 0 && base > 1
    ensures |Digits(n, base)| > 0
  {
  }

  method DecodeDigits(s: string, zeroes: nat, maxRetLen: int)
    returns (ok: bool, k: nat, bytes: seq<nat>, ghost ds: seq<nat>)
    requires zeroes <= |s| && (forall i :: 0 <= i < zeroes ==> s[i] == '1') && (zeroes < |s| ==> s[zeroes] != '1')
    requires zeroes > 0 ==> zeroes <= maxRetLen
    ensures !ok ==> WordBytes(Word(s)).Some? ==> TooLong(WordBytes(Word(s)).value, maxRetLen)
    ensures ok ==> k <= |s| && Reading(s, zeroes, k, ds) && (k < |s| ==> IsSpace(s[k])) && bytes == Convert(ds, 58, 256)
    ensures ok ==> !TooLong(Repeat(zeroes, 0) + bytes, maxRetLen)
  {
    hide Num;
    hide Digits;
    hide Holds;
    hide Reading;
    hide IsSpace;
    hide DigitOf;
    hide WordBytes;
    var size := (|s| - zeroes) * 733 / 1000 + 1;
    DecodeFits(|s| - zeroes);
    var b256 := new nat[size](_ => 0);
    var length: nat := 0;
    HoldsNothing(b256[..], 256);
    NumNone(58);
    k, ds := zeroes, [];
    ReadingStart(s, zeroes);
    while k < |s| && !IsSpace(s[k])
      invariant zeroes <= k <= |s| && Reading(s, zeroes, k, ds)
      invariant Holds(b256[..], length, Num(ds, 58), 256)
      invariant if k == zeroes then length == 0 else length + zeroes <= maxRetLen
    {
      var carry := DigitOf(s[k]);
      if carry.None? {
        ReadingBad(s, zeroes, k, ds);
        return false, k, [], ds;
      }
      ReadingNext(s, zeroes, k, ds);
      ghost var more := ds + [carry.value];
      ReadingTop(s, zeroes, k + 1, more);
      assert more[..|ds|] == ds && more[..|more|] == more;
      RoundFits(more, |ds|, 58, |s| - zeroes, 256, size);
      NumNext(more, |ds|, 58);
      length := Accumulate(b256, length, 58, 256, carry.value, Num(ds, 58));
      ds := more;
      k := k + 1;
      HoldsDigits(b256[..], length, Num(ds, 58), 256);
      HoldsLength(b256[..], length, Num(ds, 58), 256);
      if length + zeroes > maxRetLen {
        ReadingLong(s, zeroes, k, ds, maxRetLen);
        return false, k, [], ds;
      }
    }
    HoldsLength(b256[..], length, Num(ds, 58), 256);
    HoldsDigits(b256[..], length, Num(ds, 58), 256);
    bytes := b256[size - length..];
    assert b256[..][size - length..] == bytes;
    ok := true;
  }

  lemma NoOnesLost(s: string, zeroes: nat, maxRetLen: int)
    requires 0 < zeroes <= |s| && zeroes > maxRetLen && forall i :: 0 <= i < zeroes ==> s[i] == '1'
    ensures WordBytes(Word(s)).Some? ==> TooLong(WordBytes(Word(s)).value, maxRetLen)
  {
    hide WordBytes;
    hide TooLong;
    WordCovers(s, zeroes);
    var w := Word(s);
    assert forall i :: 0 <= i < zeroes ==> w[i] == w[..zeroes][i];
    LeadingOnes(w, zeroes);
    OnesTooLong(w, zeroes, maxRetLen);
  }

  lemma {:induction false} SkipSpacesIs(s: string, p: nat)
    requires p <= |s| && (forall i :: 0 <= i < p ==> IsSpace(s[i])) && (p < |s| ==> !IsSpace(s[p]))
    ensures SkipSpaces(s) == s[p..]
    decreases p
  {
    hide IsSpace;
    if p > 0 {
      SkipSpacesIs(s[1..], p - 1);
      assert s[1..][p - 1..] == s[p..];
    }
  }

  /** The end of a word that was read to its end. */
  lemma ReadingEnd(s: string, zeroes: nat, k: nat, ds: seq<nat>)
    requires Reading(s, zeroes, k, ds) && (k < |s| ==> IsSpace(s[k]))
    ensures Word(s) == s[..k] && WordBytes(Word(s)) == Some(Repeat(zeroes, 0) + Convert(ds, 58, 256))
  {
    hide IsSpace;
    hide Num;
    hide Digits;
    hide DigitsOf;
    WordIs(s, k);
    LeadingIs(s[..k], '1', zeroes);
    assert s[..k][zeroes..] == s[zeroes..k];
  }

  /** A word at the start of `s`, with nothing but spaces after it. */
  ghost function TrimmedWithin(s: string, maxRetLen: int): Option<seq<nat>> {
    var w := Word(s);
    if !AllSpaces(s[|w|..]) || (WordBytes(w).Some? && TooLong(WordBytes(w).value, maxRetLen)) then None
      else WordBytes(w)
  }

  method DecodeTrimmed(s: string, maxRetLen: int) returns (r: Option<seq<nat>>)
    ensures r == TrimmedWithin(s, maxRetLen)
  {
    hide IsSpace;
    hide WordBytes;
    hide TooLong;
    hide Reading;
    hide Convert;
    hide Word;
    var zeroes := 0;
    while zeroes < |s| && s[zeroes] == '1'
      invariant zeroes <= |s| && (forall i :: 0 <= i < zeroes ==> s[i] == '1') && (zeroes > 0 ==> zeroes <= maxRetLen)
    {
      zeroes := zeroes + 1;
      if zeroes > maxRetLen {
        NoOnesLost(s, zeroes, maxRetLen);
        return None;
      }
    }
    var ok, k, bytes, ds := DecodeDigits(s, zeroes, maxRetLen);
    if !ok {
      return None;
    }
    ReadingEnd(s, zeroes, k, ds);
    var spaces := OnlySpaces(s[k..]);
    r := if spaces then Some(Repeat(zeroes, 0) + bytes) else None;
  }

  method OnlySpaces(s: string) returns (only: bool)
    ensures only == AllSpaces(s)
  {
    hide IsSpace;
    var q := 0;
    while q < |s| && IsSpace(s[q])
      invariant q <= |s| && forall i :: 0 <= i < q ==> IsSpace(s[i])
    {
      q := q + 1;
    }
    only := q == |s|;
  }

  method DecodeBase58(str: string, maxRetLen: int) returns (r: Option<seq<nat>>)
    ensures r == DecodedWithin(str, maxRetLen)
  {
    hide IsSpace;
    hide WordBytes;
    hide TooLong;
    hide Word;
    hide AllSpaces;
    hide SkipSpaces;
    if 0 as char in str {
      return None;
    }
    var p := 0;
    while p < |str| && IsSpace(str[p])
      invariant p <= |str| && forall i :: 0 <= i < p ==> IsSpace(str[i])
    {
      p := p + 1;
    }
    SkipSpacesIs(str, p);
    r := DecodeTrimmed(str[p..], maxRetLen);
  }
}
