/** Bech32 and Bech32m: the checksum as a remainder over GF(32), and the string encoding. */
module Bech32 {
  import opened Common

  type Symbol = bv5

  // ---------------------------------------------------------------------
  // One step of the remainder
  // ---------------------------------------------------------------------

  function Ext(v: Symbol): bv32 { v as bv32 }
  function Xor(x: bv32, y: bv32): bv32 { x ^ y }

  function Pick(c0: bv32, bit: bv32, k: bv32): bv32 { if c0 & bit != 0 then k else 0 }

  /** The multiples of k(x) for the bits of the coefficient that is shifted out. */
  function Reduction(c0: bv32): bv32 {
    Xor(Xor(Xor(Xor(Pick(c0, 1, 0x3b6a57b2), Pick(c0, 2, 0x26508e6d)), Pick(c0, 4, 0x1ea119fa)),
      Pick(c0, 8, 0x3d4233dd)), Pick(c0, 16, 0x2a1462b3))
  }

  function Head(c: bv32): bv32 { c >> 25 }
  function Tail(c: bv32): bv32 { (c & 0x1ffffff) << 5 }

  /** Multiply by x and add `v`, modulo the generator. */
  function Step(c: bv32, v: Symbol): bv32 {
    Xor(Xor(Tail(c), Ext(v)), Reduction(Head(c)))
  }

  lemma PlainPick(a: bv32, b: bv32, bit: bv32)
    requires bit == 1 || bit == 2 || bit == 4 || bit == 8 || bit == 16
    ensures ((a ^ b) & bit != 0) == ((a & bit != 0) != (b & bit != 0))
  {
  }

  lemma PlainCancel(k: bv32)
    ensures k ^ k == 0 && k ^ 0 == k && 0 ^ k == k
  {
  }

  lemma PickXor(a: bv32, b: bv32, bit: bv32, k: bv32)
    requires bit == 1 || bit == 2 || bit == 4 || bit == 8 || bit == 16
    ensures Pick(Xor(a, b), bit, k) == Xor(Pick(a, bit, k), Pick(b, bit, k))
  {
    PlainPick(a, b, bit);
    PlainCancel(k);
  }

  lemma XorLaws(a: bv32, b: bv32, c: bv32)
    ensures Xor(a, b) == Xor(b, a)
    ensures Xor(Xor(a, b), c) == Xor(a, Xor(b, c))
    ensures Xor(a, 0) == a && Xor(0, a) == a && Xor(a, a) == 0
  {
    assert (a ^ b) ^ c == a ^ (b ^ c);
    PlainCancel(a);
  }

  lemma Interchange(a: bv32, b: bv32, c: bv32, d: bv32)
    ensures Xor(Xor(a, b), Xor(c, d)) == Xor(Xor(a, c), Xor(b, d))
  {
    hide Xor;
    XorLaws(a, b, Xor(c, d));
    XorLaws(b, c, d);
    XorLaws(c, b, d);
    XorLaws(a, c, Xor(b, d));
  }

  lemma ReductionXor(a: bv32, b: bv32)
    ensures Reduction(Xor(a, b)) == Xor(Reduction(a), Reduction(b))
  {
    hide Xor;
    hide Pick;
    PickXor(a, b, 1, 0x3b6a57b2);
    PickXor(a, b, 2, 0x26508e6d);
    PickXor(a, b, 4, 0x1ea119fa);
    PickXor(a, b, 8, 0x3d4233dd);
    PickXor(a, b, 16, 0x2a1462b3);
    var a1, b1 := Pick(a, 1, 0x3b6a57b2), Pick(b, 1, 0x3b6a57b2);
    var a2, b2 := Pick(a, 2, 0x26508e6d), Pick(b, 2, 0x26508e6d);
    var a3, b3 := Pick(a, 4, 0x1ea119fa), Pick(b, 4, 0x1ea119fa);
    var a4, b4 := Pick(a, 8, 0x3d4233dd), Pick(b, 8, 0x3d4233dd);
    var a5, b5 := Pick(a, 16, 0x2a1462b3), Pick(b, 16, 0x2a1462b3);
    Interchange(a1, b1, a2, b2);
    Interchange(Xor(a1, a2), Xor(b1, b2), a3, b3);
    Interchange(Xor(Xor(a1, a2), a3), Xor(Xor(b1, b2), b3), a4, b4);
    Interchange(Xor(Xor(Xor(a1, a2), a3), a4), Xor(Xor(Xor(b1, b2), b3), b4), a5, b5);
  }

  lemma PartsXor(c: bv32, d: bv32, v: Symbol, e: Symbol)
    ensures Tail(Xor(c, d)) == Xor(Tail(c), Tail(d)) && Head(Xor(c, d)) == Xor(Head(c), Head(d))
    ensures Ext(v ^ e) == Xor(Ext(v), Ext(e))
  {
  }

  /** The step is linear. */
  lemma StepXor(c: bv32, d: bv32, v: Symbol, e: Symbol)
    ensures Step(Xor(c, d), v ^ e) == Xor(Step(c, v), Step(d, e))
  {
    hide Xor;
    hide Tail;
    hide Head;
    hide Ext;
    hide Reduction;
    PartsXor(c, d, v, e);
    ReductionXor(Head(c), Head(d));
    Interchange(Tail(c), Tail(d), Ext(v), Ext(e));
    Interchange(Xor(Tail(c), Ext(v)), Xor(Tail(d), Ext(e)), Reduction(Head(c)), Reduction(Head(d)));
  }

  /** The step loses nothing: the generator has a constant term. */
  lemma StepInjective(c: bv32)
    requires c < 0x4000_0000 && Step(c, 0) == 0
    ensures c == 0
  {
  }

  lemma StepBound(c: bv32, v: Symbol)
    ensures Step(c, v) < 0x4000_0000
  {
  }

  lemma NoReduction()
    ensures Reduction(0) == 0
  {
  }

  /** Below x^5 there is nothing to reduce. */
  lemma StepSmall(c: bv32, v: Symbol)
    requires c < 0x200_0000
    ensures Step(c, v) == Xor(Tail(c), Ext(v))
  {
    hide Xor;
    hide Tail;
    hide Ext;
    hide Reduction;
    NoReduction();
    XorLaws(Xor(Tail(c), Ext(v)), 0, 0);
  }

  // ---------------------------------------------------------------------
  // The remainder of a message
  // ---------------------------------------------------------------------

  function Run(c: bv32, vs: seq<Symbol>): bv32 {
    if vs == [] then c else Step(Run(c, vs[..|vs| - 1]), vs[|vs| - 1])
  }

  /** PolyMod, with the implicit 1 in front. */
  function Remainder(vs: seq<Symbol>): bv32 { Run(1, vs) }

  function XorSeq(vs: seq<Symbol>, es: seq<Symbol>): (r: seq<Symbol>)
    requires |vs| == |es|
    ensures |r| == |vs| && forall i :: 0 <= i < |vs| ==> r[i] == vs[i] ^ es[i]
  {
    seq(|vs|, i requires 0 <= i < |vs| => vs[i] ^ es[i])
  }

  function Zeros(n: nat): (z: seq<Symbol>)
    ensures |z| == n && forall i :: 0 <= i < n ==> z[i] == 0
  {
    seq(n, _ => 0)
  }

  lemma {:induction false} RunXor(c: bv32, d: bv32, vs: seq<Symbol>, es: seq<Symbol>)
    requires |vs| == |es|
    ensures Run(Xor(c, d), XorSeq(vs, es)) == Xor(Run(c, vs), Run(d, es))
    decreases |vs|
  {
    hide Xor;
    hide Step;
    if vs != [] {
      var v, e := vs[..|vs| - 1], es[..|es| - 1];
      RunXor(c, d, v, e);
      assert XorSeq(vs, es)[..|vs| - 1] == XorSeq(v, e);
      StepXor(Run(c, v), Run(d, e), vs[|vs| - 1], es[|es| - 1]);
    }
  }

  lemma {:induction false} RunAppend(c: bv32, xs: seq<Symbol>, ys: seq<Symbol>)
    ensures Run(c, xs + ys) == Run(Run(c, xs), ys)
    decreases |ys|
  {
    hide Step;
    if ys == [] {
      assert xs + ys == xs;
    } else {
      assert (xs + ys)[..|xs + ys| - 1] == xs + ys[..|ys| - 1];
      RunAppend(c, xs, ys[..|ys| - 1]);
    }
  }

  lemma StepZero()
    ensures Step(0, 0) == 0
  {
  }

  lemma {:induction false} RunZeros(zs: seq<Symbol>)
    requires forall i :: 0 <= i < |zs| ==> zs[i] == 0
    ensures Run(0, zs) == 0
    decreases |zs|
  {
    hide Step;
    if zs != [] {
      RunZeros(zs[..|zs| - 1]);
      StepZero();
    }
  }

  lemma {:induction false} RunBound(vs: seq<Symbol>)
    ensures Run(0, vs) < 0x4000_0000
    decreases |vs|
  {
    hide Step;
    if vs != [] {
      StepBound(Run(0, vs[..|vs| - 1]), vs[|vs| - 1]);
    }
  }

  lemma {:induction false} RemainderBound(vs: seq<Symbol>)
    ensures Remainder(vs) < 0x4000_0000
    decreases |vs|
  {
    hide Step;
    if vs != [] {
      StepBound(Run(1, vs[..|vs| - 1]), vs[|vs| - 1]);
    }
  }

  // ---------------------------------------------------------------------
  // Errors in six consecutive symbols
  // ---------------------------------------------------------------------

  function Limit(k: nat): bv32
    requires k <= 5
  {
    match k case 0 => 1 case 1 => 0x20 case 2 => 0x400 case 3 => 0x8000 case 4 => 0x10_0000 case _ => 0x200_0000
  }

  lemma StepGrows(c: bv32, v: Symbol, k: nat)
    requires k < 5 && c < Limit(k)
    ensures Step(c, v) < Limit(k + 1)
  {
    StepSmall(c, v);
    if k == 0 {} else if k == 1 {} else if k == 2 {} else if k == 3 {} else {}
  }

  lemma {:induction false} RunSmall(w: seq<Symbol>)
    requires |w| <= 5
    ensures Run(0, w) < Limit(|w|)
    decreases |w|
  {
    hide Step;
    if w != [] {
      RunSmall(w[..|w| - 1]);
      StepGrows(Run(0, w[..|w| - 1]), w[|w| - 1], |w| - 1);
    }
  }

  lemma StepVanishes(c: bv32, v: Symbol)
    requires c < 0x200_0000 && Step(c, v) == 0
    ensures c == 0 && v == 0
  {
    StepSmall(c, v);
  }

  lemma LimitTop(k: nat)
    requires k <= 5
    ensures Limit(k) <= 0x200_0000
  {
  }

  lemma {:induction false} ShortZero(w: seq<Symbol>)
    requires |w| <= 6 && Run(0, w) == 0
    ensures forall i :: 0 <= i < |w| ==> w[i] == 0
    decreases |w|
  {
    hide Step;
    hide Limit;
    if w != [] {
      var front := w[..|w| - 1];
      RunSmall(front);
      LimitTop(|front|);
      StepVanishes(Run(0, front), w[|w| - 1]);
      ShortZero(front);
    }
  }

  /** `es` is zero outside the six positions from `start`. */
  ghost predicate Burst(es: seq<Symbol>, start: nat) {
    forall i :: 0 <= i < |es| && (i < start || i >= start + 6) ==> es[i] == 0
  }

  lemma {:induction false} BurstZero(es: seq<Symbol>, start: nat)
    requires Burst(es, start) && Run(0, es) == 0
    ensures forall i :: 0 <= i < |es| ==> es[i] == 0
    decreases |es|
  {
    hide Step;
    if |es| > start + 6 {
      var front := es[..|es| - 1];
      RunBound(front);
      StepInjective(Run(0, front));
      BurstZero(front, start);
    } else if |es| > start {
      var w := es[start..];
      assert es == es[..start] + w;
      RunAppend(0, es[..start], w);
      RunZeros(es[..start]);
      ShortZero(w);
    }
  }

  /** Any error confined to six consecutive symbols changes the remainder. */
  lemma BurstDetected(vs: seq<Symbol>, es: seq<Symbol>, start: nat, k: nat)
    requires |vs| == |es| && Burst(es, start) && k < |es| && es[k] != 0
    ensures Remainder(XorSeq(vs, es)) != Remainder(vs)
  {
    hide Run;
    hide Xor;
    RunXor(1, 0, vs, es);
    XorLaws(1, 0, 0);
    XorLaws(Run(1, vs), Run(1, vs), Run(0, es));
    XorLaws(Run(0, es), 0, 0);
    if Run(0, es) == 0 {
      BurstZero(es, start);
      assert false;
    }
  }

  // ---------------------------------------------------------------------
  // The six checksum symbols
  // ---------------------------------------------------------------------

  function Up(m: bv32): bv32 { m >> 5 }
  function Low(m: bv32): Symbol { (m & 31) as Symbol }

  /** The `n` lowest 5-bit groups of `m`, the highest of them first. */
  function Digits(m: bv32, n: nat): (s: seq<Symbol>)
    ensures |s| == n
  {
    if n == 0 then [] else Digits(Up(m), n - 1) + [Low(m)]
  }

  /** Appending the lowest group undoes the shift. */
  lemma StepUp(m: bv32)
    requires m < 0x4000_0000
    ensures Step(Up(m), Low(m)) == m
  {
    StepSmall(Up(m), Low(m));
  }

  /** `m` has no more than `n` groups. */
  predicate Fits(m: bv32, n: nat) { n <= 6 && if n == 6 then m < 0x4000_0000 else m < Limit(n) }

  lemma FitsUp(m: bv32, n: nat)
    requires Fits(m, n)
    ensures m < 0x4000_0000 && if n == 0 then m == 0 else Fits(Up(m), n - 1)
  {
    if n == 0 {} else if n == 1 {} else if n == 2 {} else if n == 3 {} else if n == 4 {} else if n == 5 {} else {}
  }

  lemma DigitsPush(m: bv32, n: nat)
    requires n > 0
    ensures Digits(m, n) == Digits(Up(m), n - 1) + [Low(m)]
  {
  }

  lemma RunPush(c: bv32, vs: seq<Symbol>, v: Symbol)
    ensures Run(c, vs + [v]) == Step(Run(c, vs), v)
  {
    assert (vs + [v])[..|vs|] == vs;
  }

  lemma {:induction false} DigitsRun(m: bv32, n: nat)
    requires Fits(m, n)
    ensures Run(0, Digits(m, n)) == m
    decreases n
  {
    hide Step;
    hide Up;
    hide Low;
    hide Fits;
    hide Run;
    FitsUp(m, n);
    if n == 0 {
      RunZeros([]);
    } else {
      hide Digits;
      DigitsRun(Up(m), n - 1);
      DigitsPush(m, n);
      RunPush(0, Digits(Up(m), n - 1), Low(m));
      StepUp(m);
    }
  }

  lemma SameRun(s: seq<Symbol>, t: seq<Symbol>)
    requires |s| == |t| == 6 && Run(0, s) == Run(0, t)
    ensures s == t
  {
    hide Run;
    hide Xor;
    RunXor(0, 0, s, t);
    XorLaws(0, 0, 0);
    XorLaws(Run(0, s), 0, 0);
    var d := XorSeq(s, t);
    ShortZero(d);
    forall i | 0 <= i < 6 ensures s[i] == t[i] {
      assert d[i] == 0;
    }
  }

  /** What the last six symbols must be for the remainder to come out as `k`. */
  function ChecksumFor(prefix: seq<Symbol>, k: bv32): seq<Symbol> {
    Digits(Xor(Remainder(prefix + Zeros(6)), k), 6)
  }

  lemma SuffixAdds(prefix: seq<Symbol>, s: seq<Symbol>)
    ensures Remainder(prefix + s) == Xor(Remainder(prefix + Zeros(|s|)), Run(0, s))
  {
    hide Run;
    hide Xor;
    var vs, es := prefix + Zeros(|s|), Zeros(|prefix|) + s;
    RunXor(1, 0, vs, es);
    XorLaws(1, 0, 0);
    forall i | 0 <= i < |vs| ensures XorSeq(vs, es)[i] == (prefix + s)[i] {
      ZeroXor(prefix + s, prefix, s, i);
    }
    assert XorSeq(vs, es) == prefix + s;
    RunAppend(0, Zeros(|prefix|), s);
    RunZeros(Zeros(|prefix|));
  }

  lemma ZeroXor(both: seq<Symbol>, prefix: seq<Symbol>, s: seq<Symbol>, i: nat)
    requires both == prefix + s && i < |both|
    ensures (prefix + Zeros(|s|))[i] ^ (Zeros(|prefix|) + s)[i] == both[i]
  {
  }

  lemma XorBound(x: bv32, y: bv32)
    requires x < 0x4000_0000 && y < 0x4000_0000
    ensures Xor(x, y) < 0x4000_0000
  {
  }

  /** Exactly one checksum is right. */
  lemma ChecksumUnique(prefix: seq<Symbol>, s: seq<Symbol>, k: bv32)
    requires |s| == 6 && k < 0x4000_0000
    ensures Remainder(prefix + s) == k <==> s == ChecksumFor(prefix, k)
  {
    hide Run;
    hide Xor;
    hide Digits;
    var a, r := Remainder(prefix + Zeros(6)), Run(0, s);
    SuffixAdds(prefix, s);
    RemainderBound(prefix + Zeros(6));
    XorBound(a, k);
    DigitsRun(Xor(a, k), 6);
    XorLaws(a, a, k);
    XorLaws(a, a, r);
    XorLaws(k, 0, 0);
    XorLaws(r, 0, 0);
    if Remainder(prefix + s) == k {
      SameRun(s, ChecksumFor(prefix, k));
    }
  }

  // ---------------------------------------------------------------------
  // Errors that cross over to the other encoding
  // ---------------------------------------------------------------------

  /** The coefficient that was shifted out, found from the lowest group of what it was reduced to. */
  function LostHead(low: bv32): bv32 {
    Xor(Xor(Xor(Xor(Pick(low, 1, 17), Pick(low, 2, 11)), Pick(low, 4, 22)), Pick(low, 8, 5)), Pick(low, 16, 10))
  }

  /** Division by x modulo the generator. */
  function Undo(c: bv32): bv32 {
    var head := LostHead(LowGroup(c));
    Join(head, Xor(c, Reduction(head)))
  }

  function LowGroup(c: bv32): bv32 { c & 31 }
  function Join(head: bv32, d: bv32): bv32 { (head << 25) | (d >> 5) }

  lemma LostHeadIs(low: bv32)
    requires low < 32
    ensures LostHead(low) < 32 && LowGroup(Reduction(LostHead(low))) == low && Reduction(LostHead(low)) < 0x4000_0000
  {
    hide LowGroup;
    hide Reduction;
    LostHeadBelow(low);
    LostHeadLow(low);
    ReductionBelow(LostHead(low));
  }

  lemma LostHeadBelow(low: bv32)
    ensures LostHead(low) < 32
  {
  }

  lemma ReductionBelow(c: bv32)
    ensures Reduction(c) < 0x4000_0000
  {
  }

  lemma LostHeadLow(low: bv32)
    requires low < 32
    ensures LowGroup(Reduction(LostHead(low))) == low
  {
    if low & 16 == 0 {
    } else if low & 8 == 0 {
    } else {
    }
  }

  lemma XorLow(c: bv32, r: bv32)
    requires c < 0x4000_0000 && r < 0x4000_0000 && LowGroup(r) == LowGroup(c)
    ensures Xor(c, r) < 0x4000_0000 && LowGroup(Xor(c, r)) == 0
  {
  }

  lemma Joined(head: bv32, d: bv32)
    requires head < 32 && d < 0x4000_0000 && LowGroup(d) == 0
    ensures var u := Join(head, d); u < 0x4000_0000 && Head(u) == head && Tail(u) == d
  {
  }

  lemma ExtZero()
    ensures Ext(0) == 0
  {
  }

  lemma LowBound(c: bv32)
    ensures LowGroup(c) < 32
  {
  }

  lemma UndoStep(c: bv32)
    requires c < 0x4000_0000
    ensures Step(Undo(c), 0) == c && Undo(c) < 0x4000_0000
  {
    hide Xor;
    hide Reduction;
    hide LostHead;
    hide Head;
    hide Tail;
    hide LowGroup;
    hide Join;
    hide Ext;
    LowBound(c);
    var head := LostHead(LowGroup(c));
    var r := Reduction(head);
    LostHeadIs(LowGroup(c));
    ExtZero();
    XorLow(c, r);
    Joined(head, Xor(c, r));
    XorLaws(Xor(c, r), 0, 0);
    XorLaws(c, r, r);
    XorLaws(r, 0, 0);
    XorLaws(c, 0, 0);
  }

  function UndoAll(c: bv32, n: nat): bv32
    decreases n
  {
    if n == 0 then c else UndoAll(Undo(c), n - 1)
  }

  lemma {:induction false} UndoRun(c: bv32, n: nat)
    requires c < 0x4000_0000
    ensures Run(UndoAll(c, n), Zeros(n)) == c && UndoAll(c, n) < 0x4000_0000
    decreases n
  {
    hide Step;
    hide Undo;
    if n != 0 {
      UndoStep(c);
      UndoRun(Undo(c), n - 1);
      assert Zeros(n)[..n - 1] == Zeros(n - 1);
    }
  }

  /** The error in the six symbols from `start` of `n` that has the remainder `k`. */
  function BurstFor(n: nat, start: nat, k: bv32): (es: seq<Symbol>)
    requires start + 6 <= n
    ensures |es| == n && Burst(es, start)
  {
    Zeros(start) + Digits(UndoAll(k, n - start - 6), 6) + Zeros(n - start - 6)
  }

  lemma BurstForRun(n: nat, start: nat, k: bv32)
    requires start + 6 <= n && k < 0x4000_0000
    ensures Run(0, BurstFor(n, start, k)) == k
  {
    hide Run;
    hide Digits;
    hide UndoAll;
    var rest := n - start - 6;
    var w := Digits(UndoAll(k, rest), 6);
    RunZeros(Zeros(start));
    RunAppend(0, Zeros(start), w);
    RunAppend(0, Zeros(start) + w, Zeros(rest));
    UndoRun(k, rest);
    DigitsRun(UndoAll(k, rest), 6);
  }

  lemma SameBurst(es: seq<Symbol>, fs: seq<Symbol>, start: nat)
    requires |es| == |fs| && Burst(es, start) && Burst(fs, start) && Run(0, es) == Run(0, fs)
    ensures es == fs
  {
    hide Run;
    hide Xor;
    RunXor(0, 0, es, fs);
    XorLaws(0, 0, 0);
    XorLaws(Run(0, es), 0, 0);
    var d := XorSeq(es, fs);
    forall i | 0 <= i < |d| && (i < start || i >= start + 6) ensures d[i] == 0 {
      assert es[i] == 0 && fs[i] == 0;
    }
    BurstZero(d, start);
    forall i | 0 <= i < |es| ensures es[i] == fs[i] {
      assert d[i] == 0;
    }
  }

  // ---------------------------------------------------------------------
  // Strings
  // ---------------------------------------------------------------------

  datatype Encoding = BECH32 | BECH32M

  /** CHARSET */
  function CharOf(v: Symbol): char {
    match v
    case 0 => 'q' case 1 => 'p' case 2 => 'z' case 3 => 'r' case 4 => 'y' case 5 => '9' case 6 => 'x' case 7 => '8'
    case 8 => 'g' case 9 => 'f' case 10 => '2' case 11 => 't' case 12 => 'v' case 13 => 'd'
    case 14 => 'w' case 15 => '0'
    case 16 => 's' case 17 => '3' case 18 => 'j' case 19 => 'n' case 20 => '5' case 21 => '4'
    case 22 => 'k' case 23 => 'h'
    case 24 => 'c' case 25 => 'e' case 26 => '6' case 27 => 'm' case 28 => 'u' case 29 => 'a'
    case 30 => '7' case _ => 'l'
  }

  predicate IsUpper(c: char) { 'A' <= c <= 'Z' }
  predicate IsLower(c: char) { 'a' <= c <= 'z' }
  predicate IsPrintable(c: char) { 33 <= c as int <= 126 }

  function LowerCase(c: char): char {
    if IsUpper(c) then (c as int - 'A' as int + 'a' as int) as char else c
  }

  function LowerSymbol(c: char): Option<Symbol> {
    match c
    case 'q' => Some(0) case 'p' => Some(1) case 'z' => Some(2) case 'r' => Some(3)
    case 'y' => Some(4) case '9' => Some(5) case 'x' => Some(6) case '8' => Some(7)
    case 'g' => Some(8) case 'f' => Some(9) case '2' => Some(10) case 't' => Some(11)
    case 'v' => Some(12) case 'd' => Some(13) case 'w' => Some(14) case '0' => Some(15)
    case 's' => Some(16) case '3' => Some(17) case 'j' => Some(18) case 'n' => Some(19)
    case '5' => Some(20) case '4' => Some(21) case 'k' => Some(22) case 'h' => Some(23)
    case 'c' => Some(24) case 'e' => Some(25) case '6' => Some(26) case 'm' => Some(27)
    case 'u' => Some(28) case 'a' => Some(29) case '7' => Some(30) case 'l' => Some(31)
    case _ => None
  }

  /** CHARSET_REV, which has the same entry for both cases of a letter. */
  function SymbolOf(c: char): Option<Symbol> { LowerSymbol(LowerCase(c)) }

  lemma CharIs(v: Symbol)
    ensures SymbolOf(CharOf(v)) == Some(v)
    ensures var c := CharOf(v); IsPrintable(c) && !IsUpper(c) && c != '1'
  {
    if v == 0 {} else if v == 1 {} else if v == 2 {} else if v == 3 {} else if v == 4 {} else if v == 5 {}
    else if v == 6 {} else if v == 7 {} else if v == 8 {} else if v == 9 {} else if v == 10 {} else if v == 11 {}
    else if v == 12 {} else if v == 13 {} else if v == 14 {} else if v == 15 {} else if v == 16 {} else if v == 17 {}
    else if v == 18 {} else if v == 19 {} else if v == 20 {} else if v == 21 {} else if v == 22 {} else if v == 23 {}
    else if v == 24 {} else if v == 25 {} else if v == 26 {} else if v == 27 {} else if v == 28 {} else if v == 29 {}
    else if v == 30 {} else {}
  }

  lemma SymbolChar(c: char, v: Symbol)
    requires LowerSymbol(c) == Some(v)
    ensures CharOf(v) == c && c != '1'
  {
    var ch := CharOf(v);
    if v == 0 {} else if v == 1 {} else if v == 2 {} else if v == 3 {} else if v == 4 {} else if v == 5 {}
    else if v == 6 {} else if v == 7 {} else if v == 8 {} else if v == 9 {} else if v == 10 {}
    else if v == 11 {} else if v == 12 {} else if v == 13 {} else if v == 14 {} else if v == 15 {}
    else if v == 16 {} else if v == 17 {} else if v == 18 {} else if v == 19 {} else if v == 20 {}
    else if v == 21 {} else if v == 22 {} else if v == 23 {} else if v == 24 {} else if v == 25 {}
    else if v == 26 {} else if v == 27 {} else if v == 28 {} else if v == 29 {} else if v == 30 {} else {}
  }

  lemma SymbolIs(c: char)
    ensures SymbolOf(c).Some? ==> CharOf(SymbolOf(c).value) == LowerCase(c) && c != '1'
  {
    hide LowerSymbol;
    hide CharOf;
    if SymbolOf(c).Some? {
      SymbolChar(LowerCase(c), SymbolOf(c).value);
    }
  }

  function Constant(encoding: Encoding): (k: bv32)
    ensures k < 0x4000_0000
  {
    if encoding.BECH32? then 1 else 0x2bc830a3
  }

  /** The upper three and the lower five bits of a byte. */
  function HighPart(c: char): Symbol { (c as int / 32 % 8) as Symbol }
  function LowPart(c: char): Symbol { (c as int % 32) as Symbol }

  function Expanded(hrp: string): (r: seq<Symbol>)
    ensures |r| == 2 * |hrp| + 1
  {
    seq(|hrp|, i requires 0 <= i < |hrp| => HighPart(hrp[i])) + [0]
    + seq(|hrp|, i requires 0 <= i < |hrp| => LowPart(hrp[i]))
  }

  function Checksum(encoding: Encoding, hrp: string, values: seq<Symbol>): (s: seq<Symbol>)
    ensures |s| == 6
  {
    ChecksumFor(Expanded(hrp) + values, Constant(encoding))
  }

  function Verified(hrp: string, values: seq<Symbol>): Option<Encoding> {
    var check := Remainder(Expanded(hrp) + values);
    if check == Constant(BECH32) then Some(BECH32) else if check == Constant(BECH32M) then Some(BECH32M) else None
  }

  function Chars(vs: seq<Symbol>): (r: string)
    ensures |r| == |vs| && forall i :: 0 <= i < |vs| ==> r[i] == CharOf(vs[i])
  {
    seq(|vs|, i requires 0 <= i < |vs| => CharOf(vs[i]))
  }

  function Encoded(encoding: Encoding, hrp: string, values: seq<Symbol>): string {
    hrp + "1" + Chars(values + Checksum(encoding, hrp, values))
  }

  /** None when some character is in no alphabet. */
  function Symbols(s: string): (r: Option<seq<Symbol>>)
    ensures r.Some? ==> |r.value| == |s| && forall i :: 0 <= i < |s| ==> SymbolOf(s[i]) == Some(r.value[i])
    ensures r.None? ==> exists i :: 0 <= i < |s| && SymbolOf(s[i]).None?
  {
    if s == "" then Some([]) else
      var front, last := Symbols(s[..|s| - 1]), SymbolOf(s[|s| - 1]);
      if front.Some? && last.Some? then Some(front.value + [last.value]) else None
  }

  function Lower(s: string): (r: string)
    ensures |r| == |s| && forall i :: 0 <= i < |s| ==> r[i] == LowerCase(s[i])
  {
    seq(|s|, i requires 0 <= i < |s| => LowerCase(s[i]))
  }

  /** rfind('1'), or -1. */
  function LastOne(s: string): (p: int)
    ensures -1 <= p < |s| && (p >= 0 ==> s[p] == '1') && forall i :: p < i < |s| ==> s[i] != '1'
  {
    if s == "" then -1 else if s[|s| - 1] == '1' then |s| - 1 else LastOne(s[..|s| - 1])
  }

  predicate AllPrintable(s: string) { forall i :: 0 <= i < |s| ==> IsPrintable(s[i]) }
  predicate HasUpper(s: string) { exists i :: 0 <= i < |s| && IsUpper(s[i]) }
  predicate HasLower(s: string) { exists i :: 0 <= i < |s| && IsLower(s[i]) }

  datatype Decoded = Decoded(encoding: Encoding, hrp: string, values: seq<Symbol>)

  function DecodedOf(s: string): Option<Decoded> {
    var pos := LastOne(s);
    if !AllPrintable(s) || (HasLower(s) && HasUpper(s)) || |s| > 90 || pos <= 0 || pos + 7 > |s| then None
    else DecodedAt(s, pos)
  }

  function DecodedAt(s: string, pos: nat): Option<Decoded>
    requires pos + 7 <= |s|
  {
    var values := Symbols(s[pos + 1..]);
    if values.None? then None else
      var hrp := Lower(s[..pos]);
      var encoding := Verified(hrp, values.value);
      if encoding.None? then None else Some(Decoded(encoding.value, hrp, values.value[..|values.value| - 6]))
  }

  // ---------------------------------------------------------------------
  // Decoding inverts encoding, and conversely
  // ---------------------------------------------------------------------

  predicate Encodable(hrp: string, values: seq<Symbol>) {
    hrp != "" && AllPrintable(hrp) && |hrp| + |values| + 7 <= 90
  }

  lemma VerifiedIff(hrp: string, values: seq<Symbol>, check: seq<Symbol>, encoding: Encoding)
    requires |check| == 6
    ensures Verified(hrp, values + check) == Some(encoding) <==> check == Checksum(encoding, hrp, values)
  {
    hide Remainder;
    hide ChecksumFor;
    assert Expanded(hrp) + (values + check) == Expanded(hrp) + values + check;
    ChecksumUnique(Expanded(hrp) + values, check, Constant(encoding));
    assert Constant(BECH32) != Constant(BECH32M);
  }

  lemma CharsProps(vs: seq<Symbol>)
    ensures AllPrintable(Chars(vs)) && !HasUpper(Chars(vs)) && '1' !in Chars(vs)
    ensures Symbols(Chars(vs)) == Some(vs)
  {
    hide CharOf;
    hide SymbolOf;
    forall i | 0 <= i < |vs|
      ensures IsPrintable(Chars(vs)[i]) && !IsUpper(Chars(vs)[i]) && Chars(vs)[i] != '1'
              && SymbolOf(Chars(vs)[i]) == Some(vs[i])
    {
      CharIs(vs[i]);
    }
    var r := Symbols(Chars(vs));
    if r.Some? {
      assert r.value == vs;
    }
  }

  lemma LastOneIs(s: string, p: nat)
    requires p < |s| && s[p] == '1' && forall i :: p < i < |s| ==> s[i] != '1'
    ensures LastOne(s) == p
  {
  }

  lemma EncodedChar(hrp: string, chars: string, i: nat)
    requires i < |hrp| + 1 + |chars|
    ensures (hrp + "1" + chars)[i] == if i < |hrp| then hrp[i] else if i == |hrp| then '1' else chars[i - |hrp| - 1]
  {
  }

  lemma EncodedPrintable(hrp: string, chars: string)
    requires AllPrintable(chars)
    ensures AllPrintable(hrp + "1" + chars) <==> AllPrintable(hrp)
  {
    var s := hrp + "1" + chars;
    if AllPrintable(hrp) {
      forall i | 0 <= i < |s| ensures IsPrintable(s[i]) {
        EncodedChar(hrp, chars, i);
      }
    } else {
      var i :| 0 <= i < |hrp| && !IsPrintable(hrp[i]);
      EncodedChar(hrp, chars, i);
    }
  }

  lemma EncodedShape(hrp: string, chars: string)
    requires !HasUpper(hrp) && !HasUpper(chars) && '1' !in chars
    ensures var s := hrp + "1" + chars;
      !HasUpper(s) && LastOne(s) == |hrp| && s[..|hrp|] == hrp && s[|hrp| + 1..] == chars && Lower(hrp) == hrp
  {
    hide IsUpper;
    var s := hrp + "1" + chars;
    forall i | 0 <= i < |s| ensures !IsUpper(s[i]) {
      EncodedChar(hrp, chars, i);
      OneNotUpper();
    }
    EncodedChar(hrp, chars, |hrp|);
    forall i | |hrp| < i < |s| ensures s[i] != '1' {
      EncodedChar(hrp, chars, i);
    }
    LastOneIs(s, |hrp|);
    assert Lower(hrp) == hrp;
  }

  lemma OneNotUpper()
    ensures !IsUpper('1')
  {
  }

  /** What is encoded decodes to itself exactly when the prefix is printable and not empty and the length is at most
      90. */
  lemma DecodeEncoded(encoding: Encoding, hrp: string, values: seq<Symbol>)
    requires !HasUpper(hrp)
    ensures DecodedOf(Encoded(encoding, hrp, values)) ==
      if Encodable(hrp, values) then Some(Decoded(encoding, hrp, values)) else None
  {
    hide Checksum;
    hide Symbols;
    hide Verified;
    hide AllPrintable;
    hide HasUpper;
    hide LastOne;
    hide Lower;
    var check := Checksum(encoding, hrp, values);
    var vs := values + check;
    CharsProps(vs);
    EncodedShape(hrp, Chars(vs));
    EncodedPrintable(hrp, Chars(vs));
    VerifiedIff(hrp, values, check, encoding);
    assert vs[..|vs| - 6] == values;
  }

  lemma CharsOfSymbols(s: string)
    requires Symbols(s).Some?
    ensures Chars(Symbols(s).value) == Lower(s)
  {
    hide CharOf;
    hide SymbolOf;
    forall i | 0 <= i < |s| ensures Chars(Symbols(s).value)[i] == Lower(s)[i] {
      SymbolIs(s[i]);
    }
  }

  lemma LowerSplit(s: string, pos: nat)
    requires pos < |s| && s[pos] == '1'
    ensures Lower(s) == Lower(s[..pos]) + "1" + Lower(s[pos + 1..])
  {
    hide LowerCase;
    assert LowerCase('1') == '1' by { OneLower(); }
  }

  lemma OneLower()
    ensures LowerCase('1') == '1'
  {
  }

  lemma LowerNoUpper(s: string)
    ensures !HasUpper(Lower(s))
  {
  }

  lemma DecodedParts(s: string) returns (pos: nat, vs: seq<Symbol>)
    requires DecodedOf(s).Some?
    ensures LastOne(s) == pos && pos + 7 <= |s| && Symbols(s[pos + 1..]) == Some(vs) && |vs| >= 6
    ensures DecodedOf(s).value.hrp == Lower(s[..pos]) && DecodedOf(s).value.values == vs[..|vs| - 6]
    ensures Verified(Lower(s[..pos]), vs) == Some(DecodedOf(s).value.encoding)
  {
    hide Verified;
    hide Symbols;
    hide LastOne;
    hide Lower;
    pos, vs := LastOne(s), Symbols(s[LastOne(s) + 1..]).value;
  }

  /** What decodes is what encoding produces, up to the case of the letters. */
  lemma EncodeDecoded(s: string)
    requires DecodedOf(s).Some?
    ensures var d := DecodedOf(s).value; Encoded(d.encoding, d.hrp, d.values) == Lower(s) && !HasUpper(d.hrp)
  {
    hide Checksum;
    hide Verified;
    hide Symbols;
    hide LastOne;
    hide Lower;
    hide Chars;
    hide HasUpper;
    hide HasLower;
    hide AllPrintable;
    hide DecodedOf;
    var d := DecodedOf(s).value;
    var pos, vs := DecodedParts(s);
    var check := vs[|vs| - 6..];
    assert vs == d.values + check;
    VerifiedIff(d.hrp, d.values, check, d.encoding);
    CharsOfSymbols(s[pos + 1..]);
    OneAt(s, pos);
    LowerSplit(s, pos);
    LowerNoUpper(s[..pos]);
  }

  lemma OneAt(s: string, pos: nat)
    requires LastOne(s) == pos
    ensures pos < |s| && s[pos] == '1'
  {
  }

  /** The remainder of a valid string with an error is that of the string and that of the error, added. */
  lemma ErrorAdds(hrp: string, values: seq<Symbol>, es: seq<Symbol>)
    requires |es| == |values|
    ensures Remainder(Expanded(hrp) + XorSeq(values, es)) == Xor(Remainder(Expanded(hrp) + values), Run(0, es))
  {
    hide Run;
    hide Xor;
    var x := Expanded(hrp);
    var padded := Zeros(|x|) + es;
    RunXor(1, 0, x + values, padded);
    XorLaws(1, 0, 0);
    forall i | 0 <= i < |padded| ensures XorSeq(x + values, padded)[i] == (x + XorSeq(values, es))[i] {
      PaddedXor(x, values, es, i);
    }
    assert XorSeq(x + values, padded) == x + XorSeq(values, es);
    RunAppend(0, Zeros(|x|), es);
    RunZeros(Zeros(|x|));
  }

  /** Whether a valid string with an error passes, and as which encoding, depends on the error alone. */
  lemma ErrorPasses(hrp: string, values: seq<Symbol>, es: seq<Symbol>, a: Encoding, b: Encoding)
    requires Verified(hrp, values) == Some(a) && |es| == |values|
    ensures Verified(hrp, XorSeq(values, es)) == Some(b) <==> Run(0, es) == Xor(Constant(a), Constant(b))
  {
    hide Remainder;
    hide Run;
    hide Xor;
    var r := Run(0, es);
    ErrorAdds(hrp, values, es);
    XorLaws(Constant(a), Constant(a), r);
    XorLaws(Constant(a), Constant(a), Constant(b));
    XorLaws(r, 0, 0);
    XorLaws(Constant(b), 0, 0);
    assert Constant(BECH32) != Constant(BECH32M);
  }

  /** An error in six consecutive symbols of a valid string never passes as the same encoding. */
  lemma BurstRejected(hrp: string, values: seq<Symbol>, es: seq<Symbol>, start: nat, k: nat, encoding: Encoding)
    requires Verified(hrp, values) == Some(encoding)
    requires |es| == |values| && Burst(es, start) && k < |es| && es[k] != 0
    ensures Verified(hrp, XorSeq(values, es)) != Some(encoding)
  {
    hide Xor;
    hide Run;
    ErrorPasses(hrp, values, es, encoding, encoding);
    XorLaws(Constant(encoding), 0, 0);
    if Run(0, es) == 0 {
      BurstZero(es, start);
      assert false;
    }
  }

  /** The one error in the six symbols from `start` that turns a valid string of `n` symbols into one of the other
      encoding. */
  function Crossing(n: nat, start: nat): seq<Symbol>
    requires start + 6 <= n
  {
    BurstFor(n, start, Xor(Constant(BECH32), Constant(BECH32M)))
  }

  /** In every window of six symbols exactly one error crosses over, the same for all strings of that length. */
  lemma OneBurstCrosses(hrp: string, values: seq<Symbol>, es: seq<Symbol>, start: nat, a: Encoding, b: Encoding)
    requires Verified(hrp, values) == Some(a) && a != b
    requires |es| == |values| && Burst(es, start) && start + 6 <= |es|
    ensures Verified(hrp, XorSeq(values, es)) == Some(b) <==> es == Crossing(|es|, start)
  {
    hide Xor;
    hide Run;
    hide BurstFor;
    var k := Xor(Constant(BECH32), Constant(BECH32M));
    XorLaws(Constant(a), Constant(b), 0);
    XorBound(Constant(BECH32), Constant(BECH32M));
    ErrorPasses(hrp, values, es, a, b);
    BurstForRun(|es|, start, k);
    if Run(0, es) == k {
      SameBurst(es, Crossing(|es|, start), start);
    }
  }

  /** Every payload has a checksum under each of the two encodings, and these differ. */
  lemma BothEncodings(hrp: string, values: seq<Symbol>)
    ensures Verified(hrp, values + Checksum(BECH32, hrp, values)) == Some(BECH32)
    ensures Verified(hrp, values + Checksum(BECH32M, hrp, values)) == Some(BECH32M)
    ensures Checksum(BECH32, hrp, values) != Checksum(BECH32M, hrp, values)
  {
    hide Verified;
    hide Checksum;
    VerifiedIff(hrp, values, Checksum(BECH32, hrp, values), BECH32);
    VerifiedIff(hrp, values, Checksum(BECH32M, hrp, values), BECH32M);
  }

  lemma PaddedXor(x: seq<Symbol>, values: seq<Symbol>, es: seq<Symbol>, i: nat)
    requires |es| == |values| && i < |x| + |es|
    ensures (x + values)[i] ^ (Zeros(|x|) + es)[i] == (x + XorSeq(values, es))[i]
  {
  }

  // ---------------------------------------------------------------------
  // The loops
  // ---------------------------------------------------------------------

  lemma Regroup(t: bv32, c0: bv32)
    ensures Xor(Xor(Xor(Xor(Xor(t, Pick(c0, 1, 0x3b6a57b2)), Pick(c0, 2, 0x26508e6d)), Pick(c0, 4, 0x1ea119fa)),
      Pick(c0, 8, 0x3d4233dd)), Pick(c0, 16, 0x2a1462b3))
         == Xor(t, Reduction(c0))
  {
    hide Xor;
    hide Pick;
    var p1, p2, p3 := Pick(c0, 1, 0x3b6a57b2), Pick(c0, 2, 0x26508e6d), Pick(c0, 4, 0x1ea119fa);
    var p4, p5 := Pick(c0, 8, 0x3d4233dd), Pick(c0, 16, 0x2a1462b3);
    XorLaws(t, p1, p2);
    XorLaws(t, Xor(p1, p2), p3);
    XorLaws(t, Xor(Xor(p1, p2), p3), p4);
    XorLaws(t, Xor(Xor(Xor(p1, p2), p3), p4), p5);
  }

  lemma PickCases(t: bv32, c0: bv32, bit: bv32, k: bv32)
    ensures Xor(t, Pick(c0, bit, k)) == if c0 & bit != 0 then Xor(t, k) else t
  {
    PlainCancel(t);
  }

  /** The body of PolyMod's loop. */
  method Update(was: bv32, v: Symbol) returns (c: bv32)
    ensures c == Step(was, v)
  {
    hide Xor;
    hide Pick;
    hide Reduction;
    var c0 := Head(was);
    c := Xor(Tail(was), Ext(v));
    ghost var t := c;
    Regroup(t, c0);
    PickCases(c, c0, 1, 0x3b6a57b2);
    if c0 & 1 != 0 { c := Xor(c, 0x3b6a57b2); }
    PickCases(c, c0, 2, 0x26508e6d);
    if c0 & 2 != 0 { c := Xor(c, 0x26508e6d); }
    PickCases(c, c0, 4, 0x1ea119fa);
    if c0 & 4 != 0 { c := Xor(c, 0x1ea119fa); }
    PickCases(c, c0, 8, 0x3d4233dd);
    if c0 & 8 != 0 { c := Xor(c, 0x3d4233dd); }
    PickCases(c, c0, 16, 0x2a1462b3);
    if c0 & 16 != 0 { c := Xor(c, 0x2a1462b3); }
  }

  method PolyMod(v: seq<Symbol>) returns (c: bv32)
    ensures c == Remainder(v) && c < 0x4000_0000
  {
    hide Step;
    c := 1;
    for i := 0 to |v|
      invariant c == Run(1, v[..i])
    {
      c := Update(c, v[i]);
      assert v[..i + 1][..i] == v[..i];
    }
    assert v[..|v|] == v;
    RemainderBound(v);
  }

  method ExpandHRP(hrp: string) returns (ret: seq<Symbol>)
    ensures ret == Expanded(hrp)
  {
    var buffer := new Symbol[2 * |hrp| + 1](_ => 0);
    for i := 0 to |hrp|
      invariant buffer[|hrp|] == 0
      invariant forall k :: 0 <= k < i ==> buffer[k] == HighPart(hrp[k]) && buffer[k + |hrp| + 1] == LowPart(hrp[k])
    {
      buffer[i] := HighPart(hrp[i]);
      buffer[i + |hrp| + 1] := LowPart(hrp[i]);
    }
    buffer[|hrp|] := 0;
    ret := buffer[..];
    forall k | 0 <= k < |ret| ensures ret[k] == Expanded(hrp)[k] {
      assert k > |hrp| ==> ret[k] == buffer[k - |hrp| - 1 + |hrp| + 1];
    }
  }

  method VerifyChecksum(hrp: string, values: seq<Symbol>) returns (r: Option<Encoding>)
    ensures r == Verified(hrp, values)
  {
    var expanded := ExpandHRP(hrp);
    var check := PolyMod(expanded + values);
    if check == Constant(BECH32) { return Some(BECH32); }
    if check == Constant(BECH32M) { return Some(BECH32M); }
    return None;
  }

  /** `m` shifted right by 5 * `k`, five bits at a time. */
  function Group(m: bv32, k: nat): bv32 {
    if k == 0 then m else Up(Group(m, k - 1))
  }

  lemma GroupNext(m: bv32, k: nat)
    ensures Group(m, k + 1) == Up(Group(m, k))
  {
  }

  lemma DigitsOpen(m: bv32)
    ensures Digits(m, 6)
      == [Low(Up(Up(Up(Up(Up(m)))))), Low(Up(Up(Up(Up(m))))), Low(Up(Up(Up(m)))), Low(Up(Up(m))), Low(Up(m)), Low(m)]
  {
    hide Low;
    hide Up;
    hide Digits;
    var m1, m2, m3, m4, m5 := Up(m), Up(Up(m)), Up(Up(Up(m))), Up(Up(Up(Up(m)))), Up(Up(Up(Up(Up(m)))));
    DigitsPush(m5, 1);
    DigitsPush(m4, 2);
    DigitsPush(m3, 3);
    DigitsPush(m2, 4);
    DigitsPush(m1, 5);
    DigitsPush(m, 6);
  }

  lemma DigitAt(m: bv32, i: nat)
    requires i < 6
    ensures Low(Group(m, 5 - i)) == Digits(m, 6)[i]
  {
    hide Low;
    hide Up;
    hide Digits;
    hide Group;
    DigitsOpen(m);
    GroupZero(m);
    GroupNext(m, 0);
    GroupNext(m, 1);
    GroupNext(m, 2);
    GroupNext(m, 3);
    GroupNext(m, 4);
    if i == 0 {} else if i == 1 {} else if i == 2 {} else if i == 3 {} else if i == 4 {} else {}
  }

  lemma GroupZero(m: bv32)
    ensures Group(m, 0) == m
  {
  }

  method CreateChecksum(encoding: Encoding, hrp: string, values: seq<Symbol>) returns (ret: seq<Symbol>)
    ensures ret == Checksum(encoding, hrp, values)
  {
    var expanded := ExpandHRP(hrp);
    var enc := expanded + values + Zeros(6);
    var mod := PolyMod(enc);
    mod := Xor(mod, Constant(encoding));
    ret := [];
    for i := 0 to 6
      invariant ret == Digits(mod, 6)[..i]
    {
      DigitAt(mod, i);
      ret := ret + [Low(Group(mod, 5 - i))];
    }
  }

  /** The source asserts that the prefix has no upper-case letter. */
  method Encode(encoding: Encoding, hrp: string, values: seq<Symbol>) returns (ret: string)
    requires !HasUpper(hrp)
    ensures ret == Encoded(encoding, hrp, values)
  {
    var checksum := CreateChecksum(encoding, hrp, values);
    var combined := values + checksum;
    ret := hrp + "1";
    for i := 0 to |combined|
      invariant ret == hrp + "1" + Chars(combined[..i])
    {
      assert Chars(combined[..i + 1]) == Chars(combined[..i]) + [CharOf(combined[i])];
      ret := ret + [CharOf(combined[i])];
    }
    assert combined[..|combined|] == combined;
  }

  /** The first loop of Decode: printable characters only, and not both cases. */
  method CheckCase(str: string) returns (ok: bool)
    ensures ok <==> AllPrintable(str) && !(HasLower(str) && HasUpper(str))
  {
    hide IsPrintable;
    var lower, upper := false, false;
    for i := 0 to |str|
      invariant lower == HasLower(str[..i]) && upper == HasUpper(str[..i]) && AllPrintable(str[..i])
    {
      PrefixStep(str, i);
      var c := str[i];
      if 'a' <= c <= 'z' {
        lower := true;
      } else if 'A' <= c <= 'Z' {
        upper := true;
      } else if c as int < 33 || c as int > 126 {
        return false;
      }
    }
    assert str[..|str|] == str;
    return !(lower && upper);
  }

  /** The loop of Decode that turns the prefix to lower case. */
  method LowerAll(s: string) returns (r: string)
    ensures r == Lower(s)
  {
    hide LowerCase;
    r := "";
    for i := 0 to |s|
      invariant r == Lower(s[..i])
    {
      assert Lower(s[..i + 1]) == Lower(s[..i]) + [LowerCase(s[i])];
      r := r + [LowerCase(s[i])];
    }
    assert s[..|s|] == s;
  }

  method Decode(str: string) returns (r: Option<Decoded>)
    ensures r == DecodedOf(str)
  {
    hide LastOne;
    hide Symbols;
    hide Verified;
    hide Lower;
    hide HasLower;
    hide HasUpper;
    hide AllPrintable;
    var ok := CheckCase(str);
    if !ok {
      return None;
    }
    var pos := LastOne(str);
    if |str| > 90 || pos == -1 || pos == 0 || pos + 7 > |str| {
      return None;
    }
    var values := ReadSymbols(str[pos + 1..]);
    if values.None? {
      return None;
    }
    var hrp := LowerAll(str[..pos]);
    var result := VerifyChecksum(hrp, values.value);
    if result.None? {
      return None;
    }
    return Some(Decoded(result.value, hrp, values.value[..|values.value| - 6]));
  }

  lemma PrefixStep(s: string, i: nat)
    requires i < |s|
    ensures HasLower(s[..i + 1]) <==> HasLower(s[..i]) || IsLower(s[i])
    ensures HasUpper(s[..i + 1]) <==> HasUpper(s[..i]) || IsUpper(s[i])
    ensures AllPrintable(s[..i + 1]) <==> AllPrintable(s[..i]) && IsPrintable(s[i])
    ensures AllPrintable(s) ==> IsPrintable(s[i])
    ensures IsPrintable(s[i]) <==> 33 <= s[i] as int <= 126
  {
    var t := s[..i + 1];
    assert t[i] == s[i] && forall k :: 0 <= k < i ==> t[k] == s[..i][k];
  }

  method ReadSymbols(s: string) returns (values: Option<seq<Symbol>>)
    ensures values == Symbols(s)
  {
    hide SymbolOf;
    var got: seq<Symbol> := [];
    for i := 0 to |s|
      invariant Symbols(s[..i]) == Some(got)
    {
      assert s[..i + 1][..i] == s[..i];
      var rev := SymbolOf(s[i]);
      if rev.None? {
        SymbolsFail(s, i);
        return None;
      }
      got := got + [rev.value];
    }
    assert s[..|s|] == s;
    return Some(got);
  }

  lemma SymbolsFail(s: string, i: nat)
    requires i < |s| && SymbolOf(s[i]).None?
    ensures Symbols(s).None?
  {
    hide SymbolOf;
  }
}
