/** Unsigned integers of fixed width as arrays of 32-bit limbs, the lowest first, changed in place. */
module ArithUint {
  import opened Numbers

  const B := 0x1_0000_0000
  type Limb = x: int | 0 <= x < 0x1_0000_0000

  // ---------------------------------------------------------------------
  // The number that limbs stand for
  // ---------------------------------------------------------------------

  function Weight(i: nat): (p: nat)
    ensures p > 0
  {
    PowPositive(B, i);
    Pow(B, i)
  }

  function Value(s: seq<Limb>): (v: nat)
    ensures v < Weight(|s|)
  {
    if s == [] then 0 else
      TopLimb(Value(s[..|s| - 1]), s[|s| - 1], |s| - 1);
      Value(s[..|s| - 1]) + Times(s[|s| - 1], Weight(|s| - 1))
  }

  lemma WeightNext(i: nat)
    ensures Weight(i + 1) == Times(B, Weight(i))
  {
  }

  lemma WeightZero()
    ensures Weight(0) == 1
  {
  }

  lemma TopLimb(v: nat, x: Limb, i: nat)
    requires v < Weight(i)
    ensures 0 <= v + Times(x, Weight(i)) < Weight(i + 1)
  {
    var p := Weight(i);
    MulMonotone(x, B - 1, p);
    MulMonotone(0, x, p);
    assert (B - 1) * p + p == B * p;
    WeightNext(i);
  }

  lemma ValueNext(s: seq<Limb>, i: nat)
    requires i < |s|
    ensures Value(s[..i + 1]) == Value(s[..i]) + Times(s[i], Weight(i))
  {
    assert s[..i + 1][..i] == s[..i];
  }

  lemma {:induction false} ValueZero(s: seq<Limb>)
    requires forall i :: 0 <= i < |s| ==> s[i] == 0
    ensures Value(s) == 0
    decreases |s|
  {
    if s != [] {
      ValueZero(s[..|s| - 1]);
    }
  }

  /** A limb and the carry to the next one. */
  lemma CarryStep(x: nat, p: nat)
    ensures Times(x % B, p) + Times(x / B, Times(B, p)) == Times(x, p)
  {
    hide Times;
    var q, r := x / B, x % B;
    TimesLaws(r, Times(q, B), p);
    TimesLaws(q, B, p);
    assert Times(q, B) == q * B by { TimesIs(q, B); }
  }

  /** What is left over beyond the width is a multiple of the modulus. */
  lemma Truncated(v: nat, carry: nat, total: int, m: nat)
    requires v < m && v + Times(carry, m) == total
    ensures v == total % m
  {
    assert total >= 0 by { TimesPositive(carry, m); }
    RemainderIs(total, m, carry, v);
  }

  lemma AddStep(v: nat, carry: nat, va: nat, vb: nat, x: Limb, y: Limb, i: nat)
    requires v + Times(carry, Weight(i)) == va + vb
    ensures var n := carry + x + y;
      v + Times(n % B, Weight(i)) + Times(n / B, Weight(i + 1)) == va + Times(x, Weight(i)) + vb + Times(y, Weight(i))
  {
    hide Times;
    hide Weight;
    var p := Weight(i);
    WeightNext(i);
    CarryStep(carry + x + y, p);
    TimesLaws(carry + x, y, p);
    TimesLaws(carry, x, p);
  }

  lemma ScaleStep(v: nat, carry: nat, b: nat, va: nat, x: Limb, i: nat)
    requires v + Times(carry, Weight(i)) == Times(b, va)
    ensures var n := carry + Times(b, x);
      n >= 0 && v + Times(n % B, Weight(i)) + Times(n / B, Weight(i + 1)) == Times(b, va + Times(x, Weight(i)))
  {
    hide Times;
    hide Weight;
    var p := Weight(i);
    WeightNext(i);
    TimesPositive(b, x);
    CarryStep(carry + Times(b, x), p);
    TimesLaws(carry, Times(b, x), p);
    TimesLaws(b, x, p);
    TimesLaws(b, va, Times(x, p));
  }

  /** A limb product with two carries fits in 64 bits. */
  lemma ProductFits(c: nat, d: nat, x: Limb, y: Limb)
    requires c < B && d < B
    ensures 0 <= c + d + Times(x, y) < 0x1_0000_0000_0000_0000
  {
    MulMonotone(0, x, y);
    MulMonotone(x, B - 1, y);
  }

  class BaseUint {
    const pn: array<Limb>

    ghost function Val(): (v: nat)
      reads pn
      ensures v < Modulus()
    {
      Value(pn[..])
    }

    ghost function Modulus(): (m: nat)
      ensures m > 0
    {
      Weight(pn.Length)
    }

    constructor (b: seq<Limb>)
      ensures fresh(pn) && pn[..] == b
    {
      pn := new Limb[|b|](i requires 0 <= i < |b| => b[i]);
    }

    /** Replace limb `i` by `x`, leaving the lower ones. */
    method SetLimb(i: nat, x: Limb)
      requires i < pn.Length
      modifies pn
      ensures pn[..] == old(pn[..])[i := x]
      ensures Value(pn[..i]) == old(Value(pn[..i])) && Value(pn[..i + 1]) == old(Value(pn[..i])) + Times(x, Weight(i))
    {
      pn[i] := x;
      assert pn[..i] == old(pn[..i]);
      ValueNext(pn[..], i);
    }

    /** operator= */
    method Assign(b: seq<Limb>)
      requires |b| == pn.Length
      modifies pn
      ensures pn[..] == b
    {
      for i := 0 to pn.Length
        invariant pn[..i] == b[..i]
      {
        pn[i] := b[i];
      }
    }

    /** operator+= */
    method Add(b: seq<Limb>)
      requires |b| == pn.Length
      modifies pn
      ensures Val() == (old(Val()) + Value(b)) % Modulus()
    {
      hide Times;
      hide Weight;
      hide Value;
      ghost var a := pn[..];
      var carry := 0;
      EmptyValues(pn[..0], a[..0], b[..0]);
      TimesLaws(Weight(0), 0, 0);
      for i := 0 to pn.Length
        invariant 0 <= carry <= 1 && forall k :: i <= k < pn.Length ==> pn[k] == a[k]
        invariant Value(pn[..i]) + Times(carry, Weight(i)) == Value(a[..i]) + Value(b[..i])
      {
        var n := carry + pn[i] + b[i];
        AddStep(Value(pn[..i]), carry, Value(a[..i]), Value(b[..i]), a[i], b[i], i);
        ValueNext(a, i);
        ValueNext(b, i);
        SetLimb(i, n % B);
        carry := n / B;
      }
      assert a[..|a|] == a && b[..|b|] == b && pn[..pn.Length] == pn[..];
      Truncated(Value(pn[..]), carry, Value(a) + Value(b), Modulus());
    }

    /** operator*= with a 32-bit factor */
    method MulSmall(b32: Limb)
      modifies pn
      ensures Val() == Times(b32, old(Val())) % Modulus()
    {
      hide Times;
      hide Weight;
      hide Value;
      ghost var a := pn[..];
      var carry := 0;
      EmptyValues(pn[..0], a[..0], []);
      TimesLaws(Weight(0), 0, 0);
      TimesLaws(b32, 0, 0);
      for i := 0 to pn.Length
        invariant 0 <= carry < B && forall k :: i <= k < pn.Length ==> pn[k] == a[k]
        invariant Value(pn[..i]) + Times(carry, Weight(i)) == Times(b32, Value(a[..i]))
      {
        ProductFits(carry, 0, b32, pn[i]);
        var n := carry + Times(b32, pn[i]);
        ScaleStep(Value(pn[..i]), carry, b32, Value(a[..i]), a[i], i);
        ValueNext(a, i);
        SetLimb(i, n % B);
        carry := n / B;
      }
      assert a[..|a|] == a && pn[..pn.Length] == pn[..];
      Truncated(Value(pn[..]), carry, Times(b32, Value(a)), Modulus());
    }

    /** operator++ */
    method Increment()
      modifies pn
      ensures Val() == (old(Val()) + 1) % Modulus()
    {
      hide Times;
      hide Weight;
      hide Value;
      ghost var a := pn[..];
      var i := 0;
      var carrying := true;
      EmptyValues(pn[..0], a[..0], []);
      WeightZero();
      while i < pn.Length && carrying
        invariant i <= pn.Length && (!carrying ==> i < pn.Length)
        invariant forall k :: 0 <= k < pn.Length && (k > i || (carrying && k == i)) ==> pn[k] == a[k]
        invariant carrying ==> Value(pn[..i]) + Weight(i) == Value(a[..i]) + 1
        invariant !carrying ==> Value(pn[..i + 1]) == Value(a[..i + 1]) + 1
        decreases pn.Length - i, carrying
      {
        ValueNext(a, i);
        CarryOne(a[i], i);
        SetLimb(i, (pn[i] + 1) % B);
        if pn[i] == 0 {
          i := i + 1;
        } else {
          carrying := false;
        }
      }
      assert a[..|a|] == a && pn[..pn.Length] == pn[..];
      if carrying {
        TimesLaws(Modulus(), 0, 0);
        Truncated(Value(pn[..]), 1, Value(a) + 1, Modulus());
      } else {
        SameTop(pn[..], a, i + 1);
        TimesLaws(Modulus(), 0, 0);
        Truncated(Value(pn[..]), 0, Value(a) + 1, Modulus());
      }
    }

    /** operator-- */
    method Decrement()
      modifies pn
      ensures Val() == (old(Val()) - 1) % Modulus()
    {
      hide Times;
      hide Weight;
      hide Value;
      ghost var a := pn[..];
      var i := 0;
      var borrowing := true;
      EmptyValues(pn[..0], a[..0], []);
      WeightZero();
      while i < pn.Length && borrowing
        invariant i <= pn.Length && (!borrowing ==> i < pn.Length)
        invariant forall k :: 0 <= k < pn.Length && (k > i || (borrowing && k == i)) ==> pn[k] == a[k]
        invariant borrowing ==> Value(pn[..i]) + 1 == Value(a[..i]) + Weight(i)
        invariant !borrowing ==> Value(pn[..i + 1]) + 1 == Value(a[..i + 1])
        decreases pn.Length - i, borrowing
      {
        ValueNext(a, i);
        BorrowOne(a[i], i);
        SetLimb(i, (pn[i] - 1) % B);
        if pn[i] == B - 1 {
          i := i + 1;
        } else {
          borrowing := false;
        }
      }
      assert a[..|a|] == a && pn[..pn.Length] == pn[..];
      if borrowing {
        NegativeMod(Value(pn[..]), Value(a) - 1, Modulus());
      } else {
        SameTop(pn[..], a, i + 1);
        SmallMod(Value(pn[..]), Modulus());
      }
    }

    /** operator- on values: the complement plus one */
    method Negated() returns (r: BaseUint)
      ensures fresh(r) && fresh(r.pn) && r.pn.Length == pn.Length && r.Val() == (0 - Val()) % Modulus()
    {
      hide Times;
      hide Weight;
      hide Value;
      r := new BaseUint(pn[..]);
      EmptyValues(pn[..0], r.pn[..0], []);
      WeightZero();
      for i := 0 to pn.Length
        invariant forall k :: i <= k < pn.Length ==> r.pn[k] == pn[k]
        invariant Value(r.pn[..i]) + Value(pn[..i]) + 1 == Weight(i)
      {
        ValueNext(pn[..], i);
        ComplementLimb(pn[i], i);
        r.SetLimb(i, B - 1 - pn[i]);
      }
      assert r.pn[..pn.Length] == r.pn[..] && pn[..pn.Length] == pn[..];
      r.Increment();
      NegatedMod(Modulus(), Val());
    }

    /** operator-= */
    method Subtract(b: BaseUint)
      requires b.pn.Length == pn.Length
      modifies pn
      ensures Val() == (old(Val()) - old(b.Val())) % Modulus()
    {
      hide Value;
      var negated := b.Negated();
      ghost var x, y := Val(), b.Val();
      Add(negated.pn[..]);
      SubtractMod(x, y, Modulus());
    }

    /** -1, 0 or 1 */
    method CompareTo(b: BaseUint) returns (r: int)
      requires b.pn.Length == pn.Length
      ensures r == if Val() < b.Val() then -1 else if Val() > b.Val() then 1 else 0
    {
      hide Value;
      var i := pn.Length;
      while i > 0
        invariant 0 <= i <= pn.Length && forall k :: i <= k < pn.Length ==> pn[k] == b.pn[k]
      {
        i := i - 1;
        if pn[i] < b.pn[i] {
          TopDecides(pn[..], b.pn[..], i);
          return -1;
        }
        if pn[i] > b.pn[i] {
          TopDecides(b.pn[..], pn[..], i);
          return 1;
        }
      }
      assert pn[..] == b.pn[..];
      return 0;
    }

    /** The inner loop of the long multiplication: add `x` times `b`, shifted by `j` limbs. */
    method AddProduct(x: Limb, b: seq<Limb>, j: nat) returns (carry: nat)
      requires |b| == pn.Length && j < pn.Length
      modifies pn
      ensures Val() + Times(carry, Modulus()) == old(Val()) + Times(x, Times(Weight(j), Value(b[..pn.Length - j])))
    {
      hide Times;
      hide Weight;
      hide Value;
      ghost var a := pn[..];
      carry := 0;
      EmptyValues(b[..0], [], []);
      TimesLaws(Weight(j), 0, 0);
      TimesLaws(x, 0, 0);
      for i := 0 to pn.Length - j
        invariant 0 <= carry < B
        invariant forall k :: i + j <= k < pn.Length ==> pn[k] == a[k]
        invariant Value(pn[..i + j]) + Times(carry, Weight(i + j))
          == Value(a[..i + j]) + Times(x, Times(Weight(j), Value(b[..i])))
      {
        ProductFits(carry, pn[i + j], x, b[i]);
        var n := carry + pn[i + j] + Times(x, b[i]);
        MulStep(Value(pn[..i + j]), carry, Value(a[..i + j]), x, Value(b[..i]), a[i + j], b[i], j, i);
        ValueNext(a, i + j);
        ValueNext(b, i);
        SetLimb(i + j, n % B);
        carry := n / B;
      }
      assert a[..|a|] == a && pn[..pn.Length] == pn[..];
    }

    /** operator*= */
    method Multiply(b: seq<Limb>)
      requires |b| == pn.Length
      modifies pn
      ensures Val() == Times(old(Val()), Value(b)) % Modulus()
    {
      hide Times;
      hide Value;
      var n := pn.Length;
      var a := new BaseUint(seq(n, _ => 0));
      ValueZero(a.pn[..]);
      EmptyValues(pn[..0], [], []);
      TimesLaws(Value(b), 0, 0);
      TimesLaws(Modulus(), 0, 0);
      ghost var q: nat := 0;
      for j := 0 to n
        invariant fresh(a.pn) && a.pn.Length == n && pn[..] == old(pn[..])
        invariant a.Val() + Times(q, Modulus()) == Times(Value(pn[..j]), Value(b))
      {
        ghost var before := a.Val();
        var carry := a.AddProduct(pn[j], b, j);
        ValueNext(pn[..], j);
        q := RowStep(a.Val(), before, q, carry, Value(pn[..j]), pn[j], b, j);
      }
      assert pn[..n] == pn[..];
      Truncated(a.Val(), q, Times(Val(), Value(b)), Modulus());
      Assign(a.pn[..]);
    }

    method Clear()
      modifies pn
      ensures forall k :: 0 <= k < pn.Length ==> pn[k] == 0
    {
      for i := 0 to pn.Length
        invariant forall k :: 0 <= k < i ==> pn[k] == 0
      {
        pn[i] := 0;
      }
    }

    /** One limb `x` of a left shift by `r` bits goes to limb `m`, which holds `pend`, and limb `m + 1`. */
    method ShlLimb(x: Limb, m: nat, r: nat, ghost pend: nat)
      requires m < pn.Length && r < 32 && pn[m] == pend < Two(r) && (m + 1 < pn.Length ==> pn[m + 1] == 0)
      modifies pn
      ensures Value(pn[..m + 1]) == old(Value(pn[..m])) + Times(LowBits(x, r) + pend, Weight(m))
      ensures m + 1 < pn.Length ==> pn[m + 1] == HighBits(x, r)
      ensures forall k :: m + 1 < k < pn.Length ==> pn[k] == old(pn[k])
    {
      hide Times;
      hide Weight;
      hide Value;
      hide Two;
      hide LowBits;
      hide HighBits;
      hide Or;
      LimbShift(x, r);
      OrFits(LowBits(x, r), pend, r);
      OrZero(HighBits(x, r));
      if r == 0 {
        NoHighBits(x);
      }
      if m + 1 < pn.Length && r != 0 {
        pn[m + 1] := Or(pn[m + 1], HighBits(x, r));
        assert pn[..m] == old(pn[..m]);
      }
      SetLimb(m, Or(pn[m], LowBits(x, r)));
    }

    /** What holds after `i` limbs of `a` are shifted left by `k` limbs and `r` bits. */
    ghost predicate Shifted(a: seq<Limb>, i: nat, r: nat, k: nat, q: nat)
      requires i <= |a| && r < 32
      reads pn
    {
      if i + k < pn.Length then
        && pn[i + k] == Pending(a, i, r)
        && (forall m :: i + k < m < pn.Length ==> pn[m] == 0)
        && Value(pn[..i + k]) + Times(Pending(a, i, r), Weight(i + k)) == Times(Value(a[..i]), Scale(r, k))
      else
        Value(pn[..]) + Times(q, Modulus()) == Times(Value(a[..i]), Scale(r, k))
    }

    lemma ShiftedStart(a: seq<Limb>, r: nat, k: nat)
      requires r < 32 && forall m :: 0 <= m < pn.Length ==> pn[m] == 0
      ensures Shifted(a, 0, r, k, 0)
    {
      hide Times;
      hide Weight;
      EmptyValues(a[..0], [], []);
      TimesLaws(Scale(r, k), 0, 0);
      TimesLaws(Modulus(), 0, 0);
      if k < pn.Length {
        ValueZero(pn[..k]);
        TimesLaws(Weight(k), 0, 0);
      } else {
        ValueZero(pn[..]);
      }
    }

    method ShlNext(a: seq<Limb>, i: nat, r: nat, k: nat, ghost q: nat) returns (ghost q': nat)
      requires i < |a| == pn.Length && r < 32 && Shifted(a, i, r, k, q)
      modifies pn
      ensures Shifted(a, i + 1, r, k, q')
    {
      hide Times;
      hide Weight;
      hide Value;
      hide Two;
      hide LowBits;
      hide HighBits;
      hide Scale;
      ValueNext(a, i);
      if i + k < pn.Length {
        ghost var v := Value(pn[..i + k]);
        PendingBelow(a, i, r);
        ShlStep(v, Pending(a, i, r), Value(a[..i]), a[i], r, k, i);
        ShlLimb(a[i], i + k, r, Pending(a, i, r));
        q' := HighBits(a[i], r);
        assert i + k + 1 == pn.Length ==> pn[..i + k + 1] == pn[..];
      } else {
        q' := ShlBeyond(Value(pn[..]), q, Value(a[..i]), a[i], r, k, i, pn.Length);
      }
    }

    /** operator<<= */
    method ShiftLeft(shift: nat)
      modifies pn
      ensures Val() == Times(old(Val()), Two(shift)) % Modulus()
    {
      hide Times;
      hide Weight;
      hide Value;
      hide Two;
      hide Scale;
      hide Pending;
      var a, n := pn[..], pn.Length;
      Clear();
      var k, r := shift / 32, shift % 32;
      ScaleIs(shift);
      ghost var q: nat := 0;
      ShiftedStart(a, r, k);
      for i := 0 to n
        invariant Shifted(a, i, r, k, q)
      {
        q := ShlNext(a, i, r, k, q);
      }
      assert a[..n] == a;
      Truncated(Value(pn[..]), q, Times(Value(a), Two(shift)), Modulus());
    }

    /** One limb `x` of a right shift by `r` bits goes to limbs `m` and `m + 1`. */
    method ShrLimb(x: Limb, m: nat, r: nat)
      requires m + 1 < pn.Length && r < 32 && pn[m] < Two(32 - r) && pn[m + 1] == 0
      modifies pn
      ensures Value(pn[..m + 2])
        == old(Value(pn[..m + 1])) + Times(LowBits(x, 32 - r), Weight(m)) + Times(HighBits(x, 32 - r), Weight(m + 1))
      ensures pn[m + 1] == HighBits(x, 32 - r) && forall k :: m + 1 < k < pn.Length ==> pn[k] == old(pn[k])
    {
      hide Times;
      hide Weight;
      hide Value;
      hide Two;
      hide LowBits;
      hide HighBits;
      hide Or;
      LimbShift(x, 32 - r);
      OrFits(LowBits(x, 32 - r), pn[m], 32 - r);
      OrZero(HighBits(x, 32 - r));
      ValueNext(pn[..], m);
      TimesLaws(LowBits(x, 32 - r), pn[m], Weight(m));
      if r != 0 {
        SetLimb(m, Or(pn[m], LowBits(x, 32 - r)));
      } else {
        NoLowBits(x);
        TimesLaws(Weight(m), 0, 0);
      }
      SetLimb(m + 1, Or(pn[m + 1], HighBits(x, 32 - r)));
    }

    /** What holds after `i` limbs of `a` are shifted right by `k` limbs and `r` bits. */
    ghost predicate ShiftedDown(a: seq<Limb>, i: nat, r: nat, k: nat)
      requires i <= |a| == pn.Length && r < 32
      reads pn
    {
      && (forall m :: 0 <= m < pn.Length && m >= i - k ==> pn[m] == 0)
      && (i > k ==> pn[i - k - 1] == HighBits(a[i - 1], 32 - r) && Value(pn[..i - k]) == Value(a[..i]) / Scale(r, k))
    }

    method ShrNext(a: seq<Limb>, i: nat, r: nat, k: nat)
      requires i < |a| == pn.Length && r < 32 && ShiftedDown(a, i, r, k)
      modifies pn
      ensures ShiftedDown(a, i + 1, r, k)
    {
      hide Times;
      hide Weight;
      hide Value;
      hide Two;
      hide LowBits;
      hide HighBits;
      hide Scale;
      hide Or;
      ValueNext(a, i);
      if i > k {
        ShrStep(Value(a[..i]), a[i], r, k, i);
        LimbShift(a[i - 1], 32 - r);
        ShrLimb(a[i], i - k - 1, r);
      } else if i == k {
        ShrFirst(Value(a[..i]), a[i], r, k);
        OrZero(HighBits(a[i], 32 - r));
        LimbShift(a[i], 32 - r);
        EmptyValues(pn[..0], [], []);
        SetLimb(0, Or(pn[0], HighBits(a[i], 32 - r)));
        WeightZero();
        TimesLaws(HighBits(a[i], 32 - r), 1, 0);
        TimesLaws(1, HighBits(a[i], 32 - r), 0);
      }
    }

    /** operator>>= */
    method ShiftRight(shift: nat)
      modifies pn
      ensures Val() == old(Val()) / Two(shift)
    {
      hide Times;
      hide Weight;
      hide Value;
      hide Two;
      hide Scale;
      hide HighBits;
      var a, n := pn[..], pn.Length;
      Clear();
      var k, r := shift / 32, shift % 32;
      ScaleIs(shift);
      for i := 0 to n
        invariant ShiftedDown(a, i, r, k)
      {
        ShrNext(a, i, r, k);
      }
      assert a[..n] == a;
      if n > k {
        ZeroTop(pn[..], n - k);
      } else {
        ValueZero(pn[..]);
        AllShiftedOut(Value(a), n, r, k);
      }
    }

    /** The position of the highest bit set plus one, or zero. */
    method Bits() returns (bits: nat)
      ensures HasBits(Val(), bits) && bits <= 32 * pn.Length
    {
      hide Two;
      hide Value;
      var pos := pn.Length;
      while pos > 0
        invariant 0 <= pos <= pn.Length && forall k :: pos <= k < pn.Length ==> pn[k] == 0
      {
        pos := pos - 1;
        if pn[pos] != 0 {
          var nbits := 31;
          TwoWord();
          while nbits > 0
            invariant 0 <= nbits <= 31 && pn[pos] < Two(nbits + 1)
          {
            BitTest(pn[pos], nbits);
            if pn[pos] / Two(nbits) % 2 == 1 {
              HighestBit(pn[..], pos, nbits);
              return 32 * pos + nbits + 1;
            }
            nbits := nbits - 1;
          }
          HighestBit(pn[..], pos, 0);
          return 32 * pos + 1;
        }
      }
      ValueZero(pn[..]);
      TwoWord();
      return 0;
    }

    /** Set a bit below which, itself included, everything is clear. */
    method SetBit(shift: nat)
      requires shift < 32 * pn.Length && BitsClear(pn[..], shift + 1)
      modifies pn
      ensures Val() == old(Val()) + Two(shift) && BitsClear(pn[..], shift)
    {
      hide Times;
      hide Weight;
      hide Value;
      hide Two;
      hide Or;
      var k, r := shift / 32, shift % 32;
      ghost var s := pn[..];
      ClearLimb(s, shift);
      TwoDouble(r);
      OrFits(pn[k], Two(r), r + 1);
      pn[k] := Or(pn[k], Two(r));
      assert pn[..] == s[k := s[k] + Two(r)];
      LimbPlus(s, k, s[k] + Two(r));
      ScaleIs(shift);
      ClearAfter(s, shift);
    }

    /** What one round of the division keeps: `n` is the number divided and `d` the divisor. */
    ghost predicate Dividing(num: BaseUint, div: BaseUint, shift: int, n: nat, d: nat)
      reads pn, num.pn, div.pn
    {
      && -1 <= shift < 32 * pn.Length && num.pn.Length == div.pn.Length == pn.Length
      && pn != num.pn && pn != div.pn && num.pn != div.pn
      && (shift >= 0 ==> div.Val() == Times(d, Two(shift)))
      && num.Val() < Times(d, Two(shift + 1)) && Times(Val(), d) + num.Val() == n
      && BitsClear(pn[..], shift + 1)
    }

    /** One round: a bit of the quotient, and the divisor one place down. */
    method DivideStep(num: BaseUint, div: BaseUint, shift: nat, ghost n: nat, ghost d: nat)
      requires Dividing(num, div, shift, n, d)
      modifies pn, num.pn, div.pn
      ensures Dividing(num, div, shift - 1, n, d)
    {
      hide Times;
      hide Value;
      hide Two;
      hide BitsClear;
      DoubleStep(d, shift);
      var order := num.CompareTo(div);
      if order >= 0 {
        ghost var x, y := num.Val(), div.Val();
        num.Subtract(div);
        SmallMod(x - y, Modulus());
        TimesLaws(Val(), Two(shift), d);
        TimesLaws(Two(shift), d, 0);
        SetBit(shift);
      } else {
        ClearLess(pn[..], shift);
      }
      div.ShiftRight(1);
      HalveStep(d, shift);
    }

    /** operator/=: shift and subtract. False when dividing by zero, where the source throws. */
    method Divide(b: BaseUint) returns (ok: bool)
      requires b.pn.Length == pn.Length
      modifies pn
      ensures ok <==> old(b.Val()) != 0
      ensures Val() == if ok then old(Val()) / old(b.Val()) else 0
    {
      hide Times;
      hide Value;
      hide Two;
      hide BitsClear;
      ghost var n, d := Val(), b.Val();
      var div := new BaseUint(b.pn[..]);
      var num := new BaseUint(pn[..]);
      Clear();
      ValueZero(pn[..]);
      var numBits := num.Bits();
      var divBits := div.Bits();
      if divBits == 0 {
        TwoWord();
        return false;
      }
      if divBits > numBits {
        QuotientZero(n, d, numBits, divBits);
        return true;
      }
      var shift: int := numBits - divBits;
      Aligned(n, d, numBits, divBits, pn.Length);
      div.ShiftLeft(shift);
      SmallMod(Times(d, Two(shift)), Modulus());
      AllClear(pn[..], shift + 1);
      TimesLaws(d, 0, 0);
      while shift >= 0
        invariant fresh(num.pn) && fresh(div.pn) && Dividing(num, div, shift, n, d)
      {
        DivideStep(num, div, shift, n, d);
        shift := shift - 1;
      }
      TwoWord();
      TimesLaws(1, d, 0);
      TimesLaws(d, 1, 0);
      RemainderIs(n, d, Val(), num.Val());
      return true;
    }
  }

  lemma EmptyValues(x: seq<Limb>, y: seq<Limb>, z: seq<Limb>)
    requires x == y == z == []
    ensures Value(x) == Value(y) == Value(z) == 0
  {
  }

  lemma CarryOne(x: Limb, i: nat)
    ensures if (x + 1) % B == 0 then Times(x, Weight(i)) + Weight(i) == Weight(i + 1) && Times(0, Weight(i)) == 0
            else Times((x + 1) % B, Weight(i)) == Times(x, Weight(i)) + Weight(i)
  {
    TimesLaws(x, 1, Weight(i));
    WeightNext(i);
  }

  lemma BorrowOne(x: Limb, i: nat)
    ensures if (x - 1) % B == B - 1
      then Times(B - 1, Weight(i)) + Weight(i) == Weight(i + 1) && Times(x, Weight(i)) == 0
            else Times((x - 1) % B, Weight(i)) + Weight(i) == Times(x, Weight(i))
  {
    TimesLaws(x - 1, 1, Weight(i));
    TimesLaws(B - 1, 1, Weight(i));
    WeightNext(i);
  }

  lemma ComplementLimb(x: Limb, i: nat)
    ensures Times(B - 1 - x, Weight(i)) + Times(x, Weight(i)) + Weight(i) == Weight(i + 1)
  {
    TimesLaws(B - 1 - x, x, Weight(i));
    TimesLaws(B - 1, 1, Weight(i));
    WeightNext(i);
  }

  /** Equal limbs from `i` on. */
  lemma {:induction false} SameTop(s: seq<Limb>, t: seq<Limb>, i: nat)
    requires |s| == |t| && i <= |s| && forall k :: i <= k < |s| ==> s[k] == t[k]
    ensures Value(s) - Value(s[..i]) == Value(t) - Value(t[..i])
    decreases |s|
  {
    if i == |s| {
      assert s[..i] == s && t[..i] == t;
    } else {
      var s', t' := s[..|s| - 1], t[..|t| - 1];
      SameTop(s', t', i);
      assert s'[..i] == s[..i] && t'[..i] == t[..i];
    }
  }

  lemma TopDecides(s: seq<Limb>, t: seq<Limb>, i: nat)
    requires |s| == |t| && i < |s| && s[i] < t[i] && forall k :: i < k < |s| ==> s[k] == t[k]
    ensures Value(s) < Value(t)
  {
    hide Times;
    hide Weight;
    hide Value;
    SameTop(s, t, i + 1);
    ValueNext(s, i);
    ValueNext(t, i);
    TimesGap(s[i], t[i], Weight(i));
  }

  lemma NegativeMod(v: nat, x: int, m: nat)
    requires 0 < m && v < m && v == x + m
    ensures v == x % m
  {
  }

  lemma SmallMod(v: nat, m: nat)
    requires v < m
    ensures v == v % m
  {
  }

  lemma NegatedMod(m: nat, v: nat)
    requires v < m
    ensures (m - 1 - v + 1) % m == (0 - v) % m
  {
    if v == 0 {
      TimesLaws(m, 0, 0);
      RemainderIs(m, m, 1, 0);
    } else {
      NegativeMod(m - v, 0 - v, m);
    }
  }

  lemma SubtractMod(x: nat, y: nat, m: nat)
    requires x < m && y < m
    ensures (x + (0 - y) % m) % m == (x - y) % m
  {
    if y == 0 {
      SmallMod(0, m);
    } else {
      NegativeMod(m - y, 0 - y, m);
      if x >= y {
        RemainderIs(x + m - y, m, 1, x - y);
        SmallMod(x - y, m);
      } else {
        NegativeMod(x + m - y, x - y, m);
        SmallMod(x + m - y, m);
      }
    }
  }

  lemma WeightAdd(i: nat, j: nat)
    ensures Weight(i + j) == Times(Weight(i), Weight(j))
  {
    PowAdd(B, i, j);
  }

  lemma MulStep(v: nat, carry: nat, va: nat, x: Limb, vb: nat, d: Limb, y: Limb, j: nat, i: nat)
    requires v + Times(carry, Weight(i + j)) == va + Times(x, Times(Weight(j), vb))
    ensures var n := carry + d + Times(x, y);
      && n >= 0
      && v + Times(n % B, Weight(i + j)) + Times(n / B, Weight(i + j + 1))
         == va + Times(d, Weight(i + j)) + Times(x, Times(Weight(j), vb + Times(y, Weight(i))))
  {
    hide Times;
    hide Weight;
    var p := Weight(i + j);
    WeightNext(i + j);
    WeightAdd(i, j);
    TimesPositive(x, y);
    CarryStep(carry + d + Times(x, y), p);
    TimesLaws(carry + d, Times(x, y), p);
    TimesLaws(carry, d, p);
    // x * y * p == x * (Weight(j) * (y * Weight(i)))
    TimesLaws(x, y, p);
    TimesLaws(y, Weight(i), Weight(j));
    TimesLaws(Weight(j), Times(y, Weight(i)), 0);
    TimesLaws(Weight(j), vb, Times(y, Weight(i)));
    TimesLaws(x, Times(Weight(j), vb), Times(Weight(j), Times(y, Weight(i))));
  }

  lemma {:induction false} ValueSplit(s: seq<Limb>, k: nat)
    requires k <= |s|
    ensures Value(s) == Value(s[..k]) + Times(Value(s[k..]), Weight(k))
    decreases |s|
  {
    hide Times;
    hide Weight;
    if k == |s| {
      assert s[..k] == s && s[k..] == [];
      TimesLaws(Weight(k), 0, 0);
    } else {
      var n := |s| - 1;
      var front := s[..n];
      ValueSplit(front, k);
      assert front[..k] == s[..k] && s[k..][..n - k] == front[k..];
      WeightAdd(n - k, k);
      TimesLaws(s[n], Weight(n - k), Weight(k));
      TimesLaws(Value(front[k..]), Times(s[n], Weight(n - k)), Weight(k));
    }
  }

  /** One row of the long multiplication; what falls beyond the width is collected in `q`. */
  lemma RowStep(v: nat, before: nat, q: nat, carry: nat, vp: nat, x: Limb, b: seq<Limb>, j: nat) returns (q': nat)
    requires j < |b|
    requires before + Times(q, Weight(|b|)) == Times(vp, Value(b))
    requires v + Times(carry, Weight(|b|)) == before + Times(x, Times(Weight(j), Value(b[..|b| - j])))
    ensures v + Times(q', Weight(|b|)) == Times(vp + Times(x, Weight(j)), Value(b))
  {
    hide Times;
    hide Weight;
    hide Value;
    var n, m := |b|, Weight(|b|);
    var low, high := Value(b[..n - j]), Value(b[n - j..]);
    ValueSplit(b, n - j);
    WeightAdd(n - j, j);
    TimesPositive(x, high);
    q' := q + carry + Times(x, high);
    // Weight(j) * Value(b) == Weight(j) * low + high * m
    TimesLaws(Weight(j), low, Times(high, Weight(n - j)));
    TimesLaws(high, Weight(n - j), Weight(j));
    TimesLaws(Weight(j), Times(high, Weight(n - j)), 0);
    TimesLaws(x, Times(Weight(j), low), Times(high, m));
    TimesLaws(x, high, m);
    TimesLaws(vp, Times(x, Weight(j)), Value(b));
    TimesLaws(x, Weight(j), Value(b));
    TimesLaws(q + carry, Times(x, high), m);
    TimesLaws(q, carry, m);
  }

  // ---------------------------------------------------------------------
  // Shifts
  // ---------------------------------------------------------------------

  lemma TwoAdd(m: nat, n: nat)
    ensures Two(m + n) == Times(Two(m), Two(n))
  {
    PowAdd(2, m, n);
  }

  lemma TwoWord()
    ensures Two(0) == 1 && Two(1) == 2 && Two(8) == 256 && Two(32) == B
  {
    Pow2Word();
  }

  lemma {:induction false} WeightTwo(k: nat)
    ensures Weight(k) == Two(32 * k)
  {
    Pow2Word();
    PowMul(2, 32, k);
  }

  /** Two to the power of `r + 32 * k`. */
  function Scale(r: nat, k: nat): (d: nat)
    ensures d > 0
  {
    MulPositive(Two(r), Weight(k));
    Times(Two(r), Weight(k))
  }

  lemma ScaleIs(shift: nat)
    ensures Scale(shift % 32, shift / 32) == Two(shift)
  {
    WeightTwo(shift / 32);
    TwoAdd(shift % 32, 32 * (shift / 32));
  }

  /** The bits of a limb that stay, and those that move to the next limb, in a shift by `r`. */
  function LowBits(x: Limb, r: nat): nat
    requires r <= 32
  {
    TimesPositive(x, Two(r));
    Times(x, Two(r)) % B
  }

  function HighBits(x: Limb, r: nat): nat
    requires r <= 32
  {
    x / Two(32 - r)
  }

  lemma SplitShift(x: nat, t: nat, u: nat, b: nat)
    requires t > 0 && u > 0 && Times(t, u) == b && x < b
    ensures Times(x, t) == Times(x / u, b) + Times(x % u, t) && x / u < t && 0 <= Times(x % u, t) < b
  {
    hide Times;
    var h, l := x / u, x % u;
    QuotientTimes(x, u);
    QuotientTimesBelow(x, t, u);
    TimesLaws(Times(h, u), l, t);
    TimesLaws(h, u, t);
    TimesLaws(u, t, 0);
    TimesGap(l, u, t);
    TimesPositive(l, t);
  }

  lemma LimbShift(x: Limb, r: nat)
    requires r <= 32
    ensures LowBits(x, r) + Times(HighBits(x, r), B) == Times(x, Two(r))
    ensures HighBits(x, r) < Two(r) <= B && LowBits(x, r) < B && LowBits(x, r) % Two(r) == 0
  {
    hide Times;
    hide Two;
    var t, u := Two(r), Two(32 - r);
    TwoAdd(r, 32 - r);
    TwoWord();
    SplitShift(x, t, u, B);
    var h, l := x / u, Times(x % u, t);
    TimesPositive(x, t);
    RemainderIs(Times(x, t), B, h, l);
    RemainderIs(l, t, x % u, 0);
    TwoBelow(r);
  }

  lemma TwoBelow(r: nat)
    requires r <= 32
    ensures Two(r) <= B
  {
    PowMonotone(2, r, 32);
    Pow2Word();
  }

  lemma NoHighBits(x: Limb)
    ensures HighBits(x, 0) == 0
  {
    LimbShift(x, 0);
    TwoWord();
  }

  /** Bitwise or. */
  function Or(x: nat, y: nat): nat {
    if x == 0 && y == 0 then 0 else 2 * Or(x / 2, y / 2) + if x % 2 == 1 || y % 2 == 1 then 1 else 0
  }

  lemma {:induction false} OrZero(x: nat)
    ensures Or(0, x) == x && Or(x, 0) == x
  {
    if x != 0 {
      OrZero(x / 2);
    }
  }

  /** Bits that do not overlap add up. */
  lemma {:induction false} OrAdds(x: nat, y: nat, r: nat)
    requires x % Two(r) == 0 && y < Two(r)
    ensures Or(x, y) == x + y && Or(y, x) == x + y
    decreases r
  {
    if r == 0 {
      assert y == 0 by { TwoWord(); }
      OrZero(x);
    } else if x != 0 || y != 0 {
      HalfMultiple(x, r);
      HalfBelow(y, r);
      OrAdds(x / 2, y / 2, r - 1);
    }
  }

  lemma HalfMultiple(x: nat, r: nat)
    requires r > 0 && x % Two(r) == 0
    ensures x % 2 == 0 && x / 2 % Two(r - 1) == 0
  {
    hide Times;
    hide Two;
    var t, q := Two(r - 1), x / Two(r);
    TwoDouble(r - 1);
    QuotientTimes(x, Two(r));
    TimesLaws(q, 2, t);
    TimesLaws(2, q, t);
    TimesLaws(Times(q, t), 2, 0);
    TimesPositive(q, t);
    RemainderIs(x, 2, Times(q, t), 0);
    RemainderIs(Times(q, t), t, q, 0);
  }

  lemma TwoDouble(r: nat)
    ensures Two(r + 1) == Times(2, Two(r)) == 2 * Two(r)
  {
  }

  lemma HalfBelow(y: nat, r: nat)
    requires r > 0 && y < Two(r)
    ensures y / 2 < Two(r - 1)
  {
    Pow2Next(r - 1);
  }

  lemma MultipleGap(x: nat, t: nat, u: nat)
    requires t > 0 && x % t == 0 && x < Times(t, u)
    ensures x + t <= Times(t, u)
  {
    hide Times;
    var q := x / t;
    QuotientTimes(x, t);
    TimesLaws(u, t, 0);
    QuotientTimesBelow(x, u, t);
    TimesGap(q, u, t);
  }

  lemma OrFits(x: nat, y: nat, r: nat)
    requires r <= 32 && x < B && x % Two(r) == 0 && y < Two(r)
    ensures Or(x, y) == Or(y, x) == x + y < B
  {
    hide Times;
    hide Two;
    OrAdds(x, y, r);
    TwoAdd(r, 32 - r);
    TwoWord();
    MultipleGap(x, Two(r), Two(32 - r));
  }

  /** What limb `i - 1` has sent to the next limb. */
  function Pending(a: seq<Limb>, i: nat, r: nat): nat
    requires i <= |a| && r <= 32
  {
    if i == 0 then 0 else HighBits(a[i - 1], r)
  }

  lemma PendingBelow(a: seq<Limb>, i: nat, r: nat)
    requires i <= |a| && r <= 32
    ensures Pending(a, i, r) < Two(r)
  {
    if i > 0 {
      LimbShift(a[i - 1], r);
    }
  }

  lemma ShiftedLimb(x: Limb, r: nat, k: nat, i: nat)
    requires r <= 32
    ensures Times(LowBits(x, r), Weight(i + k)) + Times(HighBits(x, r), Weight(i + k + 1))
      == Times(Times(x, Weight(i)), Scale(r, k))
  {
    hide Times;
    hide Weight;
    hide Two;
    hide LowBits;
    hide HighBits;
    var p := Weight(i + k);
    LimbShift(x, r);
    WeightNext(i + k);
    WeightAdd(i, k);
    var low, high := LowBits(x, r), HighBits(x, r);
    TimesLaws(high, B, p);
    TimesLaws(low, Times(high, B), p);
    // (x * 2^r) * (Weight(i) * Weight(k)) == (x * Weight(i)) * (2^r * Weight(k))
    TimesLaws(x, Two(r), p);
    TimesLaws(x, Weight(i), Times(Two(r), Weight(k)));
    TimesLaws(Weight(i), Two(r), Weight(k));
    TimesLaws(Two(r), Weight(i), Weight(k));
  }

  lemma ShlStep(v: nat, pend: nat, va: nat, x: Limb, r: nat, k: nat, i: nat)
    requires r <= 32 && v + Times(pend, Weight(i + k)) == Times(va, Scale(r, k))
    ensures v + Times(LowBits(x, r) + pend, Weight(i + k)) + Times(HighBits(x, r), Weight(i + k + 1))
         == Times(va + Times(x, Weight(i)), Scale(r, k))
  {
    hide Times;
    hide Weight;
    hide LowBits;
    hide HighBits;
    hide Scale;
    ShiftedLimb(x, r, k, i);
    TimesLaws(LowBits(x, r), pend, Weight(i + k));
    TimesLaws(va, Times(x, Weight(i)), Scale(r, k));
  }

  lemma ShlBeyond(v: nat, q: nat, va: nat, x: Limb, r: nat, k: nat, i: nat, n: nat) returns (q': nat)
    requires i + k >= n && v + Times(q, Weight(n)) == Times(va, Scale(r, k))
    ensures v + Times(q', Weight(n)) == Times(va + Times(x, Weight(i)), Scale(r, k))
  {
    hide Times;
    hide Weight;
    hide Two;
    var more := Times(Times(x, Two(r)), Weight(i + k - n));
    TimesPositive(x, Two(r));
    TimesPositive(Times(x, Two(r)), Weight(i + k - n));
    q' := q + more;
    WeightAdd(i + k - n, n);
    WeightAdd(i, k);
    TimesLaws(q, more, Weight(n));
    TimesLaws(Times(x, Two(r)), Weight(i + k - n), Weight(n));
    TimesLaws(x, Two(r), Weight(i + k));
    TimesLaws(x, Weight(i), Times(Two(r), Weight(k)));
    TimesLaws(Weight(i), Two(r), Weight(k));
    TimesLaws(Two(r), Weight(i), Weight(k));
    TimesLaws(va, Times(x, Weight(i)), Scale(r, k));
  }

  lemma NoLowBits(x: Limb)
    ensures LowBits(x, 32) == 0
  {
    TwoWord();
    RemainderIs(Times(x, B), B, x, 0);
  }

  lemma {:induction false} ZeroTop(s: seq<Limb>, n: nat)
    requires n <= |s| && forall k :: n <= k < |s| ==> s[k] == 0
    ensures Value(s) == Value(s[..n])
  {
    ValueSplit(s, n);
    ValueZero(s[n..]);
  }

  lemma QuotientAdd(v: nat, m: nat, d: nat)
    requires d > 0
    ensures 0 <= v + Times(m, d) && (v + Times(m, d)) / d == v / d + m
  {
    hide Times;
    TimesPositive(m, d);
    QuotientTimes(v, d);
    TimesLaws(v / d, m, d);
    RemainderIs(v + Times(m, d), d, v / d + m, v % d);
  }

  lemma ShrFirst(va: nat, x: Limb, r: nat, k: nat)
    requires r < 32 && va < Weight(k)
    ensures 0 <= va + Times(x, Weight(k)) && (va + Times(x, Weight(k))) / Scale(r, k) == HighBits(x, 32 - r)
  {
    hide Times;
    hide Weight;
    hide Two;
    var t, w := Two(r), Weight(k);
    var q, l := x / t, x % t;
    QuotientTimes(x, t);
    TimesLaws(Times(q, t), l, w);
    TimesLaws(q, t, w);
    TimesGap(l, t, w);
    TimesPositive(l, w);
    TimesPositive(x, w);
    RemainderIs(va + Times(x, w), Scale(r, k), q, Times(l, w) + va);
  }

  /** Above the cut, a limb adds a whole multiple of the divisor. */
  lemma ShrStep(va: nat, x: Limb, r: nat, k: nat, i: nat)
    requires r < 32 && i > k
    ensures 0 <= va + Times(x, Weight(i))
    ensures (va + Times(x, Weight(i))) / Scale(r, k)
         == va / Scale(r, k) + Times(LowBits(x, 32 - r), Weight(i - k - 1)) + Times(HighBits(x, 32 - r), Weight(i - k))
  {
    hide Times;
    hide Weight;
    hide Two;
    hide LowBits;
    hide HighBits;
    var p, d := Weight(i - k - 1), Scale(r, k);
    var low, high := LowBits(x, 32 - r), HighBits(x, 32 - r);
    LimbShift(x, 32 - r);
    WeightNext(i - k - 1);
    var m := Times(low, p) + Times(high, Weight(i - k));
    TimesPositive(low, p);
    TimesPositive(high, Weight(i - k));
    // m == (x * 2^(32-r)) * p
    TimesLaws(high, B, p);
    TimesLaws(low, Times(high, B), p);
    assert m == Times(Times(x, Two(32 - r)), p);
    LimbWeight(x, r, k, i);
    QuotientAdd(va, m, d);
  }

  lemma LimbWeight(x: Limb, r: nat, k: nat, i: nat)
    requires r < 32 && i > k
    ensures Times(x, Weight(i)) == Times(Times(Times(x, Two(32 - r)), Weight(i - k - 1)), Scale(r, k))
  {
    hide Times;
    hide Weight;
    hide Two;
    var p, t, u, w := Weight(i - k - 1), Two(r), Two(32 - r), Weight(k);
    TwoWord();
    TwoAdd(32 - r, r);
    WeightAdd(i - k - 1, k + 1);
    WeightNext(k);
    assert Weight(i) == Times(p, Times(Times(u, t), w));
    // ((x * u) * p) * (t * w) == x * (p * ((u * t) * w))
    TimesLaws(Times(x, u), p, Times(t, w));
    TimesLaws(x, u, Times(p, Times(t, w)));
    TimesLaws(u, p, Times(t, w));
    TimesLaws(p, u, Times(t, w));
    TimesLaws(u, t, w);
  }

  lemma AllShiftedOut(v: nat, n: nat, r: nat, k: nat)
    requires v < Weight(n) && n <= k
    ensures v / Scale(r, k) == 0
  {
    hide Times;
    hide Weight;
    hide Two;
    WeightMonotone(n, k);
    TimesPositive(Two(r), Weight(k));
    TimesLaws(Scale(r, k), 0, 0);
    RemainderIs(v, Scale(r, k), 0, v);
  }

  lemma WeightMonotone(m: nat, n: nat)
    requires m <= n
    ensures Weight(m) <= Weight(n)
  {
    PowMonotone(B, m, n);
  }

  /** `n` is the number of bits of `v`. */
  ghost predicate HasBits(v: nat, n: nat) { v < Two(n) && (n > 0 ==> Two(n - 1) <= v) }

  lemma BitTest(x: nat, n: nat)
    requires x < Two(n + 1)
    ensures x / Two(n) % 2 == 1 <==> Two(n) <= x
  {
    hide Two;
    TwoDouble(n);
    TimesLaws(Two(n), 0, 0);
    if Two(n) <= x {
      RemainderIs(x, Two(n), 1, x - Two(n));
    } else {
      RemainderIs(x, Two(n), 0, x);
    }
  }

  lemma HighestBit(s: seq<Limb>, pos: nat, b: nat)
    requires pos < |s| && b < 32 && (b > 0 ==> Two(b) <= s[pos]) && 0 < s[pos] < Two(b + 1)
    requires forall k :: pos < k < |s| ==> s[k] == 0
    ensures HasBits(Value(s), 32 * pos + b + 1)
  {
    hide Times;
    hide Weight;
    hide Value;
    hide Two;
    ZeroTop(s, pos + 1);
    ValueNext(s, pos);
    var w := Weight(pos);
    WeightTwo(pos);
    TwoWord();
    TwoAdd(b, 32 * pos);
    TwoAdd(b + 1, 32 * pos);
    assert Two(b) <= s[pos];
    TimesGap(s[pos], Two(b + 1), w);
    TimesMonotone(Two(b), s[pos], w);
  }

  // ---------------------------------------------------------------------
  // Division
  // ---------------------------------------------------------------------

  /** The lowest `t` bits are zero. */
  ghost predicate BitsClear(s: seq<Limb>, t: nat) {
    forall m :: 0 <= m < |s| ==>
      && (32 * m + 32 <= t ==> s[m] == 0)
      && (32 * m < t < 32 * m + 32 ==> s[m] % Two(t - 32 * m) == 0)
  }

  lemma AllClear(s: seq<Limb>, t: nat)
    requires forall k :: 0 <= k < |s| ==> s[k] == 0
    ensures BitsClear(s, t)
  {
    forall m | 0 <= m < |s| && 32 * m < t < 32 * m + 32 ensures s[m] % Two(t - 32 * m) == 0 {
      SmallMod(0, Two(t - 32 * m));
    }
  }

  lemma EvenMultiple(x: nat, r: nat)
    requires x % Two(r + 1) == 0
    ensures x % Two(r) == 0 && (x + Two(r)) % Two(r) == 0
  {
    hide Times;
    hide Two;
    var t, q := Two(r), x / Two(r + 1);
    TwoDouble(r);
    QuotientTimes(x, Two(r + 1));
    TimesPositive(q, 2);
    TimesLaws(q, 2, t);
    TimesLaws(Times(q, 2), 1, t);
    TimesLaws(t, 0, 0);
    RemainderIs(x, t, Times(q, 2), 0);
    RemainderIs(x + t, t, Times(q, 2) + 1, 0);
  }

  lemma ClearLimb(s: seq<Limb>, shift: nat)
    requires shift < 32 * |s| && BitsClear(s, shift + 1)
    ensures s[shift / 32] % Two(shift % 32 + 1) == 0
  {
    var k, r := shift / 32, shift % 32;
    assert 32 * k <= shift < 32 * k + 32;
    if r == 31 {
      assert s[k] == 0;
      SmallMod(0, Two(32));
    }
  }

  lemma ClearLess(s: seq<Limb>, shift: nat)
    requires BitsClear(s, shift + 1)
    ensures BitsClear(s, shift)
  {
    hide Two;
    forall m | 0 <= m < |s| && 32 * m < shift < 32 * m + 32 ensures s[m] % Two(shift - 32 * m) == 0 {
      ClearLimb(s, shift);
      EvenMultiple(s[m], shift - 32 * m);
    }
  }

  lemma ClearAfter(s: seq<Limb>, shift: nat)
    requires shift < 32 * |s| && BitsClear(s, shift + 1) && s[shift / 32] + Two(shift % 32) < B
    ensures BitsClear(s[shift / 32 := s[shift / 32] + Two(shift % 32)], shift)
  {
    hide Two;
    var k, r := shift / 32, shift % 32;
    ClearLess(s, shift);
    ClearLimb(s, shift);
    EvenMultiple(s[k], r);
  }

  lemma LimbPlus(s: seq<Limb>, k: nat, x: Limb)
    requires k < |s|
    ensures Value(s[k := x]) == Value(s) + Times(x - s[k], Weight(k))
  {
    hide Times;
    hide Weight;
    hide Value;
    var t := s[k := x];
    SameTop(t, s, k + 1);
    ValueNext(t, k);
    ValueNext(s, k);
    assert t[..k] == s[..k];
    TimesLaws(x - s[k], s[k], Weight(k));
  }

  lemma TwoMonotone(m: nat, n: nat)
    requires m <= n
    ensures Two(m) <= Two(n)
  {
    PowMonotone(2, m, n);
  }

  lemma QuotientZero(n: nat, d: nat, numBits: nat, divBits: nat)
    requires HasBits(n, numBits) && HasBits(d, divBits) && divBits > numBits
    ensures d > 0 && n / d == 0
  {
    TwoMonotone(numBits, divBits - 1);
    TimesLaws(d, 0, 0);
    RemainderIs(n, d, 0, n);
  }

  lemma TimesLess(x: nat, y: nat, p: nat)
    requires x < y && p > 0
    ensures Times(x, p) < Times(y, p)
  {
    TimesGap(x, y, p);
  }

  /** Aligned with the number, the divisor neither overflows nor falls short by more than a factor of two. */
  lemma Aligned(n: nat, d: nat, numBits: nat, divBits: nat, width: nat)
    requires HasBits(n, numBits) && HasBits(d, divBits) && 0 < divBits <= numBits <= 32 * width
    ensures var shift := numBits - divBits;
      d > 0 && 0 <= Times(d, Two(shift)) < Weight(width) && n < Times(d, Two(shift + 1))
  {
    hide Times;
    hide Two;
    var shift := numBits - divBits;
    TimesPositive(d, Two(shift));
    TimesLess(d, Two(divBits), Two(shift));
    TwoAdd(divBits, shift);
    TwoMonotone(numBits, 32 * width);
    WeightTwo(width);
    TimesMonotone(Two(divBits - 1), d, Two(shift + 1));
    TwoAdd(divBits - 1, shift + 1);
  }

  lemma DoubleStep(d: nat, shift: nat)
    ensures Times(d, Two(shift + 1)) == Times(d, Two(shift)) + Times(d, Two(shift))
  {
    hide Times;
    TwoDouble(shift);
    TimesLaws(d, Two(shift), Two(shift));
  }

  lemma HalveStep(d: nat, shift: nat)
    ensures Two(1) == 2
    ensures shift > 0 ==> 0 <= Times(d, Two(shift)) && Times(d, Two(shift)) / 2 == Times(d, Two(shift - 1))
  {
    hide Times;
    TwoWord();
    if shift > 0 {
      DoubleStep(d, shift - 1);
      TimesPositive(d, Two(shift - 1));
    }
  }
}
