/** The rolling bloom filter: two bits per cell record in which of the last three generations of
    insertions the cell was last written; starting a generation wipes, by masks, the cells of the
    generation whose number it reuses. */
module RollingBloom {
  import opened Common
  import opened Numbers

  type Key = nat

  // ---------------------------------------------------------------------
  // Two bits per cell, in two words
  // ---------------------------------------------------------------------

  type Word = bv64

  function And(x: Word, y: Word): Word { x & y }
  function Or(x: Word, y: Word): Word { x | y }
  function Xor(x: Word, y: Word): Word { x ^ y }
  function Not(x: Word): Word { !x }
  function Shl(v: Word, b: bv6): Word { v << b }

  predicate Bit(x: Word, b: bv6) { (x >> b) & 1 == 1 }

  /** The low and the high bit of a generation number. */
  function Low(g: nat): Word { if g % 2 == 1 then 1 else 0 }
  function High(g: nat): Word { if g / 2 == 1 then 1 else 0 }

  function Value(p1: Word, p2: Word, b: bv6): nat {
    (if Bit(p1, b) then 1 else 0) + if Bit(p2, b) then 2 else 0
  }

  lemma PlainAnd(x: Word, y: Word, j: bv6)
    ensures Bit(x & y, j) == (Bit(x, j) && Bit(y, j))
  {
  }

  lemma PlainOr(x: Word, y: Word, j: bv6)
    ensures Bit(x | y, j) == (Bit(x, j) || Bit(y, j))
  {
  }

  lemma AndBit(x: Word, y: Word, j: bv6)
    ensures Bit(And(x, y), j) == (Bit(x, j) && Bit(y, j))
  {
    hide Bit;
    PlainAnd(x, y, j);
  }

  lemma OrBit(x: Word, y: Word, j: bv6)
    ensures Bit(Or(x, y), j) == (Bit(x, j) || Bit(y, j))
  {
    hide Bit;
    PlainOr(x, y, j);
  }

  lemma NotBit(x: Word, j: bv6)
    ensures Bit(Not(x), j) == !Bit(x, j)
  {
  }

  /** Shifting one bit into place. */
  lemma ShlBit(v: Word, b: bv6, j: bv6)
    requires v <= 1
    ensures Bit(Shl(v, b), j) == (v == 1 && j == b)
  {
    assert v == 0 || v == 1;
  }

  /** Put `v` at bit `b` of `x`. */
  function WithBit(x: Word, b: bv6, v: Word): Word {
    Or(And(x, Not(Shl(1, b))), Shl(v, b))
  }

  lemma WithBitAt(x: Word, b: bv6, v: Word, j: bv6)
    requires v <= 1
    ensures Bit(WithBit(x, b, v), j) == if j == b then v == 1 else Bit(x, j)
  {
    hide Bit;
    hide And;
    hide Or;
    hide Not;
    hide Shl;
    ShlBit(1, b, j);
    ShlBit(v, b, j);
    NotBit(Shl(1, b), j);
    AndBit(x, Not(Shl(1, b)), j);
    OrBit(And(x, Not(Shl(1, b))), Shl(v, b), j);
  }

  lemma WriteValue(p1: Word, p2: Word, b: bv6, g: nat, j: bv6)
    requires 1 <= g <= 3
    ensures Value(WithBit(p1, b, Low(g)), WithBit(p2, b, High(g)), j) == if j == b then g else Value(p1, p2, j)
  {
    hide Bit;
    hide WithBit;
    WithBitAt(p1, b, Low(g), j);
    WithBitAt(p2, b, High(g), j);
  }

  /** All ones or all zeros, from one bit of the generation number. */
  function Plane(m: Word): Word { 0 - m }

  /** A generation mask differs from a bit plane where the bit differs from the generation's. */
  lemma PlaneBit(x: Word, m: Word, j: bv6)
    requires m <= 1
    ensures Bit(Xor(x, Plane(m)), j) == (Bit(x, j) != (m == 1))
  {
    if m == 1 {
      assert Xor(x, Plane(1)) == Not(x);
      NotBit(x, j);
    } else {
      assert m == 0;
      assert Xor(x, Plane(0)) == x;
    }
  }

  /** The bits that survive the wipe of the generation with the bits `m1` and `m2`. */
  function WipeMask(p1: Word, p2: Word, m1: Word, m2: Word): Word {
    Or(Xor(p1, Plane(m1)), Xor(p2, Plane(m2)))
  }

  lemma WipeBit(p: Word, p1: Word, p2: Word, m1: Word, m2: Word, j: bv6)
    requires m1 <= 1 && m2 <= 1
    ensures Bit(And(p, WipeMask(p1, p2, m1, m2)), j)
      == (Bit(p, j) && (Bit(p1, j) != (m1 == 1) || Bit(p2, j) != (m2 == 1)))
  {
    hide Bit;
    hide Plane;
    hide And;
    hide Or;
    hide Xor;
    PlaneBit(p1, m1, j);
    PlaneBit(p2, m2, j);
    OrBit(Xor(p1, Plane(m1)), Xor(p2, Plane(m2)), j);
    AndBit(p, WipeMask(p1, p2, m1, m2), j);
  }

  /** The wipe clears exactly the cells that hold `g`. */
  lemma WipeValue(p1: Word, p2: Word, g: nat, j: bv6)
    requires 1 <= g <= 3
    ensures var mask := WipeMask(p1, p2, Low(g), High(g));
      Value(And(p1, mask), And(p2, mask), j) == if Value(p1, p2, j) == g then 0 else Value(p1, p2, j)
  {
    hide Bit;
    hide And;
    hide WipeMask;
    WipeBit(p1, p1, p2, Low(g), High(g), j);
    WipeBit(p2, p1, p2, Low(g), High(g), j);
    assert g == 1 || g == 2 || g == 3;
  }

  lemma EitherBit(p1: Word, p2: Word, b: bv6)
    ensures Bit(Or(p1, p2), b) <==> Value(p1, p2, b) != 0
  {
    hide Bit;
    hide Or;
    OrBit(p1, p2, b);
  }

  // ---------------------------------------------------------------------
  // What a run of insertions leaves in the cells
  // ---------------------------------------------------------------------

  /** The number of the hash function, the tweak, the key. */
  type Hasher = (nat, nat, Key) -> bv32

  function FastMod(x: nat, n: nat): (r: nat)
    requires x < WORD && n > 0
    ensures r < n
  {
    ScaledBelow(x, n, WORD);
    x * n / WORD
  }

  /** A pair of words and a bit. */
  datatype Cell = Cell(w: nat, b: bv6)

  function BitAt(h: bv32): bv6 { (h & 0x3F) as bv6 }

  function PosAt(h: bv32, size: nat): (pos: nat)
    requires size > 0
    ensures pos < size
  {
    FastMod(h as nat, size)
  }

  function CellAt(h: bv32, size: nat): (c: Cell)
    requires size > 0
    ensures size % 2 == 0 ==> c.w < size / 2
  {
    Cell(PosAt(h, size) / 2, BitAt(h))
  }

  /** What a cell written last in generation `x` holds in generation `e`. */
  function Mark(e: nat, x: int): nat { if x >= 0 && e - x <= 2 then x % 3 + 1 else 0 }

  function Wiped(v: nat, g: nat): nat { if v == g then 0 else v }

  lemma MarkNext(e: nat, x: nat)
    requires x <= e
    ensures Mark(e + 1, x) == Wiped(Mark(e, x), (e + 1) % 3 + 1)
  {
  }

  datatype Params = Params(hash: Hasher, tweak: nat, size: nat, nHashFuncs: nat, perGeneration: nat) {
    predicate Ok() { size > 0 && size % 2 == 0 && perGeneration >= 1 }

    function CellOf(key: Key, n: nat): (c: Cell)
      requires Ok()
      ensures c.w < size / 2
    {
      CellAt(hash(n, tweak, key), size)
    }

    /** One of the first `m` hash functions puts `key` at `c`. */
    predicate Touches(key: Key, c: Cell, m: nat)
      requires Ok()
    {
      exists n :: 0 <= n < m && CellOf(key, n) == c
    }

    /** The last of `keys` that was put at `c`, or -1. */
    function LastTouch(keys: seq<Key>, c: Cell): (i: int)
      requires Ok()
      ensures -1 <= i < |keys| && (i >= 0 ==> Touches(keys[i], c, nHashFuncs))
      ensures forall j :: i < j < |keys| ==> !Touches(keys[j], c, nHashFuncs)
    {
      if keys == [] then -1
      else if Touches(keys[|keys| - 1], c, nHashFuncs) then |keys| - 1
      else LastTouch(keys[..|keys| - 1], c)
    }

    /** The generations since the reset, before the one that `n` insertions have reached. */
    function Epoch(n: nat): nat
      requires Ok()
    {
      if n == 0 then 0 else (n - 1) / perGeneration
    }

    /** The insertions of the current generation. */
    function Filled(n: nat): int
      requires Ok()
    {
      n - Epoch(n) * perGeneration
    }

    /** The generation of the insertion with index `i`. */
    function GenerationOf(i: nat): nat
      requires Ok()
    {
      i / perGeneration
    }

    /** A cell holds the number of the generation that wrote it last, if that is one of the last three. */
    function Expected(keys: seq<Key>, c: Cell): nat
      requires Ok()
    {
      var i := LastTouch(keys, c);
      if i < 0 then 0 else Mark(Epoch(|keys|), GenerationOf(i))
    }

    /** The first insertion that is remembered after `n`. */
    function WindowStart(n: nat): nat
      requires Ok()
    {
      if Epoch(n) <= 2 then 0 else (Epoch(n) - 2) * perGeneration
    }

    ghost predicate Written(keys: seq<Key>, c: Cell)
      requires Ok()
    {
      exists i :: WindowStart(|keys|) <= i < |keys| && Touches(keys[i], c, nHashFuncs)
    }

    /** Every place of `key` was written in the window. */
    ghost predicate Reported(keys: seq<Key>, key: Key)
      requires Ok()
    {
      forall m :: 0 <= m < nHashFuncs ==> Written(keys, CellOf(key, m))
    }
  }

  lemma EpochStep(p: Params, n: nat)
    requires p.Ok()
    ensures p.Epoch(n) * p.perGeneration <= n <= (p.Epoch(n) + 1) * p.perGeneration
    ensures p.Epoch(n + 1) == p.Epoch(n) + if n - p.Epoch(n) * p.perGeneration == p.perGeneration then 1 else 0
  {
    var g, e := p.perGeneration, p.Epoch(n);
    if n > 0 {
      QuotientBounds(n - 1, g);
      if n == (e + 1) * g {
        assert (e + 2) * g == (e + 1) * g + g;
        QuotientIs(n, g, e + 1);
      } else {
        QuotientIs(n, g, e);
      }
    }
  }

  lemma FilledStep(p: Params, n: nat)
    requires p.Ok()
    ensures p.Epoch(n + 1) == p.Epoch(n) + if p.Filled(n) == p.perGeneration then 1 else 0
    ensures p.Filled(n + 1) == if p.Filled(n) == p.perGeneration then 1 else p.Filled(n) + 1
  {
    EpochStep(p, n);
    var e, g := p.Epoch(n), p.perGeneration;
    assert (e + 1) * g == e * g + g;
  }

  lemma NextEpoch(p: Params, n: nat)
    requires p.Ok()
    ensures p.Epoch(n + 1) == p.Epoch(n) || p.Epoch(n + 1) == p.Epoch(n) + 1
  {
    EpochStep(p, n);
  }

  lemma TouchesNext(p: Params, key: Key, c: Cell, n: nat)
    requires p.Ok()
    ensures p.Touches(key, c, n + 1) <==> p.Touches(key, c, n) || c == p.CellOf(key, n)
  {
  }

  lemma TouchNext(p: Params, keys: seq<Key>, key: Key, c: Cell)
    requires p.Ok()
    ensures p.LastTouch(keys + [key], c) == if p.Touches(key, c, p.nHashFuncs) then |keys| else p.LastTouch(keys, c)
  {
    assert (keys + [key])[..|keys|] == keys;
  }

  lemma LatestMark(p: Params, n: nat)
    requires p.Ok()
    ensures Mark(p.Epoch(n + 1), p.GenerationOf(n)) == p.Epoch(n + 1) % 3 + 1
  {
  }

  lemma EpochOf(p: Params, n: nat, i: nat)
    requires p.Ok() && i < n
    ensures p.GenerationOf(i) <= p.Epoch(n)
  {
    QuotientMonotone(i, n - 1, p.perGeneration);
  }

  /** One more insertion: a wipe when a generation is full, then the key's own cells. */
  lemma ExpectedNext(p: Params, keys: seq<Key>, key: Key, c: Cell)
    requires p.Ok()
    ensures var e, e' := p.Epoch(|keys|), p.Epoch(|keys| + 1);
      var v := if e' == e then p.Expected(keys, c) else Wiped(p.Expected(keys, c), e' % 3 + 1);
      p.Expected(keys + [key], c) == if p.Touches(key, c, p.nHashFuncs) then e' % 3 + 1 else v
  {
    hide Params.Touches;
    hide Params.Epoch;
    hide Params.GenerationOf;
    hide Params.LastTouch;
    hide Mark;
    var n := |keys|;
    TouchNext(p, keys, key, c);
    NextEpoch(p, n);
    var i := p.LastTouch(keys, c);
    if i >= 0 {
      EpochOf(p, n, i);
      MarkNext(p.Epoch(n), p.GenerationOf(i));
    }
    LatestMark(p, n);
  }

  lemma InWindow(p: Params, n: nat, i: nat)
    requires p.Ok() && i < n
    ensures p.Epoch(n) - p.GenerationOf(i) <= 2 <==> p.WindowStart(n) <= i
  {
    var g, e, x := p.perGeneration, p.Epoch(n), i / p.perGeneration;
    QuotientBounds(i, g);
    if e > 2 {
      if x >= e - 2 {
        MulMonotone(e - 2, x, g);
      } else {
        MulMonotone(x + 1, e - 2, g);
      }
    }
  }

  /** A cell is set exactly when one of the remembered insertions wrote it. */
  lemma ExpectedWritten(p: Params, keys: seq<Key>, c: Cell)
    requires p.Ok()
    ensures p.Expected(keys, c) != 0 <==> p.Written(keys, c)
  {
    hide Params.Touches;
    var i := p.LastTouch(keys, c);
    if i >= 0 {
      InWindow(p, |keys|, i);
    }
  }

  /** The window is never shorter than two full generations, nor longer than three. */
  lemma WindowSize(p: Params, n: nat)
    requires p.Ok()
    ensures p.WindowStart(n) <= n && n - p.WindowStart(n) <= 3 * p.perGeneration
    ensures p.WindowStart(n) > 0 ==> n - p.WindowStart(n) > 2 * p.perGeneration
  {
    hide Params.Epoch;
    var g, e := p.perGeneration, p.Epoch(n);
    EpochBounds(p, n);
    if e <= 2 {
      MulMonotone(e + 1, 3, g);
    } else {
      assert (e - 2) * g == e * g - 2 * g;
      assert (e + 1) * g == e * g + g;
    }
  }

  lemma EpochBounds(p: Params, n: nat)
    requires p.Ok()
    ensures p.Epoch(n) * p.perGeneration <= n <= (p.Epoch(n) + 1) * p.perGeneration
    ensures n > 0 ==> p.Epoch(n) * p.perGeneration < n
  {
    EpochStep(p, n);
    if n > 0 {
      QuotientBounds(n - 1, p.perGeneration);
    }
  }

  /** Every key among the last 2G insertions is reported, whatever was inserted after it. */
  lemma RecentReported(p: Params, keys: seq<Key>, i: nat)
    requires p.Ok() && i < |keys| && i + 2 * p.perGeneration >= |keys|
    ensures p.Reported(keys, keys[i])
  {
    WindowSize(p, |keys|);
    forall m | 0 <= m < p.nHashFuncs ensures p.Written(keys, p.CellOf(keys[i], m)) {
      assert p.Touches(keys[i], p.CellOf(keys[i], m), p.nHashFuncs);
    }
  }

  // ---------------------------------------------------------------------
  // The filter
  // ---------------------------------------------------------------------

  function CellValue(data: seq<Word>, c: Cell): nat
    requires 2 * c.w + 1 < |data|
  {
    Value(data[2 * c.w], data[2 * c.w + 1], c.b)
  }

  class RollingBloomFilter {
    const hash: Hasher
    const nHashFuncs: nat
    const nEntriesPerGeneration: nat
    const data: array<Word>
    var nTweak: nat
    var nEntriesThisGeneration: nat
    var nGeneration: nat
    /** The keys inserted since the last reset. */
    ghost var history: seq<Key>

    function P(): Params
      reads this
    {
      Params(hash, nTweak, data.Length, nHashFuncs, nEntriesPerGeneration)
    }

    ghost predicate Holds(c: Cell)
      requires P().Ok() && c.w < data.Length / 2
      reads this, data
    {
      CellValue(data[..], c) == P().Expected(history, c)
    }

    ghost predicate Valid()
      reads this, data
    {
      && P().Ok()
      && nGeneration == P().Epoch(|history|) % 3 + 1
      && nEntriesThisGeneration == P().Filled(|history|)
      && (forall c: Cell :: c.w < data.Length / 2 ==> Holds(c))
    }

    /** The number of hash functions and of words come from floating-point formulas and are parameters. */
    constructor (hash: Hasher, nElements: nat, nHashFuncs: nat, nWords: nat, nTweak: nat)
      requires nElements >= 1 && nWords >= 1
      ensures Valid() && fresh(data) && history == []
      ensures nEntriesPerGeneration == (nElements + 1) / 2 && this.hash == hash && this.nHashFuncs == nHashFuncs
    {
      this.hash, this.nHashFuncs := hash, nHashFuncs;
      nEntriesPerGeneration := (nElements + 1) / 2;
      data := new Word[2 * nWords](_ => 0);
      this.nTweak := nTweak;
      nEntriesThisGeneration, nGeneration := 0, 1;
      history := [];
      new;
      ZeroValue();
    }

    method Reset(nTweak: nat)
      requires Valid()
      modifies this, data
      ensures Valid() && history == [] && this.nTweak == nTweak
    {
      this.nTweak := nTweak;
      nEntriesThisGeneration, nGeneration := 0, 1;
      history := [];
      for i := 0 to data.Length
        modifies data
        invariant forall k :: 0 <= k < i ==> data[k] == 0
      {
        data[i] := 0;
      }
      ZeroValue();
    }

    /** The masked wipe: the cells that hold `nGeneration` are cleared and no other is touched. */
    method Wipe()
      requires data.Length % 2 == 0 && 1 <= nGeneration <= 3
      modifies data
      ensures forall c: Cell :: c.w < data.Length / 2 ==>
        CellValue(data[..], c) == Wiped(CellValue(old(data[..]), c), nGeneration)
    {
      hide Value;
      hide And;
      hide Or;
      hide Xor;
      hide Plane;
      hide Low;
      hide High;
      var mask1, mask2 := Plane(Low(nGeneration)), Plane(High(nGeneration));
      var p := 0;
      while p < data.Length
        invariant p % 2 == 0 && p <= data.Length && data[p..] == old(data[..])[p..]
        invariant forall c: Cell :: c.w < p / 2 ==>
          CellValue(data[..], c) == Wiped(CellValue(old(data[..]), c), nGeneration)
      {
        var p1, p2 := data[p], data[p + 1];
        assert p1 == old(data[..])[p..][0] && p2 == old(data[..])[p..][1];
        var mask := Or(Xor(p1, mask1), Xor(p2, mask2));
        ghost var before := data[..];
        data[p], data[p + 1] := And(p1, mask), And(p2, mask);
        forall c: Cell | c.w < p / 2 + 1
          ensures CellValue(data[..], c) == Wiped(CellValue(old(data[..]), c), nGeneration)
        {
          if c.w == p / 2 {
            WipeValue(p1, p2, nGeneration, c.b);
          } else {
            assert CellValue(data[..], c) == CellValue(before, c);
          }
        }
        p := p + 2;
        assert data[p..] == old(data[..])[p..];
      }
    }

    method Write(h: bv32)
      requires P().Ok() && 1 <= nGeneration <= 3
      modifies data
      ensures forall c: Cell :: c.w < data.Length / 2 ==>
        CellValue(data[..], c) == if c == CellAt(h, data.Length) then nGeneration else CellValue(old(data[..]), c)
    {
      hide Value;
      hide WithBit;
      hide BitAt;
      hide PosAt;
      var bit := BitAt(h);
      var pos := PosAt(h, data.Length);
      var p := pos - pos % 2;
      data[p] := WithBit(data[p], bit, Low(nGeneration));
      data[p + 1] := WithBit(data[p + 1], bit, High(nGeneration));
      forall c: Cell | c.w == pos / 2
        ensures CellValue(data[..], c) == if c.b == bit then nGeneration else CellValue(old(data[..]), c)
      {
        WriteValue(old(data[..])[p], old(data[..])[p + 1], bit, nGeneration, c.b);
      }
    }

    method WriteAll(key: Key)
      requires P().Ok() && 1 <= nGeneration <= 3
      modifies data
      ensures forall c: Cell :: c.w < data.Length / 2 ==>
        CellValue(data[..], c) == if P().Touches(key, c, nHashFuncs) then nGeneration else CellValue(old(data[..]), c)
    {
      hide CellAt;
      hide CellValue;
      for n := 0 to nHashFuncs
        invariant forall c: Cell :: c.w < data.Length / 2 ==>
          CellValue(data[..], c) == if P().Touches(key, c, n) then nGeneration else CellValue(old(data[..]), c)
      {
        Write(hash(n, nTweak, key));
        forall c: Cell ensures P().Touches(key, c, n + 1) <==> P().Touches(key, c, n) || c == P().CellOf(key, n) {
          TouchesNext(P(), key, c, n);
        }
      }
    }

    /** A full generation is closed, and the cells of the oldest one are wiped. */
    method Rotate()
      requires P().Ok() && 1 <= nGeneration <= 3
      modifies this`nEntriesThisGeneration, this`nGeneration, data
      ensures nEntriesThisGeneration == 0 && nGeneration == old(nGeneration) % 3 + 1
      ensures forall c: Cell :: c.w < data.Length / 2 ==>
        CellValue(data[..], c) == Wiped(CellValue(old(data[..]), c), nGeneration)
    {
      hide CellValue;
      nEntriesThisGeneration := 0;
      nGeneration := nGeneration + 1;
      if nGeneration == 4 {
        nGeneration := 1;
      }
      Wipe();
    }

    method Insert(key: Key)
      requires Valid()
      modifies this, data
      ensures Valid() && history == old(history) + [key] && nTweak == old(nTweak)
    {
      hide CellValue;
      hide Params.Expected;
      hide Params.Touches;
      hide Params.Epoch;
      hide Params.Filled;
      ghost var p, cells := P(), data[..];
      FilledStep(p, |history|);
      if nEntriesThisGeneration == nEntriesPerGeneration {
        Rotate();
      }
      nEntriesThisGeneration := nEntriesThisGeneration + 1;
      WriteAll(key);
      forall c: Cell | c.w < data.Length / 2 ensures CellValue(data[..], c) == p.Expected(history + [key], c) {
        ExpectedNext(p, history, key, c);
        assert CellValue(cells, c) == p.Expected(history, c);
      }
      history := history + [key];
    }

    /** No false negatives, and nothing but the cells of the remembered keys is ever reported. */
    method Contains(key: Key) returns (found: bool)
      requires Valid()
      ensures found <==> P().Reported(history, key)
    {
      for n := 0 to nHashFuncs
        invariant forall m :: 0 <= m < n ==> P().Written(history, P().CellOf(key, m))
      {
        var h := hash(n, nTweak, key);
        var bit := BitAt(h);
        var pos := PosAt(h, data.Length);
        var p := pos - pos % 2;
        ghost var c := P().CellOf(key, n);
        ExpectedWritten(P(), history, c);
        assert Holds(c);
        EitherBit(data[p], data[p + 1], bit);
        if !Bit(Or(data[p], data[p + 1]), bit) {
          return false;
        }
      }
      return true;
    }

    lemma ZeroValue()
      ensures forall b: bv6 :: Value(0, 0, b) == 0
    {
    }
  }
}
