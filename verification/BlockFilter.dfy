/** Golomb-coded block filters: hashes mapped into a range, sorted, and stored as the differences
    between neighbours in a bit stream; matching is a merge with the sorted queries. */
module BlockFilter {
  import opened Common
  import opened Numbers

  const HALF := 0x1_0000_0000
  type Element = nat

  // ---------------------------------------------------------------------
  // Mapping into a range
  // ---------------------------------------------------------------------

  lemma Pieces(a: nat, b: nat, c: nat, d: nat)
    ensures Times(a * HALF + b, c * HALF + d) == Times(a, c) * WORD64 + (Times(a, d) + Times(b, c)) * HALF + Times(b, d)
  {
    hide Times;
    var x, y := a * HALF, c * HALF;
    TimesLaws(x, b, y + d);
    TimesLaws(x, y, d);
    TimesLaws(b, y, d);
    Scaled(x, c, HALF);
    TimesLaws(x, c, 0);
    Scaled(c, a, HALF);
    TimesLaws(c, a, 0);
    TimesLaws(x, d, 0);
    Scaled(d, a, HALF);
    TimesLaws(d, a, 0);
    Scaled(b, c, HALF);
  }

  lemma Scaled(a: nat, c: nat, k: nat)
    ensures Times(a, c * k) == Times(a, c) * k
  {
    MulAssoc(a, c, k);
  }

  lemma PieceFits(a: nat, b: nat)
    requires a < HALF && b < HALF
    ensures 0 <= Times(a, b) <= (HALF - 1) * (HALF - 1)
  {
    MulMonotone(a, HALF - 1, b);
    MulMonotone(b, HALF - 1, HALF - 1);
    TimesPositive(a, b);
  }

  lemma UpperWord(ac: nat, ad: nat, bc: nat, bd: nat)
    ensures var mid34 := bd / HALF + bc % HALF + ad % HALF;
      (ac * WORD64 + (ad + bc) * HALF + bd) / WORD64 == ac + bc / HALF + ad / HALF + mid34 / HALF
  {
  }

  /** The piecewise product: no step exceeds a 64-bit word, and the result is the upper word of x * n. */
  method MapIntoRange(x: nat, n: nat) returns (upper64: nat)
    requires x < WORD64 && n < WORD64
    ensures upper64 == Range(x, n)
  {
    var xHi, xLo := x / HALF, x % HALF;
    var nHi, nLo := n / HALF, n % HALF;
    PieceFits(xHi, nHi);
    PieceFits(xHi, nLo);
    PieceFits(xLo, nHi);
    PieceFits(xLo, nLo);
    Pieces(xHi, xLo, nHi, nLo);
    hide Times;
    var ac, ad := Times(xHi, nHi), Times(xHi, nLo);
    var bc, bd := Times(xLo, nHi), Times(xLo, nLo);
    assert ac < WORD64 && ad < WORD64 && bc < WORD64 && bd < WORD64;
    var mid34 := bd / HALF + bc % HALF + ad % HALF;
    assert mid34 < WORD64;
    upper64 := ac + bc / HALF + ad / HALF + mid34 / HALF;
    UpperWord(ac, ad, bc, bd);
    assert upper64 < WORD64;
  }

  /** The reference: the upper word of the product. */
  function Range(x: nat, n: nat): (r: nat)
    requires x < WORD64 && n < WORD64
    ensures n > 0 ==> r < n
    ensures n == 0 ==> r == 0
  {
    if n > 0 then ScaledBelow(x, n, WORD64); TimesPositive(x, n); Times(x, n) / WORD64 else 0
  }

  // ---------------------------------------------------------------------
  // Golomb-Rice codes
  // ---------------------------------------------------------------------

  /** The `n` lowest bits of `x`, the highest of them first. */
  function Bits(x: nat, n: nat): (b: seq<bool>)
    ensures |b| == n
  {
    if n == 0 then [] else Bits(x / 2, n - 1) + [x % 2 == 1]
  }

  function BitsValue(b: seq<bool>): nat {
    if b == [] then 0 else 2 * BitsValue(b[..|b| - 1]) + if b[|b| - 1] then 1 else 0
  }

  function Ones(n: nat): (b: seq<bool>)
    ensures |b| == n && forall i :: 0 <= i < n ==> b[i]
  {
    seq(n, _ => true)
  }

  /** The quotient in unary, a zero, and the remainder in `p` bits. */
  function Rice(p: nat, x: nat): seq<bool> { Ones(Over(x, Two(p))) + [false] + Bits(x, p) }

  /** The ones from `pos` on. */
  function CountOnes(bits: seq<bool>, pos: nat): (n: nat)
    requires pos <= |bits|
    ensures pos + n <= |bits| && (pos + n < |bits| ==> !bits[pos + n]) && forall i :: pos <= i < pos + n ==> bits[i]
    decreases |bits| - pos
  {
    if pos == |bits| || !bits[pos] then 0 else 1 + CountOnes(bits, pos + 1)
  }

  /** The value read and the position after it; None when the stream ends too early or `p` is more than a word. */
  function ReadRice(bits: seq<bool>, pos: nat, p: nat): Option<(nat, nat)>
    requires pos <= |bits|
  {
    var q := CountOnes(bits, pos);
    var next := pos + q + 1;
    if next > |bits| || p > 64 || next + p > |bits| then None else
      TimesPositive(q, Two(p));
      Some(((Times(q, Two(p)) + BitsValue(bits[next..next + p])) % WORD64, next + p))
  }

  lemma {:induction false} BitsBack(x: nat, n: nat)
    ensures BitsValue(Bits(x, n)) == x % Two(n)
    decreases n
  {
    if n > 0 {
      BitsBack(x / 2, n - 1);
      assert Bits(x, n)[..n - 1] == Bits(x / 2, n - 1);
      HalfRemainder(x, Two(n - 1));
    }
  }

  lemma HalfRemainder(x: nat, t: nat)
    requires t > 0
    ensures 2 * (x / 2 % t) + x % 2 == x % (2 * t)
  {
    hide Times;
    var y := x / 2;
    QuotientTimes(y, t);
    TimesLaws(y / t, t, t);
    assert Times(y / t, 2 * t) == Times(y / t, t) + Times(y / t, t);
    RemainderIs(x, 2 * t, y / t, 2 * (y % t) + x % 2);
  }

  lemma CountOnesIs(bits: seq<bool>, pos: nat, n: nat)
    requires pos + n < |bits| && !bits[pos + n] && forall i :: pos <= i < pos + n ==> bits[i]
    ensures CountOnes(bits, pos) == n
  {
  }

  /** What is written is read back, wherever in the stream it is. */
  lemma RiceBack(p: nat, x: nat, pre: seq<bool>, post: seq<bool>)
    requires x < WORD64 && p < 64
    ensures ReadRice(pre + Rice(p, x) + post, |pre|, p) == Some((x, |pre| + |Rice(p, x)|))
  {
    hide Times;
    hide Two;
    hide Over;
    hide Rice;
    hide CountOnes;
    var q := Over(x, Two(p));
    RiceParts(p, x, pre, post);
    BitsBack(x, p);
    hide Bits;
    hide BitsValue;
    QuotientTimes(x, Two(p));
    OverIs(x, Two(p));
    SmallWord(x);
  }

  lemma SmallWord(x: nat)
    requires x < WORD64
    ensures x % WORD64 == x
  {
  }

  lemma RiceParts(p: nat, x: nat, pre: seq<bool>, post: seq<bool>)
    ensures var bits, q := pre + Rice(p, x) + post, Over(x, Two(p));
      var next := |pre| + q + 1;
      && CountOnes(bits, |pre|) == q && next + p == |pre| + |Rice(p, x)| <= |bits| && bits[next..next + p] == Bits(x, p)
  {
    hide Two;
    hide Over;
    hide Bits;
    hide CountOnes;
    var bits, q := pre + Rice(p, x) + post, Over(x, Two(p));
    var next := |pre| + q + 1;
    CountOnesIs(bits, |pre|, q);
    assert bits[next..next + p] == Bits(x, p);
  }

  /** The bit stream with the position reached in it. */
  class BitStreamReader {
    const bits: seq<bool>
    var pos: nat

    ghost predicate Valid() reads this { pos <= |bits| }

    constructor (bits: seq<bool>)
      ensures Valid() && this.bits == bits && pos == 0
    {
      this.bits := bits;
      pos := 0;
    }

    /** Reading past the end, or more bits than a word has, fails, as the source throws there. */
    method Read(nbits: nat) returns (data: Option<nat>)
      requires Valid()
      modifies this
      ensures Valid()
      ensures data.Some? <==> nbits <= 64 && old(pos) + nbits <= |bits|
      ensures data.Some? ==> data == Some(BitsValue(bits[old(pos)..old(pos) + nbits])) && pos == old(pos) + nbits
    {
      if nbits > 64 {
        return None;
      }
      if pos + nbits > |bits| {
        return None;
      }
      var start := pos;
      var value := 0;
      for i := 0 to nbits
        invariant pos == start + i && value == BitsValue(bits[start..pos])
      {
        assert bits[start..pos + 1][..i] == bits[start..pos];
        value := 2 * value + if bits[pos] then 1 else 0;
        pos := pos + 1;
      }
      return Some(value);
    }

    /** A remainder of a whole word is excluded: the source's shift by 64 is undefined. */
    method GolombRiceDecode(p: nat) returns (x: Option<nat>)
      requires Valid() && p != 64
      modifies this
      ensures Valid()
      ensures var r := ReadRice(bits, old(pos), p); if r.Some? then x == Some(r.value.0) && pos == r.value.1
        else x.None?
    {
      hide Times;
      hide BitsValue;
      hide Two;
      var q: nat := 0;
      ghost var start := pos;
      BitsValueOne();
      while true
        invariant Valid() && pos == start + q && q + CountOnes(bits, pos) == CountOnes(bits, start)
        decreases |bits| - pos
      {
        ghost var at := pos;
        var bit := Read(1);
        if bit.None? {
          return None;
        }
        assert bits[at..at + 1] == [bits[at]];
        if bit.value != 1 {
          break;
        }
        q := q + 1;
      }
      var r := Read(p);
      if r.None? {
        return None;
      }
      TimesPositive(q, Two(p));
      return Some((Times(q, Two(p)) + r.value) % WORD64);
    }
  }

  lemma BitsValueOne()
    ensures BitsValue([true]) == 1 && BitsValue([false]) == 0
  {
  }

  // ---------------------------------------------------------------------
  // Filters
  // ---------------------------------------------------------------------

  ghost predicate Sorted(s: seq<nat>) { forall i, j :: 0 <= i < j < |s| ==> s[i] <= s[j] }

  function Inserted(s: seq<nat>, x: nat): seq<nat> {
    if s == [] || s[|s| - 1] <= x then s + [x] else Inserted(s[..|s| - 1], x) + [s[|s| - 1]]
  }

  /** std::sort */
  function Sort(s: seq<nat>): seq<nat> {
    if s == [] then [] else Inserted(Sort(s[..|s| - 1]), s[|s| - 1])
  }

  lemma {:induction false} InsertedProps(s: seq<nat>, x: nat)
    ensures forall y :: y in Inserted(s, x) <==> y in s || y == x
    ensures |Inserted(s, x)| == |s| + 1
    ensures Sorted(s) ==> Sorted(Inserted(s, x))
    decreases |s|
  {
    if s != [] && s[|s| - 1] > x {
      var front, last := s[..|s| - 1], s[|s| - 1];
      InsertedProps(front, x);
      assert s == front + [last];
      if Sorted(s) {
        var r := Inserted(front, x);
        forall i | 0 <= i < |r| ensures r[i] <= last {
          assert r[i] in r;
        }
      }
    }
  }

  lemma {:induction false} SortProps(s: seq<nat>)
    ensures Sorted(Sort(s)) && |Sort(s)| == |s| && forall y :: y in Sort(s) <==> y in s
    decreases |s|
  {
    if s != [] {
      var front, last := s[..|s| - 1], s[|s| - 1];
      SortProps(front);
      InsertedProps(Sort(front), last);
      assert s == front + [last];
    }
  }

  function LastOf(values: seq<nat>, i: nat): nat
    requires i <= |values|
  {
    if i == 0 then 0 else values[i - 1]
  }

  /** The differences between the first `n` values, encoded one after the other. */
  ghost function Encoded(p: nat, values: seq<nat>, n: nat): seq<bool>
    requires Sorted(values) && n <= |values|
  {
    if n == 0 then [] else Encoded(p, values, n - 1) + Rice(p, values[n - 1] - LastOf(values, n - 1))
  }

  lemma {:induction false} EncodedPrefix(p: nat, values: seq<nat>, n: nat, m: nat)
    requires Sorted(values) && n <= m <= |values|
    ensures Encoded(p, values, n) <= Encoded(p, values, m)
    decreases m
  {
    if n < m {
      EncodedPrefix(p, values, n, m - 1);
    }
  }

  /** At the position after `i` values the reader finds the next difference. */
  lemma NextDelta(p: nat, values: seq<nat>, padding: seq<bool>, i: nat)
    requires p < 64 && Sorted(values) && i < |values| && values[i] < WORD64
    ensures var bits := Encoded(p, values, |values|) + padding;
      var pos := |Encoded(p, values, i)|;
      pos <= |bits| && ReadRice(bits, pos, p) == Some((values[i] - LastOf(values, i), |Encoded(p, values, i + 1)|))
  {
    hide ReadRice;
    hide Rice;
    EncodedPrefix(p, values, i + 1, |values|);
    var all, pre, here := Encoded(p, values, |values|), Encoded(p, values, i), Encoded(p, values, i + 1);
    var delta := values[i] - LastOf(values, i);
    var post := all[|here|..] + padding;
    assert all == here + all[|here|..];
    assert all + padding == pre + Rice(p, delta) + post;
    RiceBack(p, delta, pre, post);
  }

  ghost predicate Meets(xs: seq<nat>, ys: seq<nat>) { exists x :: x in xs && x in ys }

  function Hashes(hash: Element -> nat, f: nat, elements: seq<Element>): (r: seq<nat>)
    requires f < WORD64
    ensures |r| == |elements| && forall i :: 0 <= i < |r| ==> r[i] == Range(hash(elements[i]) % WORD64, f)
  {
    seq(|elements|, i requires 0 <= i < |elements| => Range(hash(elements[i]) % WORD64, f))
  }

  lemma HashesBelow(hash: Element -> nat, f: nat, elements: seq<Element>)
    requires f < WORD64
    ensures forall v :: v in Hashes(hash, f, elements) ==> v < WORD64
  {
    hide Range;
  }

  class GCSFilter {
    /** SipHash under the filter's key. */
    const hash: Element -> nat
    const p: nat
    const m: nat
    const n: nat
    const f: nat
    const encoded: seq<bool>
    /** The elements the filter was built from, in the order in which the set is iterated. */
    ghost const elements: seq<Element>

    ghost predicate Valid() {
      && p < 64 && f < WORD64 && n == |elements| && Sorted(Sort(Hashes(hash, f, elements)))
         && |Sort(Hashes(hash, f, elements))| == n
      && Encoded(p, Sort(Hashes(hash, f, elements)), n) <= encoded
    }

    constructor (hash: Element -> nat, p: nat, m: nat, elements: seq<Element>)
      requires |elements| < HALF && m < HALF && p < 64
      ensures Valid() && this.elements == elements && n == |elements| && f == n * m
      ensures this.hash == hash && this.p == p && this.m == m
    {
      hide Rice;
      hide Range;
      hide Sort;
      hide Hashes;
      PieceFits(|elements|, m);
      TimesIs(|elements|, m);
      hide Times;
      this.hash, this.p, this.m, this.n := hash, p, m, |elements|;
      this.elements := elements;
      var f := Times(|elements|, m);
      this.f := f;
      var values := BuildHashedSet(hash, f, elements);
      SortProps(Hashes(hash, f, elements));
      var bits: seq<bool> := [];
      var lastValue := 0;
      for i := 0 to |values|
        invariant Sorted(values) && bits == Encoded(p, values, i) && lastValue == LastOf(values, i)
      {
        var delta := values[i] - lastValue;
        bits := bits + Rice(p, delta);
        lastValue := values[i];
      }
      encoded := bits + seq((8 - |bits| % 8) % 8, _ => false);
    }

    /** The merge: with sorted queries, true exactly when one of them is a hash in the filter. */
    method MatchInternal(queries: seq<nat>) returns (found: bool)
      requires Valid() && Sorted(queries)
      ensures found <==> Meets(queries, Hashes(hash, f, elements))
    {
      hide ReadRice;
      hide Hashes;
      hide Sort;
      hide Encoded;
      hide Passed;
      hide Meets;
      hide Sorted;
      ghost var values := Sort(Hashes(hash, f, elements));
      SortProps(Hashes(hash, f, elements));
      HashesBelow(hash, f, elements);
      SameMeets(queries, values, Hashes(hash, f, elements));
      PassedStart(queries, values);
      EncodedStart(p, values);
      ghost var padding := encoded[|Encoded(p, values, n)|..];
      assert encoded == Encoded(p, values, n) + padding;
      var reader := new BitStreamReader(encoded);
      var value, index := 0, 0;
      for i := 0 to n
        invariant fresh(reader) && reader.Valid() && reader.bits == encoded && reader.pos == |Encoded(p, values, i)|
        invariant value == LastOf(values, i) && 0 <= index <= |queries|
        invariant Passed(queries, values, index, i)
      {
        DeltaFits(values, i);
        NextDelta(p, values, padding, i);
        var delta := reader.GolombRiceDecode(p);
        value := (value + delta.value) % WORD64;
        index, found := Advance(queries, value, index, values, i);
        if found {
          Met(queries, values, index, i);
          return true;
        }
        if index == |queries| {
          NoneLeft(queries, values, i + 1);
          return false;
        }
      }
      PassedAll(queries, values, index);
      return false;
    }

    method Match(element: Element) returns (found: bool)
      requires Valid()
      ensures found <==> Range(hash(element) % WORD64, f) in Hashes(hash, f, elements)
    {
      var query := MapIntoRange(hash(element) % WORD64, f);
      found := MatchInternal([query]);
    }

    method MatchAny(others: seq<Element>) returns (found: bool)
      requires Valid()
      ensures found <==> Meets(Hashes(hash, f, others), Hashes(hash, f, elements))
    {
      var queries := BuildHashedSet(hash, f, others);
      SortProps(Hashes(hash, f, others));
      found := MatchInternal(queries);
    }
  }

  method BuildHashedSet(hash: Element -> nat, f: nat, elements: seq<Element>) returns (r: seq<nat>)
    requires f < WORD64
    ensures r == Sort(Hashes(hash, f, elements))
  {
    hide Range;
    var hashed: seq<nat> := [];
    for i := 0 to |elements|
      invariant hashed == Hashes(hash, f, elements)[..i]
    {
      var h := MapIntoRange(hash(elements[i]) % WORD64, f);
      hashed := hashed + [h];
    }
    assert hashed == Hashes(hash, f, elements);
    r := Sort(hashed);
  }

  /** The first `index` queries are no values, and the next one is above the first `i` values. */
  ghost predicate Passed(queries: seq<nat>, values: seq<nat>, index: nat, i: nat)
    requires index <= |queries| && i <= |values|
  {
    && (forall k :: 0 <= k < index ==> queries[k] !in values)
    && (index < |queries| && i > 0 ==> queries[index] > values[i - 1])
  }

  /** A query between two neighbouring values is none of them. */
  lemma Between(queries: seq<nat>, values: seq<nat>, index: nat, i: nat)
    requires Sorted(queries) && Sorted(values) && index < |queries| && i < |values|
    requires Passed(queries, values, index, i) && queries[index] < values[i]
    ensures Passed(queries, values, index + 1, i)
  {
    forall j | 0 <= j < |values| ensures values[j] != queries[index] {
      if j < i {
        assert values[j] <= values[i - 1];
      } else {
        assert values[i] <= values[j];
      }
    }
  }

  /** The inner loop: pass the queries below the value just read. */
  method Advance(queries: seq<nat>, value: nat, index0: nat, ghost values: seq<nat>,
        ghost i: nat) returns (index: nat, found: bool)
    requires Sorted(queries) && Sorted(values) && index0 <= |queries| && i < |values| && value == values[i]
    requires Passed(queries, values, index0, i)
    ensures index <= |queries|
            && if found then index < |queries| && queries[index] == value else Passed(queries, values, index, i + 1)
  {
    index := index0;
    while true
      invariant index <= |queries| && Passed(queries, values, index, i)
      decreases |queries| - index
    {
      if index == |queries| {
        return index, false;
      } else if queries[index] == value {
        return index, true;
      } else if queries[index] > value {
        return index, false;
      }
      Between(queries, values, index, i);
      index := index + 1;
    }
  }

  lemma PassedStart(queries: seq<nat>, values: seq<nat>)
    ensures Passed(queries, values, 0, 0)
  {
  }

  lemma EncodedStart(p: nat, values: seq<nat>)
    requires Sorted(values)
    ensures Encoded(p, values, 0) == []
  {
  }

  lemma DeltaFits(values: seq<nat>, i: nat)
    requires Sorted(values) && i < |values| && forall v :: v in values ==> v < WORD64
    ensures LastOf(values, i) <= values[i] < WORD64
  {
    assert values[i] in values;
  }

  lemma SameMeets(xs: seq<nat>, ys: seq<nat>, zs: seq<nat>)
    requires forall y :: y in ys <==> y in zs
    ensures Meets(xs, ys) <==> Meets(xs, zs)
  {
  }

  lemma Met(queries: seq<nat>, values: seq<nat>, index: nat, i: nat)
    requires index < |queries| && i < |values| && queries[index] == values[i]
    ensures Meets(queries, values)
  {
    assert queries[index] in queries && queries[index] in values;
  }

  lemma NoneLeft(queries: seq<nat>, values: seq<nat>, i: nat)
    requires i <= |values| && Passed(queries, values, |queries|, i)
    ensures !Meets(queries, values)
  {
  }

  lemma PassedAll(queries: seq<nat>, values: seq<nat>, index: nat)
    requires Sorted(queries) && Sorted(values) && index <= |queries| && Passed(queries, values, index, |values|)
    ensures !Meets(queries, values)
  {
  }

  /** No false negatives: queries that share an element with the filter meet it. */
  lemma SharedElementMeets(hash: Element -> nat, f: nat, elements: seq<Element>, others: seq<Element>, e: Element)
    requires f < WORD64 && e in elements && e in others
    ensures Meets(Hashes(hash, f, others), Hashes(hash, f, elements))
  {
    hide Range;
    var i :| 0 <= i < |elements| && elements[i] == e;
    var j :| 0 <= j < |others| && others[j] == e;
    Met(Hashes(hash, f, others), Hashes(hash, f, elements), j, i);
  }
}
