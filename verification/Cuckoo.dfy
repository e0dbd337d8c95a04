/** The cuckoo cache: eight possible places for every element, a displacement chain of bounded
    length on insertion, lazy erasure by flags, and two generations ("epochs") of elements. */
module Cuckoo {
  import opened Common
  import opened Numbers

  type Element = nat
  const BLANK: Element := 0

  // ---------------------------------------------------------------------
  // Flags, eight to a byte
  // ---------------------------------------------------------------------

  function Mask(k: nat): bv8
    requires k < 8
  {
    1 << k
  }

  predicate Bit(x: bv8, k: nat)
    requires k < 8
  {
    Mask(k) & x != 0
  }

  lemma SetBit(x: bv8, j: nat, k: nat)
    requires j < 8 && k < 8
    ensures Bit(x | Mask(k), j) == (j == k || Bit(x, j))
  {
    MaskNonzero(j);
    if j != k {
      MasksDisjoint(j, k);
    }
  }

  lemma UnsetBit(x: bv8, j: nat, k: nat)
    requires j < 8 && k < 8
    ensures Bit(x & !Mask(k), j) == (j != k && Bit(x, j))
  {
    if j != k {
      MasksDisjoint(j, k);
      assert Mask(j) & (x & !Mask(k)) == Mask(j) & x;
    }
  }

  lemma MaskNonzero(k: nat)
    requires k < 8
    ensures Mask(k) != 0
  {
    if k == 0 {} else if k == 1 {} else if k == 2 {} else if k == 3 {}
    else if k == 4 {} else if k == 5 {} else if k == 6 {}
  }

  lemma MasksDisjoint(j: nat, k: nat)
    requires j < 8 && k < 8 && j != k
    ensures Mask(j) & Mask(k) == 0
  {
    assert Mask(0) == 1 && Mask(1) == 2 && Mask(2) == 4 && Mask(3) == 8;
    assert Mask(4) == 16 && Mask(5) == 32 && Mask(6) == 64 && Mask(7) == 128;
  }

  /** The flags that the bytes stand for. */
  function Unpack(mem: seq<bv8>): (flags: seq<bool>)
    ensures |flags| == 8 * |mem|
    ensures forall i :: 0 <= i < 8 * |mem| ==> flags[i] == Bit(mem[i / 8], i % 8)
  {
    seq(8 * |mem|, i requires 0 <= i < 8 * |mem| => Bit(mem[i / 8], i % 8))
  }

  lemma UnpackPut(mem: seq<bv8>, s: nat, x: bv8, v: bool)
    requires s < 8 * |mem|
    requires forall j :: 0 <= j < 8 ==> Bit(x, j) == if j == s % 8 then v else Bit(mem[s / 8], j)
    ensures Unpack(mem[s / 8 := x]) == Unpack(mem)[s := v]
  {
    hide Bit;
    var got, want := Unpack(mem[s / 8 := x]), Unpack(mem)[s := v];
    forall i | 0 <= i < 8 * |mem| ensures got[i] == want[i] {
      assert i / 8 == s / 8 && i % 8 == s % 8 ==> i == s;
    }
  }

  class BitPackedFlags {
    const mem: array<bv8>

    ghost function Flags(): (flags: seq<bool>)
      reads mem
      ensures |flags| == 8 * mem.Length
    {
      Unpack(mem[..])
    }

    constructor (size: nat)
      ensures fresh(mem) && size <= 8 * mem.Length < size + 8
      ensures forall i :: 0 <= i < |Flags()| ==> Flags()[i]
    {
      mem := new bv8[(size + 7) / 8](_ => 0xFF);
      new;
      assert forall k :: 0 <= k < 8 ==> Bit(0xFF, k) by {
        forall k | 0 <= k < 8 ensures Bit(0xFF, k) { MaskNonzero(k); }
      }
    }

    method BitSet(s: nat)
      requires s < 8 * mem.Length
      modifies mem
      ensures Flags() == old(Flags())[s := true]
    {
      hide Bit;
      ghost var was := mem[..];
      var x := mem[s / 8] | Mask(s % 8);
      forall j | 0 <= j < 8 ensures Bit(x, j) == if j == s % 8 then true else Bit(was[s / 8], j) {
        SetBit(was[s / 8], j, s % 8);
      }
      UnpackPut(was, s, x, true);
      mem[s / 8] := x;
      assert mem[..] == was[s / 8 := x];
    }

    method BitUnset(s: nat)
      requires s < 8 * mem.Length
      modifies mem
      ensures Flags() == old(Flags())[s := false]
    {
      hide Bit;
      ghost var was := mem[..];
      var x := mem[s / 8] & !Mask(s % 8);
      forall j | 0 <= j < 8 ensures Bit(x, j) == if j == s % 8 then false else Bit(was[s / 8], j) {
        UnsetBit(was[s / 8], j, s % 8);
      }
      UnpackPut(was, s, x, false);
      mem[s / 8] := x;
      assert mem[..] == was[s / 8 := x];
    }

    method BitIsSet(s: nat) returns (set_: bool)
      requires s < 8 * mem.Length
      ensures set_ == Flags()[s]
    {
      set_ := Mask(s % 8) & mem[s / 8] != 0;
    }
  }

  // ---------------------------------------------------------------------
  // The table on values
  // ---------------------------------------------------------------------

  /** A 32-bit hash read as a fraction of `size`. */
  function Place(hash: nat, size: nat): (loc: nat)
    requires hash < WORD && size > 0
    ensures loc < size
  {
    ScaledBelow(hash, size, WORD);
    hash * size / WORD
  }

  /** The eight hash functions, as one arbitrary function. */
  type Hasher = (nat, Element) -> nat

  function HashWord(h: Hasher, k: nat, e: Element): (w: nat)
    ensures w < WORD
  {
    h(k, e) % WORD
  }

  /** compute_hashes */
  function Locs(h: Hasher, size: nat, e: Element): (locs: seq<nat>)
    requires size > 0
    ensures |locs| == 8 && forall k :: 0 <= k < 8 ==> locs[k] < size
  {
    seq<nat>(8, k requires 0 <= k < 8 => Place(HashWord(h, k, e), size))
  }

  datatype Store = Store(table: seq<Element>, flags: seq<bool>, epochs: seq<bool>)

  predicate Sized(s: Store) { |s.table| == |s.flags| == |s.epochs| > 0 }

  /** Every element that is not blank, or not erasable, is at one of its own places. */
  ghost predicate Homed(h: Hasher, s: Store)
    requires Sized(s)
  {
    forall i :: 0 <= i < |s.table| && (s.table[i] != BLANK || !s.flags[i]) ==> i in Locs(h, |s.table|, s.table[i])
  }

  ghost predicate Unique(table: seq<Element>) {
    forall i, j :: 0 <= i < j < |table| && table[i] != BLANK ==> table[i] != table[j]
  }

  ghost predicate StoreOk(h: Hasher, s: Store) { Sized(s) && Homed(h, s) && Unique(s.table) }

  ghost predicate Absent(table: seq<Element>, e: Element) { e != BLANK ==> e !in table }

  /** What the table holds, and the part of it that may not be overwritten. */
  ghost function Held(s: Store): set<Element> { set i | 0 <= i < |s.table| :: s.table[i] }

  ghost function Live(s: Store): set<Element>
    requires Sized(s)
  {
    set i | 0 <= i < |s.table| && !s.flags[i] :: s.table[i]
  }

  function IsRecent(s: Store, i: nat): nat
    requires Sized(s) && i < |s.table|
  {
    if s.epochs[i] && !s.flags[i] then 1 else 0
  }

  /** The number of live elements of the current epoch among the first `n` slots. */
  function Recent(s: Store, n: nat): nat
    requires Sized(s) && n <= |s.table|
  {
    if n == 0 then 0 else Recent(s, n - 1) + IsRecent(s, n - 1)
  }

  lemma RecentNone(s: Store)
    requires Sized(s)
    ensures Recent(s, 0) == 0
  {
  }

  lemma RecentNext(s: Store, n: nat)
    requires Sized(s) && n < |s.table|
    ensures Recent(s, n + 1) == Recent(s, n) + if s.epochs[n] && !s.flags[n] then 1 else 0
  {
  }

  /** Store `e` at `loc` and keep it. */
  function Put(s: Store, loc: nat, e: Element, epoch: bool): Store
    requires Sized(s) && loc < |s.table|
  {
    Store(s.table[loc := e], s.flags[loc := false], s.epochs[loc := epoch])
  }

  lemma {:induction false} RecentAgrees(s: Store, s': Store, n: nat)
    requires Sized(s) && Sized(s') && n <= |s.table| && n <= |s'.table|
    requires forall i :: 0 <= i < n ==> IsRecent(s, i) == IsRecent(s', i)
    ensures Recent(s, n) == Recent(s', n)
  {
    if n > 0 {
      RecentAgrees(s, s', n - 1);
    }
  }

  /** One slot changes. */
  lemma {:induction false} RecentPut(s: Store, s': Store, loc: nat, n: nat)
    requires Sized(s) && Sized(s') && |s'.table| == |s.table| && loc < n <= |s.table|
    requires forall i :: 0 <= i < n && i != loc ==> IsRecent(s, i) == IsRecent(s', i)
    ensures Recent(s', n) == Recent(s, n) - IsRecent(s, loc) + IsRecent(s', loc)
  {
    if n - 1 == loc {
      RecentAgrees(s, s', n - 1);
    } else {
      RecentPut(s, s', loc, n - 1);
    }
  }

  lemma PutOk(h: Hasher, s: Store, loc: nat, e: Element, epoch: bool)
    requires StoreOk(h, s) && loc in Locs(h, |s.table|, e) && loc < |s.table|
    requires Absent(s.table, e) || s.table[loc] == e
    ensures StoreOk(h, Put(s, loc, e, epoch))
    ensures Absent(s.table, e) ==> Absent(Put(s, loc, e, epoch).table, s.table[loc])
  {
  }

  /** Into an erasable slot, or over the element itself: nothing live is lost. */
  lemma PutFree(s: Store, loc: nat, e: Element, epoch: bool)
    requires Sized(s) && loc < |s.table| && (s.flags[loc] || s.table[loc] == e)
    ensures var s' := Put(s, loc, e, epoch);
      Live(s') == Live(s) + {e} && Held(s') + {s.table[loc]} == Held(s) + {e}
        && Recent(s', |s.table|) <= Recent(s, |s.table|) + if epoch then 1 else 0
  {
    var s' := Put(s, loc, e, epoch);
    RecentPut(s, s', loc, |s.table|);
    LivePut(s, loc, e, epoch);
    HeldPut(s, loc, e, epoch);
    assert e in Live(s') by { assert !s'.flags[loc]; }
    forall x | x in Live(s) ensures x in Live(s') {
      var i :| 0 <= i < |s.table| && !s.flags[i] && s.table[i] == x;
      assert s'.table[i] == x && !s'.flags[i];
    }
  }

  /** Into a live slot: the displaced element takes the place of the new one outside the table. */
  lemma PutSwap(s: Store, loc: nat, e: Element, epoch: bool)
    requires Sized(s) && loc < |s.table| && !s.flags[loc]
    ensures var s' := Put(s, loc, e, epoch);
      && Live(s') + {s.table[loc]} == Live(s) + {e} && Held(s') + {s.table[loc]} == Held(s) + {e}
      && Recent(s', |s.table|) + (if s.epochs[loc] then 1 else 0) == Recent(s, |s.table|) + (if epoch then 1 else 0)
  {
    var s' := Put(s, loc, e, epoch);
    RecentPut(s, s', loc, |s.table|);
    LivePut(s, loc, e, epoch);
    HeldPut(s, loc, e, epoch);
    assert s.table[loc] in Live(s);
  }

  lemma LivePut(s: Store, loc: nat, e: Element, epoch: bool)
    requires Sized(s) && loc < |s.table|
    ensures var s' := Put(s, loc, e, epoch);
      e in Live(s') && Live(s') <= Live(s) + {e} && Live(s) <= Live(s') + {s.table[loc]}
  {
    var s' := Put(s, loc, e, epoch);
    assert s'.table[loc] == e && !s'.flags[loc];
    forall x | x in Live(s) ensures x in Live(s') + {s.table[loc]} {
      var i :| 0 <= i < |s.table| && !s.flags[i] && s.table[i] == x;
      assert i != loc ==> s'.table[i] == x && !s'.flags[i];
    }
  }

  lemma HeldPut(s: Store, loc: nat, e: Element, epoch: bool)
    requires Sized(s) && loc < |s.table|
    ensures Held(Put(s, loc, e, epoch)) + {s.table[loc]} == Held(s) + {e}
  {
    var s' := Put(s, loc, e, epoch);
    assert s'.table[loc] == e;
    forall x | x in Held(s) ensures x in Held(s') + {s.table[loc]} {
      var i :| 0 <= i < |s.table| && s.table[i] == x;
      assert i != loc ==> s'.table[i] == x;
    }
  }

  // ---------------------------------------------------------------------
  // Epochs
  // ---------------------------------------------------------------------

  /** The old epoch becomes erasable and the current one old. */
  function Aged(s: Store): Store
    requires Sized(s)
  {
    Store(s.table, seq(|s.flags|, i requires 0 <= i < |s.flags| => s.flags[i] || !s.epochs[i]),
      seq(|s.epochs|, _ => false))
  }

  /** The first `n` slots are aged. */
  ghost function AgedTo(s: Store, n: nat): (r: Store)
    requires Sized(s) && n <= |s.table|
    ensures Sized(r) && |r.table| == |s.table|
  {
    Store(s.table, seq(|s.flags|, i requires 0 <= i < |s.flags| => s.flags[i] || (i < n && !s.epochs[i])),
          seq(|s.epochs|, i requires 0 <= i < |s.epochs| => i >= n && s.epochs[i]))
  }

  lemma AgedStart(s: Store)
    requires Sized(s)
    ensures AgedTo(s, 0) == s
  {
  }

  lemma AgedNext(s: Store, n: nat)
    requires Sized(s) && n < |s.table|
    ensures var r := AgedTo(s, n);
      AgedTo(s, n + 1) == if r.epochs[n] then r.(epochs := r.epochs[n := false]) else r.(flags := r.flags[n := true])
  {
  }

  lemma AgedEnd(s: Store)
    requires Sized(s)
    ensures AgedTo(s, |s.table|) == Aged(s)
  {
  }

  function NextCounter(epochSize: nat, recent: nat): nat {
    if recent >= epochSize then epochSize else Max(1, Max(epochSize / 16, epochSize - recent))
  }

  /** epoch_check */
  function Checked(s: Store, counter: nat, epochSize: nat): Store
    requires Sized(s)
  {
    if counter == 0 && Recent(s, |s.table|) >= epochSize then Aged(s) else s
  }

  function CheckedCounter(s: Store, counter: nat, epochSize: nat): nat
    requires Sized(s)
  {
    if counter != 0 then counter - 1 else NextCounter(epochSize, Recent(s, |s.table|))
  }

  /** How many live elements an epoch can reach. */
  function EpochLimit(epochSize: nat): nat { epochSize + Max(1, epochSize / 16) }

  lemma {:induction false} RecentZero(s: Store, n: nat)
    requires Sized(s) && n <= |s.table| && forall i :: 0 <= i < n ==> !s.epochs[i]
    ensures Recent(s, n) == 0
  {
    if n > 0 {
      RecentZero(s, n - 1);
    }
  }

  /** After the check there is room for one more element in the epoch's budget; aging flags no
      element of the epoch that ends. */
  lemma CheckedOk(h: Hasher, s: Store, counter: nat, epochSize: nat)
    requires StoreOk(h, s) && Recent(s, |s.table|) + counter <= EpochLimit(epochSize)
    ensures var s' := Checked(s, counter, epochSize);
      && StoreOk(h, s') && s'.table == s.table
      && Recent(s', |s.table|) + CheckedCounter(s, counter, epochSize) + 1 <= EpochLimit(epochSize)
      && Live(s') <= Live(s)
      && (forall i :: 0 <= i < |s.table| && s.epochs[i] && !s.flags[i] ==> !s'.flags[i])
  {
    if counter == 0 && Recent(s, |s.table|) >= epochSize {
      RecentZero(Aged(s), |s.table|);
    }
  }

  // ---------------------------------------------------------------------
  // The cache
  // ---------------------------------------------------------------------

  /** std::find: the first place equal to `loc`, or the length. */
  function Find(locs: seq<nat>, loc: int): (k: nat)
    ensures k <= |locs| && (k < |locs| ==> locs[k] == loc) && forall j :: 0 <= j < k ==> locs[j] != loc
  {
    if locs == [] then 0 else if locs[0] == loc then 0 else 1 + Find(locs[1..], loc)
  }

  const INVALID := WORD - 1

  /** Where the next displacement strikes. */
  function NextLoc(locs: seq<nat>, lastLoc: int): (loc: nat)
    requires |locs| == 8
    ensures loc in locs
  {
    locs[(1 + Find(locs, lastLoc)) % 8]
  }

  /** The first displacement strikes the second place, although the source's comment names the first. */
  lemma FirstVictim(h: Hasher, size: nat, e: Element)
    requires 0 < size < WORD
    ensures NextLoc(Locs(h, size, e), INVALID) == Locs(h, size, e)[1]
  {
    assert Find(Locs(h, size, e), INVALID) == 8;
  }

  // ---------------------------------------------------------------------
  // The displacement chain
  // ---------------------------------------------------------------------

  /** None of the places may be overwritten. */
  ghost predicate Full(h: Hasher, s: Store, e: Element)
    requires Sized(s)
  {
    forall k :: 0 <= k < 8 ==> !s.flags[Locs(h, |s.table|, e)[k]]
  }

  /** The slots that are written while there is no free one for the element in hand, for at most `n` rounds. */
  ghost function Strikes(h: Hasher, s: Store, e: Element, epoch: bool, lastLoc: int, n: nat): seq<nat>
    requires Sized(s)
    decreases n
  {
    if n == 0 || !Full(h, s, e) then [] else
      var loc := NextLoc(Locs(h, |s.table|, e), lastLoc);
      [loc] + Strikes(h, Put(s, loc, e, epoch), s.table[loc], s.epochs[loc], loc, n - 1)
  }

  /** No slot is struck right after it was written. */
  ghost predicate AllMove(locs: seq<nat>) {
    forall i :: 0 <= i < |locs| - 1 ==> locs[i] != locs[i + 1]
  }

  /** The place `k` comes for the first time, and the next one is the same. */
  predicate Repeats(locs: seq<nat>, k: nat)
    requires |locs| == 8 && k < 7
  {
    locs[k + 1] == locs[k] && locs[k] !in locs[..k]
  }

  /** No element has a place that is repeated right after it comes first. */
  ghost predicate Restless(h: Hasher, size: nat)
    requires size > 0
  {
    forall x, k :: 0 <= k < 7 ==> !Repeats(Locs(h, size, x), k)
  }

  /** For every slot and any elements already used, as many as fill the table and one more, there is another that
      strikes that slot first. */
  ghost predicate Rich(h: Hasher, size: nat)
    requires size > 0
  {
    forall loc, used: set<Element> :: 0 <= loc < size && |used| <= size + 1 ==> Supplied(h, size, loc, used)
  }

  ghost predicate Supplied(h: Hasher, size: nat, loc: nat, used: set<Element>)
    requires size > 0
  {
    exists e :: StrikesFirst(h, size, e, loc, used)
  }

  ghost predicate StrikesFirst(h: Hasher, size: nat, e: Element, loc: nat, used: set<Element>)
    requires size > 0
  {
    e !in used && Locs(h, size, e)[1] == loc
  }

  /** The next strike goes elsewhere exactly if the place is not repeated where it comes first. */
  lemma NextLocStays(locs: seq<nat>, loc: nat)
    requires |locs| == 8 && loc in locs
    ensures NextLoc(locs, loc) == loc <==> Find(locs, loc) < 7 && Repeats(locs, Find(locs, loc))
  {
    var k := Find(locs, loc);
    assert k < 8;
    assert loc !in locs[..k];
    if k == 7 {
      assert locs[0] != loc;
    }
  }

  lemma StoreSized(h: Hasher, s: Store)
    requires StoreOk(h, s)
    ensures Sized(s) && |s.table| == |s.flags| == |s.epochs| > 0
  {
  }

  lemma NextLocBelow(h: Hasher, s: Store, e: Element, lastLoc: int) returns (loc: nat)
    requires Sized(s)
    ensures loc == NextLoc(Locs(h, |s.table|, e), lastLoc) && loc < |s.table| && loc in Locs(h, |s.table|, e)
  {
    loc := NextLoc(Locs(h, |s.table|, e), lastLoc);
  }

  lemma NotFull(h: Hasher, s: Store, e: Element, k: nat)
    requires Sized(s) && k < 8 && s.flags[Locs(h, |s.table|, e)[k]]
    ensures !Full(h, s, e)
  {
  }

  lemma IsFull(h: Hasher, s: Store, e: Element)
    requires Sized(s) && forall k :: 0 <= k < 8 ==> !s.flags[Locs(h, |s.table|, e)[k]]
    ensures Full(h, s, e)
  {
  }

  lemma StrikeOk(h: Hasher, s: Store, e: Element, epoch: bool, loc: nat)
    requires StoreOk(h, s) && Absent(s.table, e) && Full(h, s, e) && loc in Locs(h, |s.table|, e)
    ensures StoreOk(h, Put(s, loc, e, epoch)) && Absent(Put(s, loc, e, epoch).table, s.table[loc])
    ensures loc < |s.table| && !s.flags[loc] && loc in Locs(h, |s.table|, s.table[loc])
            && |Put(s, loc, e, epoch).table| == |s.table| && Sized(Put(s, loc, e, epoch))
  {
    assert !s.flags[loc];
    PutOk(h, s, loc, e, epoch);
  }

  lemma RestlessMoves(h: Hasher, size: nat, e: Element, loc: nat)
    requires size > 0 && Restless(h, size) && loc in Locs(h, size, e)
    ensures NextLoc(Locs(h, size, e), loc) != loc
  {
    hide Locs;
    NextLocStays(Locs(h, size, e), loc);
  }

  lemma AllMovePush(loc: nat, rest: seq<nat>)
    requires AllMove(rest) && (rest != [] ==> rest[0] != loc)
    ensures AllMove([loc] + rest)
  {
  }

  lemma FirstStrike(h: Hasher, s: Store, e: Element, epoch: bool, lastLoc: int, n: nat)
    requires Sized(s)
    ensures var strikes := Strikes(h, s, e, epoch, lastLoc, n);
      strikes != [] ==> strikes[0] == NextLoc(Locs(h, |s.table|, e), lastLoc)
  {
  }

  /** With such places no chain in a consistent table strikes the slot it has just written. */
  lemma {:induction false} ChainMoves(h: Hasher, s: Store, e: Element, epoch: bool, lastLoc: int, n: nat)
    requires StoreOk(h, s) && Absent(s.table, e) && Restless(h, |s.table|)
    ensures AllMove(Strikes(h, s, e, epoch, lastLoc, n))
    decreases n
  {
    hide *;
    StoreSized(h, s);
    if n > 0 && Full(h, s, e) {
      var loc := NextLocBelow(h, s, e, lastLoc);
      var s', x := Put(s, loc, e, epoch), s.table[loc];
      StrikeOk(h, s, e, epoch, loc);
      ChainMoves(h, s', x, s.epochs[loc], loc, n - 1);
      RestlessMoves(h, |s.table|, x, loc);
      FirstStrike(h, s', x, s.epochs[loc], loc, n - 1);
      AllMovePush(loc, Strikes(h, s', x, s.epochs[loc], loc, n - 1));
      StrikesAre(h, s, e, epoch, lastLoc, n);
    } else {
      NoStrikes(h, s, e, epoch, lastLoc, n);
    }
  }

  lemma StrikesAre(h: Hasher, s: Store, e: Element, epoch: bool, lastLoc: int, n: nat)
    requires Sized(s) && n > 0 && Full(h, s, e)
    ensures var loc := NextLoc(Locs(h, |s.table|, e), lastLoc);
      Strikes(h, s, e, epoch, lastLoc, n)
        == [loc] + Strikes(h, Put(s, loc, e, epoch), s.table[loc], s.epochs[loc], loc, n - 1)
  {
  }

  lemma NoStrikes(h: Hasher, s: Store, e: Element, epoch: bool, lastLoc: int, n: nat)
    requires Sized(s) && (n == 0 || !Full(h, s, e))
    ensures Strikes(h, s, e, epoch, lastLoc, n) == [] && AllMove(Strikes(h, s, e, epoch, lastLoc, n))
  {
  }

  ghost predicate Placed(h: Hasher, size: nat, t: seq<Element>, loc: nat, x: Element, e: Element)
    requires size > 0
  {
    && (forall i :: 0 <= i < |t| && i < size ==> i in Locs(h, size, t[i]) && t[i] != e)
    && (forall i, j :: 0 <= i < j < |t| ==> t[i] != t[j])
    && (forall i :: 0 <= i < |t| ==> (t[i] == x <==> i == loc))
  }

  lemma AnotherFirst(h: Hasher, size: nat, loc: nat, used: set<Element>) returns (e: Element)
    requires 0 <= loc < size && |used| <= size + 1 && Rich(h, size)
    ensures e !in used && Locs(h, size, e)[1] == loc && loc in Locs(h, size, e)
  {
    assert Supplied(h, size, loc, used);
    e :| StrikesFirst(h, size, e, loc, used);
  }

  lemma FewUsed(t: seq<Element>, x: Element, e: Element)
    ensures |SetOf(t) + {x, e}| <= |t| + 2 && forall y :: y in t ==> y in SetOf(t)
  {
    DistinctSize(t);
    assert |SetOf(t) + {x, e}| == |SetOf(t)| + |{x, e} - SetOf(t)|;
    SubsetSize({x, e} - SetOf(t), {x, e});
  }

  /** A table without a free slot, in which `x` is at `loc`. */
  lemma {:induction false} FillTable(h: Hasher, size: nat, loc: nat, x: Element, e: Element, n: nat)
    returns (t: seq<Element>)
    requires n <= size && size > 0 && Rich(h, size) && x != e && loc in Locs(h, size, x)
    ensures |t| == n && Placed(h, size, t, loc, x, e)
    decreases n
  {
    if n == 0 {
      return [];
    }
    hide Locs;
    hide Placed;
    hide Rich;
    var front := FillTable(h, size, loc, x, e, n - 1);
    var last := x;
    if n - 1 != loc {
      var used := SetOf(front) + {x, e};
      FewUsed(front, x, e);
      last := AnotherFirst(h, size, n - 1, used);
    }
    PlacedNext(h, size, front, loc, x, e, last);
    t := front + [last];
  }

  lemma PlacedNext(h: Hasher, size: nat, t: seq<Element>, loc: nat, x: Element, e: Element, last: Element)
    requires |t| < size && Placed(h, size, t, loc, x, e) && |t| in Locs(h, size, last) && last != e
    requires if |t| == loc then last == x else last != x && last !in t
    ensures Placed(h, size, t + [last], loc, x, e)
  {
    hide Locs;
    if |t| == loc {
      assert last !in t;
    }
  }

  /** The first strike of an insertion, and the second when the displaced element stays. */
  lemma FirstStrikes(h: Hasher, s: Store, e: Element, n: nat)
    requires Sized(s) && |s.table| < WORD && Full(h, s, e) && n >= 2
    requires var loc := Locs(h, |s.table|, e)[1]; var x := s.table[loc];
      Full(h, s, x) && NextLoc(Locs(h, |s.table|, x), loc) == loc
    ensures var loc := Locs(h, |s.table|, e)[1]; var strikes := Strikes(h, s, e, true, INVALID, n);
      |strikes| >= 2 && strikes[0] == strikes[1] == loc
  {
    FirstVictim(h, |s.table|, e);
    var loc := Locs(h, |s.table|, e)[1];
    var s' := Put(s, loc, e, true);
    assert Full(h, s', s.table[loc]);
    assert |Strikes(h, s', s.table[loc], s.epochs[loc], loc, n - 1)| >= 1;
  }

  /** An element that repeats a place makes some insertion strike the slot it has just written. */
  lemma ChainReturns(h: Hasher, size: nat, x: Element, k: nat) returns (s: Store, e: Element)
    requires 2 <= size < WORD && Rich(h, size) && k < 7 && Repeats(Locs(h, size, x), k)
    ensures |s.table| == size && StoreOk(h, s) && Absent(s.table, e)
    ensures !AllMove(Strikes(h, s, e, true, INVALID, 2))
  {
    var loc := Locs(h, size, x)[k];
    e := AnotherFirst(h, size, loc, {x});
    var t := FillTable(h, size, loc, x, e, size);
    s := Store(t, seq(size, _ => false), seq(size, _ => false));
    assert Find(Locs(h, size, x), loc) == k;
    NextLocStays(Locs(h, size, x), loc);
    FirstStrikes(h, s, e, 2);
  }

  ghost predicate Insertable(h: Hasher, size: nat, s: Store, e: Element) {
    Sized(s) && |s.table| == size && StoreOk(h, s) && Absent(s.table, e)
  }

  /** No insertion strikes the slot it has just written, if and only if no element repeats a place right after
      it comes first, provided that for each slot there are elements enough. */
  lemma ChainIff(h: Hasher, size: nat)
    requires 2 <= size < WORD && Rich(h, size)
    ensures (forall s, e, n :: Insertable(h, size, s, e) ==> AllMove(Strikes(h, s, e, true, INVALID, n))) <==>
      Restless(h, size)
  {
    if Restless(h, size) {
      forall s, e, n | Insertable(h, size, s, e) ensures AllMove(Strikes(h, s, e, true, INVALID, n)) {
        ChainMoves(h, s, e, true, INVALID, n);
      }
    } else {
      var x, k :| 0 <= k < 7 && Repeats(Locs(h, size, x), k);
      var s, e := ChainReturns(h, size, x, k);
      assert Insertable(h, size, s, e) && !AllMove(Strikes(h, s, e, true, INVALID, 2));
    }
  }

  lemma {:induction false} Above(used: set<Element>) returns (m: Element)
    ensures forall x :: x in used ==> x < m
    decreases |used|
  {
    m := 0;
    if used != {} {
      var x :| x in used;
      m := Above(used - {x});
      m := if m > x then m else x + 1;
      assert used == used - {x} + {x};
    }
  }

  /** There are such hashers: one that sends the elements to the two slots in turn. */
  lemma RichExample()
    ensures Rich((_, e) => if e % 2 == 0 then 0 else WORD - 1, 2)
  {
    var h: Hasher := (_, e) => if e % 2 == 0 then 0 else WORD - 1;
    forall loc, used: set<Element> | 0 <= loc < 2 ensures Supplied(h, 2, loc, used) {
      var m := Above(used);
      var e := 2 * m + loc;
      assert HashWord(h, 1, e) == if e % 2 == 0 then 0 else WORD - 1;
      assert StrikesFirst(h, 2, e, loc, used);
    }
  }

  /** Two elements with all their places at slot 0. */
  lemma ZeroHasherReturns(x: Element, e: Element)
    requires x != e && x != BLANK && e != BLANK
    ensures var s := Store([x, BLANK], [false, true], [true, false]);
      StoreOk((_, _) => 0, s) && Absent(s.table, e) && Strikes((_, _) => 0, s, e, true, INVALID, 2) == [0, 0]
  {
    var h: Hasher, s := (_, _) => 0, Store([x, BLANK], [false, true], [true, false]);
    forall y, k | 0 <= k < 8 ensures Locs(h, 2, y)[k] == 0 {
      assert HashWord(h, k, y) == 0;
    }
    assert Locs(h, 2, x)[0] == 0 && Locs(h, 2, e)[1] == 0;
    FirstStrikes(h, s, e, 2);
  }

  lemma NotFound(h: Hasher, s: Store, e: Element)
    requires StoreOk(h, s) && forall k :: 0 <= k < 8 ==> s.table[Locs(h, |s.table|, e)[k]] != e
    ensures Absent(s.table, e) && e !in Live(s)
  {
  }

  lemma ErasedOk(h: Hasher, s: Store, loc: nat)
    requires StoreOk(h, s) && loc < |s.table|
    ensures var s' := s.(flags := s.flags[loc := true]);
      && StoreOk(h, s') && Recent(s', |s.table|) <= Recent(s, |s.table|)
      && (s.table[loc] != BLANK ==> Live(s') == Live(s) - {s.table[loc]})
  {
    var s' := s.(flags := s.flags[loc := true]);
    RecentPut(s, s', loc, |s.table|);
    if s.table[loc] != BLANK {
      forall x | x in Live(s) && x != s.table[loc] ensures x in Live(s') {
        var i :| 0 <= i < |s.table| && !s.flags[i] && s.table[i] == x;
        assert !s'.flags[i];
      }
    }
  }

  /** During the chain the element in hand is the only one outside the table. */
  ghost predicate Carried(h: Hasher, s: Store, s': Store, e0: Element, e: Element, epoch: bool)
    requires Sized(s)
  {
    && StoreOk(h, s') && |s'.table| == |s.table| && s'.flags == s.flags && Absent(s'.table, e)
    && Live(s') + {e} == Live(s) + {e0} && Held(s') + {e} == Held(s) + {e0}
    && Recent(s', |s.table|) + (if epoch then 1 else 0) <= Recent(s, |s.table|) + 1
  }

  lemma CarriedStart(h: Hasher, s: Store, e: Element)
    requires StoreOk(h, s) && Absent(s.table, e)
    ensures Carried(h, s, s, e, e, true)
  {
  }

  lemma CarriedStrike(h: Hasher, s: Store, s': Store, e0: Element, e: Element, epoch: bool, loc: nat)
    requires Sized(s) && Sized(s') && |s.table| == |s'.table|
    requires Carried(h, s, s', e0, e, epoch) && Full(h, s', e) && loc in Locs(h, |s.table|, e)
    ensures !s'.flags[loc] && Carried(h, s, Put(s', loc, e, epoch), e0, s'.table[loc], s'.epochs[loc])
  {
    hide StoreOk;
    hide Absent;
    hide Held;
    hide Live;
    hide Recent;
    StrikeOk(h, s', e, epoch, loc);
    PutSwap(s', loc, e, epoch);
  }

  lemma CarriedFree(h: Hasher, s: Store, s': Store, e0: Element, e: Element, epoch: bool, loc: nat)
    requires Sized(s) && Sized(s') && |s.table| == |s'.table|
    requires Carried(h, s, s', e0, e, epoch) && loc in Locs(h, |s.table|, e) && s'.flags[loc]
    ensures var s'' := Put(s', loc, e, epoch);
      && StoreOk(h, s'') && Live(s'') == Live(s) + {e0} && Held(s'') + {s'.table[loc]} == Held(s) + {e0}
      && Recent(s'', |s.table|) <= Recent(s, |s.table|) + 1
  {
    hide StoreOk;
    hide Absent;
    hide Held;
    hide Live;
    hide Recent;
    PutOk(h, s', loc, e, epoch);
    PutFree(s', loc, e, epoch);
  }

  lemma CarriedEnd(h: Hasher, s: Store, s': Store, e0: Element, e: Element, epoch: bool)
    requires Sized(s) && Sized(s') && |s.table| == |s'.table| && Carried(h, s, s', e0, e, epoch)
    ensures StoreOk(h, s') && Live(s') + {e} == Live(s) + {e0} && Absent(s'.table, e)
            && Held(s') + {e} == Held(s) + {e0}
    ensures s'.flags == s.flags && Recent(s', |s.table|) <= Recent(s, |s.table|) + 1
  {
  }

  class Cache {
    const h: Hasher
    const size: nat
    const table: array<Element>
    const collectionFlags: BitPackedFlags
    const epochFlags: array<bool>
    const epochSize: nat
    const depthLimit: nat
    var epochHeuristicCounter: nat

    ghost predicate Shape() {
      && 2 <= size && table.Length == epochFlags.Length == size <= 8 * collectionFlags.mem.Length
      && depthLimit >= 1 && Apart()
    }

    ghost predicate Apart() {
      var t: object, m: object, e: object := table, collectionFlags.mem, epochFlags;
      t != m && t != e && m != e
    }

    ghost function S(): (s: Store)
      requires Shape()
      reads table, epochFlags, collectionFlags.mem
      ensures Sized(s) && |s.table| == size
    {
      Store(table[..], collectionFlags.Flags()[..size], epochFlags[..])
    }

    ghost predicate Valid()
      reads this, table, epochFlags, collectionFlags.mem
    {
      Shape() && StoreOk(h, S()) && Recent(S(), size) + epochHeuristicCounter <= EpochLimit(epochSize)
    }

    /** setup. The depth, the rounded logarithm of the size, is a parameter. */
    constructor (h: Hasher, newSize: nat, depthLimit: nat)
      requires newSize < WORD && depthLimit >= 1
      ensures Valid() && fresh(table) && fresh(epochFlags) && fresh(collectionFlags.mem)
      ensures size == Max(2, newSize) && epochSize == Max(1, 45 * size % WORD / 100) && Live(S()) == {}
      ensures this.h == h && this.depthLimit == depthLimit
    {
      this.h, this.depthLimit := h, depthLimit;
      size := Max(2, newSize);
      table := new Element[Max(2, newSize)](_ => BLANK);
      collectionFlags := new BitPackedFlags(Max(2, newSize));
      epochFlags := new bool[Max(2, newSize)](_ => false);
      epochSize := Max(1, 45 * Max(2, newSize) % WORD / 100);
      epochHeuristicCounter := Max(1, 45 * Max(2, newSize) % WORD / 100);
      new;
      RecentZero(S(), size);
    }

    method AllowErase(n: nat)
      requires Shape() && n < size
      modifies collectionFlags.mem
      ensures S() == old(S()).(flags := old(S()).flags[n := true])
    {
      collectionFlags.BitSet(n);
      assert collectionFlags.Flags()[..size] == old(collectionFlags.Flags())[..size][n := true];
    }

    method PleaseKeep(n: nat)
      requires Shape() && n < size
      modifies collectionFlags.mem
      ensures S() == old(S()).(flags := old(S()).flags[n := false])
    {
      collectionFlags.BitUnset(n);
      assert collectionFlags.Flags()[..size] == old(collectionFlags.Flags())[..size][n := false];
    }

    /** The scan of epoch_check. */
    method CountRecent() returns (count: nat)
      requires Shape()
      ensures count == Recent(S(), size)
    {
      hide Recent;
      ghost var s := S();
      RecentNone(s);
      count := 0;
      for i := 0 to size
        invariant count == Recent(s, i)
      {
        RecentNext(s, i);
        var erased := collectionFlags.BitIsSet(i);
        if epochFlags[i] && !erased {
          count := count + 1;
        }
      }
    }

    method Age()
      requires Shape()
      modifies epochFlags, collectionFlags.mem
      ensures S() == Aged(old(S()))
    {
      ghost var s := S();
      AgedStart(s);
      for i := 0 to size
        invariant S() == AgedTo(s, i)
      {
        ghost var before := S();
        hide AgedTo;
        AgedNext(s, i);
        if epochFlags[i] {
          epochFlags[i] := false;
          assert S() == before.(epochs := before.epochs[i := false]);
        } else {
          AllowErase(i);
        }
      }
      AgedEnd(s);
    }

    method EpochCheck()
      requires Valid()
      modifies this, epochFlags, collectionFlags.mem
      ensures S() == Checked(old(S()), old(epochHeuristicCounter), epochSize)
      ensures epochHeuristicCounter == CheckedCounter(old(S()), old(epochHeuristicCounter), epochSize)
    {
      if epochHeuristicCounter != 0 {
        epochHeuristicCounter := epochHeuristicCounter - 1;
        return;
      }
      var epochUnusedCount := CountRecent();
      if epochUnusedCount >= epochSize {
        Age();
        epochHeuristicCounter := epochSize;
      } else {
        epochHeuristicCounter := Max(1, Max(epochSize / 16, epochSize - epochUnusedCount));
      }
    }

    /** The first of the places at which `e` is found, or 8. */
    method FindElement(e: Element, locs: seq<nat>) returns (k: nat)
      requires Shape() && locs == Locs(h, size, e)
      ensures k <= 8 && (k < 8 ==> table[locs[k]] == e) && forall j :: 0 <= j < k ==> table[locs[j]] != e
    {
      k := 0;
      while k < 8 && table[locs[k]] != e
        invariant k <= 8 && forall j :: 0 <= j < k ==> table[locs[j]] != e
      {
        k := k + 1;
      }
    }

    /** The first of the places that may be overwritten, or 8. */
    method FindFree(locs: seq<nat>) returns (k: nat)
      requires Shape() && |locs| == 8 && forall j :: 0 <= j < 8 ==> locs[j] < size
      ensures k <= 8 && (k < 8 ==> S().flags[locs[k]]) && forall j :: 0 <= j < k ==> !S().flags[locs[j]]
    {
      k := 0;
      while k < 8
        invariant k <= 8 && forall j :: 0 <= j < k ==> !S().flags[locs[j]]
      {
        var free := collectionFlags.BitIsSet(locs[k]);
        if free {
          return;
        }
        k := k + 1;
      }
    }

    method Store_(loc: nat, e: Element, epoch: bool)
      requires Shape() && loc < size
      modifies table, epochFlags, collectionFlags.mem
      ensures S() == Put(old(S()), loc, e, epoch)
    {
      table[loc] := e;
      PleaseKeep(loc);
      epochFlags[loc] := epoch;
      assert table[..] == old(table[..])[loc := e] && epochFlags[..] == old(epochFlags[..])[loc := epoch];
    }

    /** Exchange `e` for the element at `loc`, with their epochs. */
    method Displace(loc: nat, e: Element, epoch: bool) returns (e': Element, epoch': bool)
      requires Shape() && loc < size && !S().flags[loc]
      modifies table, epochFlags
      ensures S() == Put(old(S()), loc, e, epoch) && e' == old(S()).table[loc] && epoch' == old(S()).epochs[loc]
      ensures S().flags == old(S()).flags
    {
      e', epoch' := table[loc], epochFlags[loc];
      table[loc], epochFlags[loc] := e, epoch;
      assert table[..] == old(table[..])[loc := e] && epochFlags[..] == old(epochFlags[..])[loc := epoch];
      assert S().flags == old(S()).flags[loc := false];
    }

    /** One round of the chain: into the first free place, if there is one. */
    method TryFree(e: Element, epoch: bool, ghost s: Store, ghost e0: Element, ghost lastLoc: int, ghost n: nat)
      returns (stored: bool, ghost gone: Element)
      requires Shape() && Sized(s) && |s.table| == size && Carried(h, s, S(), e0, e, epoch)
      modifies table, epochFlags, collectionFlags.mem
      ensures stored ==> StoreOk(h, S()) && Live(S()) == Live(s) + {e0} && Held(S()) + {gone} == Held(s) + {e0}
      ensures stored ==> Recent(S(), size) <= Recent(s, size) + 1 && Strikes(h, old(S()), e, epoch, lastLoc, n) == []
      ensures !stored ==> S() == old(S()) && Full(h, S(), e)
    {
      hide Carried;
      hide Strikes;
      hide Full;
      hide Live;
      hide Held;
      hide Recent;
      var locs := Locs(h, size, e);
      var free := FindFree(locs);
      stored, gone := free < 8, e;
      if stored {
        CarriedFree(h, s, S(), e0, e, epoch, locs[free]);
        gone := S().table[locs[free]];
        NotFull(h, S(), e, free);
        NoStrikes(h, S(), e, epoch, lastLoc, n);
        Store_(locs[free], e, epoch);
      } else {
        IsFull(h, S(), e);
      }
    }

    /** One round of the chain without a free place: exchange with the next place after the last one. */
    method Strike(e: Element, epoch: bool, lastLoc: int, ghost s: Store, ghost e0: Element, ghost n: nat)
      returns (e': Element, epoch': bool, loc: nat)
      requires Shape() && Sized(s) && |s.table| == size && Carried(h, s, S(), e0, e, epoch) && Full(h, S(), e) && n > 0
      modifies table, epochFlags
      ensures Carried(h, s, S(), e0, e', epoch')
      ensures Strikes(h, old(S()), e, epoch, lastLoc, n) == [loc] + Strikes(h, S(), e', epoch', loc, n - 1)
    {
      hide Carried;
      hide Strikes;
      StrikesAre(h, S(), e, epoch, lastLoc, n);
      loc := NextLoc(Locs(h, size, e), lastLoc);
      CarriedStrike(h, s, S(), e0, e, epoch, loc);
      e', epoch' := Displace(loc, e, epoch);
    }

    /** The displacement chain for an element that is not in the table; `gone` and `dropped` as for Insert. */
    method InsertAbsent(e0: Element) returns (ghost gone: Element, ghost dropped: bool, ghost strikes: seq<nat>)
      requires Shape() && StoreOk(h, S()) && Absent(S().table, e0)
      modifies table, epochFlags, collectionFlags.mem
      ensures StoreOk(h, S()) && Held(S()) + {gone} == Held(old(S())) + {e0}
      ensures !dropped ==> Live(S()) == Live(old(S())) + {e0}
      ensures dropped ==> Live(S()) + {gone} == Live(old(S())) + {e0} && Absent(S().table, gone)
      ensures dropped ==> S().flags == old(S()).flags && Full(h, old(S()), e0)
      ensures dropped <==> |strikes| == depthLimit
      ensures Recent(S(), size) <= Recent(old(S()), size) + 1
      ensures strikes == Strikes(h, old(S()), e0, true, INVALID, depthLimit)
    {
      hide Carried;
      hide Strikes;
      hide Full;
      hide Locs;
      hide NextLoc;
      hide Live;
      hide Held;
      hide Recent;
      ghost var s := S();
      CarriedStart(h, s, e0);
      var e, lastLoc, lastEpoch := e0, INVALID, true;
      strikes := [];
      for depth := 0 to depthLimit
        invariant Carried(h, s, S(), e0, e, lastEpoch)
        invariant if depth == 0 then e == e0 && S() == s else Full(h, s, e0)
        invariant |strikes| == depth
        invariant strikes + Strikes(h, S(), e, lastEpoch, lastLoc, depthLimit - depth)
          == Strikes(h, s, e0, true, INVALID, depthLimit)
      {
        var stored;
        stored, gone := TryFree(e, lastEpoch, s, e0, lastLoc, depthLimit - depth);
        if stored {
          return gone, false, strikes;
        }
        e, lastEpoch, lastLoc := Strike(e, lastEpoch, lastLoc, s, e0, depthLimit - depth);
        strikes := strikes + [lastLoc];
      }
      NoStrikes(h, S(), e, lastEpoch, lastLoc, 0);
      CarriedEnd(h, s, S(), e0, e, lastEpoch);
      return e, true, strikes;
    }

    /** `gone` is what is no longer in the table: an element that was erasable, when the insertion
        ends at an erasable slot, or, when the depth runs out (`dropped`), the last displaced one.
        An element with an erasable place of its own is never dropped. */
    method Insert(e: Element) returns (ghost gone: Element, ghost dropped: bool)
      requires Valid()
      modifies this, table, epochFlags, collectionFlags.mem
      ensures Valid()
      ensures var s := Checked(old(S()), old(epochHeuristicCounter), epochSize);
        && Held(S()) + {gone} == Held(s) + {e}
        && (!dropped ==> Live(S()) == Live(s) + {e})
        && (dropped ==> Live(S()) + {gone} == Live(s) + {e} && Absent(S().table, gone))
        && (dropped ==> S().flags == s.flags && Full(h, s, e))
    {
      hide Held;
      hide Live;
      hide Recent;
      CheckedOk(h, S(), epochHeuristicCounter, epochSize);
      EpochCheck();
      var locs := Locs(h, size, e);
      var k := FindElement(e, locs);
      if k < 8 {
        PutOk(h, S(), locs[k], e, true);
        PutFree(S(), locs[k], e, true);
        ghost var put := Put(S(), locs[k], e, true);
        PleaseKeep(locs[k]);
        epochFlags[locs[k]] := true;
        assert S().epochs == put.epochs && S().table == put.table;
        return e, false;
      }
      NotFound(h, S(), e);
      ghost var strikes;
      gone, dropped, strikes := InsertAbsent(e);
    }

    /** Garbage is found too; erasing only flags it. */
    method Contains(e: Element, erase: bool) returns (found: bool)
      requires Valid()
      modifies collectionFlags.mem
      ensures Valid() && S().table == old(S()).table && S().epochs == old(S()).epochs
      ensures e != BLANK ==> (found <==> e in S().table)
      ensures e in Live(old(S())) ==> found
      ensures erase && e != BLANK ==> Live(S()) == Live(old(S())) - {e}
      ensures !erase || !found ==> S() == old(S())
    {
      hide Recent;
      var locs := Locs(h, size, e);
      var k := FindElement(e, locs);
      found := k < 8;
      if found {
        if erase {
          ErasedOk(h, S(), locs[k]);
          AllowErase(locs[k]);
        }
      } else {
        NotFound(h, S(), e);
      }
    }
  }
}
