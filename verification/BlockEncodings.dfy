/** Compact block relay: positions of prefilled transactions and short ids, reconstruction from the
    pool, and the differential coding of index lists. */
module BlockEncodings {
  import opened Common

  /** A transaction; the pool and the list of extra transactions pair it with the hash that its short id is made
      from. */
  datatype Tx = Tx(witnessHash: nat, isNull: bool, body: nat)
  datatype Candidate = Candidate(hash: nat, tx: Tx)
  datatype Prefilled = Prefilled(index: nat, tx: Tx)
  datatype Status = OK | INVALID | FAILED | CHECKBLOCK_FAILED

  type Slots = seq<Option<Tx>>
  type Header = nat

  datatype CompactBlock = CompactBlock(header: Option<Header>, shorttxids: seq<nat>, prefilledtxn: seq<Prefilled>) {
    function BlockTxCount(): nat { |shorttxids| + |prefilledtxn| }
  }

  const MAX_TXS := 80000000 / 40
  const MAX_INDEX := 0xFFFF

  // ---------------------------------------------------------------------
  // Free positions
  // ---------------------------------------------------------------------

  /** The positions below `n` that hold nothing, in order. */
  function Free(a: Slots, n: nat): (r: seq<nat>)
    requires n <= |a|
    ensures |r| <= n && forall i :: 0 <= i < |r| ==> r[i] < n && a[r[i]].None?
  {
    if n == 0 then [] else Free(a, n - 1) + if a[n - 1].None? then [n - 1] else []
  }

  lemma FreeStart(a: Slots)
    ensures Free(a, 0) == []
  {
  }

  lemma FreeNext(a: Slots, n: nat)
    requires n < |a|
    ensures |Free(a, n + 1)| == |Free(a, n)| + if a[n].None? then 1 else 0
  {
  }

  lemma {:induction false} FreeHas(a: Slots, n: nat, j: nat)
    requires j < n <= |a| && a[j].None?
    ensures |Free(a, j)| < |Free(a, n)| && Free(a, n)[|Free(a, j)|] == j
    decreases n
  {
    if j < n - 1 {
      FreeHas(a, n - 1, j);
    }
  }

  lemma {:induction false} FreeGrows(a: Slots, m: nat, n: nat)
    requires m <= n <= |a|
    ensures |Free(a, m)| <= |Free(a, n)|
    decreases n
  {
    if m < n {
      FreeGrows(a, m, n - 1);
    }
  }

  /** One more position taken, or given back. */
  lemma {:induction false} FreeSet(a: Slots, j: nat, v: Option<Tx>, n: nat)
    requires j < |a| && n <= |a|
    ensures |Free(a[j := v], n)|
      == |Free(a, n)| + if j >= n || a[j].None? == v.None? then 0 else if v.None? then 1 else -1
  {
    if n > 0 {
      FreeSet(a, j, v, n - 1);
    }
  }

  lemma {:induction false} FreeAll(n: nat)
    ensures |Free(seq(n, _ => None), n)| == n
  {
    FreeOfNone(seq(n, _ => None), n);
  }

  lemma {:induction false} FreeOfNone(a: Slots, n: nat)
    requires n <= |a| && forall j :: 0 <= j < n ==> a[j].None?
    ensures |Free(a, n)| == n
  {
    if n > 0 {
      FreeOfNone(a, n - 1);
    }
  }

  // ---------------------------------------------------------------------
  // Prefilled transactions
  // ---------------------------------------------------------------------

  /** The position of the `i`th prefilled transaction: indexes are relative to the one before. */
  function Position(pre: seq<Prefilled>, i: nat): int
    requires i <= |pre|
  {
    if i == 0 then -1 else Position(pre, i - 1) + pre[i - 1].index + 1
  }

  /** What the source accepts as the `i`th prefilled transaction beside `s` short ids. */
  predicate OneOk(pre: seq<Prefilled>, s: nat, i: nat)
    requires i < |pre|
  {
    !pre[i].tx.isNull && Position(pre, i + 1) <= MAX_INDEX && Position(pre, i + 1) <= s + i
  }

  predicate PrefilledOk(pre: seq<Prefilled>, s: nat, n: nat)
    requires n <= |pre|
  {
    forall i :: 0 <= i < n ==> OneOk(pre, s, i)
  }

  lemma {:induction false} PositionRises(pre: seq<Prefilled>, i: nat, j: nat)
    requires i < j <= |pre|
    ensures -1 <= Position(pre, i) < Position(pre, j)
    decreases j
  {
    if i < j - 1 {
      PositionRises(pre, i, j - 1);
    } else if i > 0 {
      PositionRises(pre, 0, i);
    }
  }

  /** The slots after the first `n` prefilled transactions are put in place. */
  ghost function Placed(pre: seq<Prefilled>, s: nat, n: nat): (a: Slots)
    requires n <= |pre| && PrefilledOk(pre, s, n)
    ensures |a| == s + |pre|
  {
    if n == 0 then seq(s + |pre|, _ => None) else
      PositionRises(pre, 0, n);
      assert OneOk(pre, s, n - 1);
      Placed(pre, s, n - 1)[Position(pre, n) := Some(pre[n - 1].tx)]
  }

  lemma {:induction false} PlacedAt(pre: seq<Prefilled>, s: nat, n: nat, j: nat)
    requires n <= |pre| && PrefilledOk(pre, s, n) && j < s + |pre|
    ensures j > Position(pre, n) ==> Placed(pre, s, n)[j].None?
    ensures Placed(pre, s, n)[j].Some? ==>
      exists i :: 0 <= i < n && j == Position(pre, i + 1) && Placed(pre, s, n)[j] == Some(pre[i].tx)
    decreases n
  {
    if n > 0 {
      PositionRises(pre, n - 1, n);
      PlacedAt(pre, s, n - 1, j);
      if j == Position(pre, n) {
        assert j == Position(pre, n - 1 + 1) && Placed(pre, s, n)[j] == Some(pre[n - 1].tx);
      } else if Placed(pre, s, n)[j].Some? {
        var i :| 0 <= i < n - 1 && j == Position(pre, i + 1) && Placed(pre, s, n - 1)[j] == Some(pre[i].tx);
        assert j == Position(pre, i + 1) && Placed(pre, s, n)[j] == Some(pre[i].tx);
      }
    }
  }

  /** As many positions stay free as there are short ids. */
  lemma {:induction false} PlacedFree(pre: seq<Prefilled>, s: nat, n: nat)
    requires n <= |pre| && PrefilledOk(pre, s, n)
    ensures |Free(Placed(pre, s, n), s + |pre|)| == s + |pre| - n
    decreases n
  {
    if n == 0 {
      FreeAll(s + |pre|);
    } else {
      PlacedFree(pre, s, n - 1);
      PositionRises(pre, n - 1, n);
      assert OneOk(pre, s, n - 1);
      PlacedAt(pre, s, n - 1, Position(pre, n));
      FreeSet(Placed(pre, s, n - 1), Position(pre, n), Some(pre[n - 1].tx), s + |pre|);
    }
  }

  // ---------------------------------------------------------------------
  // What the slots may hold
  // ---------------------------------------------------------------------

  type ShortId = nat -> nat

  /** The short id announced for the free position `j`. */
  ghost function IdAt(placed: Slots, ids: seq<nat>, j: nat): nat
    requires j < |placed| && placed[j].None? && |Free(placed, |placed|)| == |ids|
  {
    FreeHas(placed, |placed|, j);
    ids[|Free(placed, j)|]
  }

  ghost predicate Offered(sid: ShortId, offered: seq<Candidate>, id: nat, tx: Tx) {
    exists c :: c in offered && c.tx == tx && sid(c.hash) == id
  }

  /** Prefilled positions hold their transaction; any other holds nothing, or something offered under its short id. */
  ghost predicate SlotsOk(placed: Slots, ids: seq<nat>, sid: ShortId, offered: seq<Candidate>, a: Slots)
    requires |Free(placed, |placed|)| == |ids|
  {
    && |a| == |placed|
    && (forall j :: 0 <= j < |a| && placed[j].Some? ==> a[j] == placed[j])
    && (forall j :: 0 <= j < |a| && placed[j].None? && a[j].Some? ==>
         Offered(sid, offered, IdAt(placed, ids, j), a[j].value))
  }

  /** Every short id is mapped to the free position it was announced for, and nothing else is. */
  ghost predicate MapOk(placed: Slots, ids: seq<nat>, m: map<nat, nat>)
    requires |Free(placed, |placed|)| == |ids|
  {
    && (forall i :: 0 <= i < |ids| ==> ids[i] in m && m[ids[i]] == Free(placed, |placed|)[i])
    && (forall id :: id in m ==> m[id] < |placed| && placed[m[id]].None? && IdAt(placed, ids, m[id]) == id)
  }

  /** The `i`th free position. */
  lemma FreeRank(placed: Slots, i: nat)
    requires i < |Free(placed, |placed|)|
    ensures var j := Free(placed, |placed|)[i]; j < |placed| && placed[j].None? && |Free(placed, j)| == i
  {
    FreeRankBelow(placed, |placed|, i);
  }

  lemma {:induction false} FreeRankBelow(placed: Slots, n: nat, i: nat)
    requires n <= |placed| && i < |Free(placed, n)|
    ensures |Free(placed, Free(placed, n)[i])| == i
    decreases n
  {
    if i < |Free(placed, n - 1)| {
      FreeRankBelow(placed, n - 1, i);
    }
  }

  lemma PositionStart(pre: seq<Prefilled>)
    ensures Position(pre, 0) == -1
  {
  }

  lemma PositionNext(pre: seq<Prefilled>, i: nat)
    requires i < |pre|
    ensures Position(pre, i + 1) == Position(pre, i) + pre[i].index + 1
  {
  }

  lemma PrefilledStart(pre: seq<Prefilled>, s: nat)
    ensures PrefilledOk(pre, s, 0)
  {
  }

  lemma PrefilledNext(pre: seq<Prefilled>, s: nat, i: nat)
    requires i < |pre|
    ensures PrefilledOk(pre, s, i + 1) <==> PrefilledOk(pre, s, i) && OneOk(pre, s, i)
    ensures PrefilledOk(pre, s, |pre|) ==> PrefilledOk(pre, s, i + 1)
  {
    hide OneOk;
  }

  method PlaceAll(pre: seq<Prefilled>, s: nat) returns (ok: bool, a: Slots)
    ensures ok <==> PrefilledOk(pre, s, |pre|)
    ensures ok ==> a == Placed(pre, s, |pre|)
  {
    hide Position;
    hide PrefilledOk;
    PositionStart(pre);
    PrefilledStart(pre, s);
    a := seq(s + |pre|, _ => None);
    var last := -1;
    for i := 0 to |pre|
      invariant PrefilledOk(pre, s, i) && last == Position(pre, i) && a == Placed(pre, s, i)
    {
      PrefilledNext(pre, s, i);
      if pre[i].tx.isNull {
        return false, a;
      }
      PositionRises(pre, 0, i + 1);
      PositionNext(pre, i);
      last := last + pre[i].index + 1;
      if last > MAX_INDEX {
        return false, a;
      }
      if last > s + i {
        return false, a;
      }
      a := a[last := Some(pre[i].tx)];
    }
    ok := true;
  }

  /** The first `i` ids are mapped, if no two are equal to the first `i` of the positions `free`. */
  ghost predicate Mapping(free: seq<nat>, ids: seq<nat>, m: map<nat, nat>, i: nat)
    requires |free| == |ids| && i <= |ids|
  {
    m.Keys == SetOf(ids[..i]) && (Distinct(ids) ==> forall k :: 0 <= k < i ==> ids[k] in m && m[ids[k]] == free[k])
  }

  lemma MappingNext(free: seq<nat>, ids: seq<nat>, m: map<nat, nat>, i: nat)
    requires |free| == |ids| && i < |ids| && Mapping(free, ids, m, i)
    ensures Mapping(free, ids, m[ids[i] := free[i]], i + 1)
  {
    hide SetOf;
    assert ids[..i + 1] == ids[..i] + [ids[i]];
    SetOfNext(ids[..i], ids[i]);
  }

  lemma MappingDone(placed: Slots, ids: seq<nat>, m: map<nat, nat>)
    requires var free := Free(placed, |placed|); |free| == |ids| && Mapping(free, ids, m, |ids|) && Distinct(ids)
    ensures MapOk(placed, ids, m)
  {
    hide Free;
    assert ids[..|ids|] == ids;
    forall id | id in m ensures m[id] < |placed| && placed[m[id]].None? && IdAt(placed, ids, m[id]) == id {
      var k :| 0 <= k < |ids| && ids[k] == id;
      FreeRank(placed, k);
    }
  }

  /** While ids are left to map, the search for the next free position stays inside the block. */
  lemma InRange(placed: Slots, pos: nat, i: nat)
    requires pos <= |placed| && |Free(placed, pos)| == i < |Free(placed, |placed|)|
    ensures pos < |placed|
  {
  }

  /** The map from short ids to positions. `crowded` stands for the check of a hash bucket's size; it
      and a repeated id make the map fail. */
  method MapShortIds(placed: Slots, ids: seq<nat>, crowded: nat -> bool) returns (ok: bool, m: map<nat, nat>)
    requires |Free(placed, |placed|)| == |ids|
    ensures ok <==> Distinct(ids) && forall i :: 0 <= i < |ids| ==> !crowded(i)
    ensures ok ==> MapOk(placed, ids, m) && |m| == |ids|
  {
    hide MapOk;
    hide Mapping;
    ghost var free := Free(placed, |placed|);
    m := map[];
    var offset := 0;
    MappingStart(free, ids);
    for i := 0 to |ids|
      invariant 0 <= offset && i + offset <= |placed| && |Free(placed, i + offset)| == i && Mapping(free, ids, m, i)
      invariant forall k :: 0 <= k < i ==> !crowded(k)
    {
      InRange(placed, i + offset, i);
      while placed[i + offset].Some?
        invariant 0 <= offset && i + offset < |placed| && |Free(placed, i + offset)| == i
        decreases |placed| - offset
      {
        InRange(placed, i + offset + 1, i);
        offset := offset + 1;
      }
      FreeHas(placed, |placed|, i + offset);
      MappingNext(free, ids, m, i);
      m := m[ids[i] := i + offset];
      if crowded(i) {
        return false, m;
      }
    }
    DistinctSize(ids);
    MappingSize(free, ids, m);
    if |m| != |ids| {
      return false, m;
    }
    MappingDone(placed, ids, m);
    ok := true;
  }

  lemma MappingStart(free: seq<nat>, ids: seq<nat>)
    requires |free| == |ids|
    ensures Mapping(free, ids, map[], 0)
  {
    assert SetOf(ids[..0]) == {};
  }

  lemma MappingSize(free: seq<nat>, ids: seq<nat>, m: map<nat, nat>)
    requires |free| == |ids| && Mapping(free, ids, m, |ids|)
    ensures |m| == |SetOf(ids)|
  {
    assert ids[..|ids|] == ids;
    assert |m| == |m.Keys|;
  }

  // ---------------------------------------------------------------------
  // The partially downloaded block
  // ---------------------------------------------------------------------

  ghost predicate Acceptable(cmpct: CompactBlock) {
    && cmpct.header.Some? && cmpct.BlockTxCount() > 0 && cmpct.BlockTxCount() <= MAX_TXS
    && PrefilledOk(cmpct.prefilledtxn, |cmpct.shorttxids|, |cmpct.prefilledtxn|)
  }

  /** No short id comes twice, and no hash bucket is too full. */
  ghost predicate Unambiguous(cmpct: CompactBlock, crowded: nat -> bool) {
    Distinct(cmpct.shorttxids) && forall i :: 0 <= i < |cmpct.shorttxids| ==> !crowded(i)
  }

  /** The slots with just the prefilled transactions. */
  ghost function PlacedIn(cmpct: CompactBlock): (a: Slots)
    requires Acceptable(cmpct)
    ensures |a| == cmpct.BlockTxCount() && |Free(a, |a|)| == |cmpct.shorttxids|
  {
    PlacedFree(cmpct.prefilledtxn, |cmpct.shorttxids|, |cmpct.prefilledtxn|);
    Placed(cmpct.prefilledtxn, |cmpct.shorttxids|, |cmpct.prefilledtxn|)
  }

  // ---------------------------------------------------------------------
  // Scanning the pool and the extra transactions
  // ---------------------------------------------------------------------

  /** The slots, which of them had a match, and the two counters. */
  datatype Scan = Scan(a: Slots, have: seq<bool>, count: int, extra: int) {
    predicate Fits(m: map<nat, nat>) {
      |have| == |a| && forall id :: id in m ==> m[id] < |a|
    }
  }

  /** One candidate from the pool: a first match fills the slot, a second one gives it up. */
  function PoolStep(sid: ShortId, m: map<nat, nat>, s: Scan, c: Candidate): (r: Scan)
    requires s.Fits(m)
    ensures r.Fits(m)
  {
    if sid(c.hash) !in m then s else
      var j := m[sid(c.hash)];
      if !s.have[j] then Scan(s.a[j := Some(c.tx)], s.have[j := true], s.count + 1, s.extra)
      else if s.a[j].Some? then s.(a := s.a[j := None], count := s.count - 1)
      else s
  }

  /** One extra transaction; the same transaction again is no second match. */
  function ExtraStep(sid: ShortId, m: map<nat, nat>, s: Scan, c: Candidate): (r: Scan)
    requires s.Fits(m)
    ensures r.Fits(m)
  {
    if sid(c.hash) !in m then s else
      var j := m[sid(c.hash)];
      if !s.have[j] then Scan(s.a[j := Some(c.tx)], s.have[j := true], s.count + 1, s.extra + 1)
      else if s.a[j].Some? && s.a[j].value.witnessHash != c.tx.witnessHash then
        s.(a := s.a[j := None], count := s.count - 1, extra := s.extra - 1)
      else s
  }

  /** Both loops stop when the count reaches the number of short ids. */
  function PoolScan(sid: ShortId, m: map<nat, nat>, s: Scan, pool: seq<Candidate>): (r: Scan)
    requires s.Fits(m)
    ensures r.Fits(m)
    decreases |pool|
  {
    if pool == [] then s else
      var s' := PoolStep(sid, m, s, pool[0]);
      if s'.count == |m| then s' else PoolScan(sid, m, s', pool[1..])
  }

  function ExtraScan(sid: ShortId, m: map<nat, nat>, s: Scan, extra: seq<Candidate>): (r: Scan)
    requires s.Fits(m)
    ensures r.Fits(m)
    decreases |extra|
  {
    if extra == [] then s else
      var s' := ExtraStep(sid, m, s, extra[0]);
      if s'.count == |m| then s' else ExtraScan(sid, m, s', extra[1..])
  }

  // ---------------------------------------------------------------------
  // What the scans come to, in terms of what was offered
  // ---------------------------------------------------------------------

  /** The transactions offered under the short id `id`, in order. */
  function Under(sid: ShortId, cs: seq<Candidate>, id: nat): seq<Tx> {
    if cs == [] then [] else
      var last := cs[|cs| - 1];
      Under(sid, cs[..|cs| - 1], id) + if sid(last.hash) == id then [last.tx] else []
  }

  /** All have the witness hash of `tx`. */
  predicate Agree(txs: seq<Tx>, tx: Tx) {
    forall i :: 0 <= i < |txs| ==> txs[i].witnessHash == tx.witnessHash
  }

  /** What a slot holds after the pool has offered `p` for it and the extra transactions have offered `e`. */
  function SlotOf(p: seq<Tx>, e: seq<Tx>): Option<Tx> {
    if |p| == 1 then if Agree(e, p[0]) then Some(p[0]) else None
    else if p == [] && e != [] && Agree(e, e[0]) then Some(e[0])
    else None
  }

  /** How many of the ids have the property `f`. */
  function Count(ids: seq<nat>, f: nat -> bool): nat {
    if ids == [] then 0 else Count(ids[..|ids| - 1], f) + if f(ids[|ids| - 1]) then 1 else 0
  }

  function Fills(sid: ShortId, pool: seq<Candidate>, extra: seq<Candidate>): nat -> bool {
    (id: nat) => SlotOf(Under(sid, pool, id), Under(sid, extra, id)).Some?
  }

  /** The pool offers one transaction and the extra transactions another. */
  function Contradicted(sid: ShortId, pool: seq<Candidate>, extra: seq<Candidate>): nat -> bool {
    (id: nat) => |Under(sid, pool, id)| == 1 && !Agree(Under(sid, extra, id), Under(sid, pool, id)[0])
  }

  /** The pool offers nothing and the extra transactions offer just one. */
  function Gained(sid: ShortId, pool: seq<Candidate>, extra: seq<Candidate>): nat -> bool {
    (id: nat) => Under(sid, pool, id) == [] && Under(sid, extra, id) != []
                 && Agree(Under(sid, extra, id), Under(sid, extra, id)[0])
  }

  /** The part of the pool that is looked at, `done` already: up to where every id is filled, `base` counted in. */
  function PoolPart(sid: ShortId, ids: seq<nat>, base: int, done: seq<Candidate>, rest: seq<Candidate>): seq<Candidate>
    decreases |rest|
  {
    if rest == [] then done else
      var next := done + [rest[0]];
      if base + Count(ids, Fills(sid, next, [])) == |ids| then next else PoolPart(sid, ids, base, next, rest[1..])
  }

  function ExtraPart(sid: ShortId, ids: seq<nat>, base: int, pool: seq<Candidate>, done: seq<Candidate>,
                     rest: seq<Candidate>): seq<Candidate>
    decreases |rest|
  {
    if rest == [] then done else
      var next := done + [rest[0]];
      if base + Count(ids, Fills(sid, pool, next)) == |ids| then next
        else ExtraPart(sid, ids, base, pool, next, rest[1..])
  }

  lemma UnderNext(sid: ShortId, cs: seq<Candidate>, c: Candidate, id: nat)
    ensures Under(sid, cs + [c], id) == Under(sid, cs, id) + if sid(c.hash) == id then [c.tx] else []
    ensures sid(c.hash) != id ==> Under(sid, cs + [c], id) == Under(sid, cs, id)
  {
    assert (cs + [c])[..|cs|] == cs;
  }

  lemma {:induction false} UnderIs(sid: ShortId, cs: seq<Candidate>, id: nat, i: nat) returns (k: nat)
    requires i < |Under(sid, cs, id)|
    ensures k < |cs| && sid(cs[k].hash) == id && cs[k].tx == Under(sid, cs, id)[i]
    decreases |cs|
  {
    if i < |Under(sid, cs[..|cs| - 1], id)| {
      k := UnderIs(sid, cs[..|cs| - 1], id, i);
    } else {
      k := |cs| - 1;
    }
  }

  lemma {:induction false} UnderSome(sid: ShortId, cs: seq<Candidate>, id: nat, k: nat)
    requires k < |cs| && sid(cs[k].hash) == id
    ensures Under(sid, cs, id) != []
    decreases |cs|
  {
    if k < |cs| - 1 {
      UnderSome(sid, cs[..|cs| - 1], id, k);
    }
  }

  lemma {:induction false} UnderPrefix(sid: ShortId, cs: seq<Candidate>, n: nat, id: nat)
    requires n <= |cs|
    ensures |Under(sid, cs[..n], id)| <= |Under(sid, cs, id)|
    decreases |cs|
  {
    if n < |cs| {
      UnderPrefix(sid, cs[..|cs| - 1], n, id);
      assert cs[..|cs| - 1][..n] == cs[..n];
    } else {
      assert cs[..n] == cs;
    }
  }

  /** One more from the pool. */
  lemma SlotPool(p: seq<Tx>, tx: Tx)
    ensures SlotOf(p + [tx], []) == if p == [] then Some(tx) else None
    ensures SlotOf(p, []).Some? ==> p != []
  {
  }

  /** One more extra transaction. */
  lemma SlotExtra(p: seq<Tx>, e: seq<Tx>, tx: Tx)
    ensures SlotOf(p, e + [tx]) ==
      if p == [] && e == [] then Some(tx)
      else if SlotOf(p, e).Some? && SlotOf(p, e).value.witnessHash != tx.witnessHash then None
      else SlotOf(p, e)
    ensures SlotOf(p, e).Some? ==> p != [] || e != []
  {
    var all := e + [tx];
    assert all[|e|] == tx && forall i :: 0 <= i < |e| ==> all[i] == e[i];
    if |p| == 1 {
      AgreeNext(e, tx, p[0]);
    } else if p == [] && e != [] {
      AgreeNext(e, tx, e[0]);
    }
  }

  lemma AgreeNext(e: seq<Tx>, tx: Tx, t: Tx)
    ensures Agree(e + [tx], t) <==> Agree(e, t) && tx.witnessHash == t.witnessHash
  {
    var all := e + [tx];
    assert all[|e|] == tx && forall i :: 0 <= i < |e| ==> all[i] == e[i];
  }

  lemma {:induction false} CountSame(ids: seq<nat>, f: nat -> bool, g: nat -> bool)
    requires forall i :: 0 <= i < |ids| ==> f(ids[i]) == g(ids[i])
    ensures Count(ids, f) == Count(ids, g)
    decreases |ids|
  {
    if ids != [] {
      CountSame(ids[..|ids| - 1], f, g);
    }
  }

  /** The property changes at `x` only, which is the `k`th id. */
  lemma {:induction false} CountChange(ids: seq<nat>, f: nat -> bool, g: nat -> bool, k: nat)
    requires k < |ids| && forall i :: 0 <= i < |ids| && i != k ==> f(ids[i]) == g(ids[i])
    ensures Count(ids, g) == Count(ids, f) + (if g(ids[k]) then 1 else 0) - if f(ids[k]) then 1 else 0
    decreases |ids|
  {
    var front := ids[..|ids| - 1];
    if k == |ids| - 1 {
      CountSame(front, f, g);
    } else {
      CountChange(front, f, g, k);
    }
  }

  lemma {:induction false} CountAll(ids: seq<nat>, f: nat -> bool, k: nat)
    requires k < |ids| && Count(ids, f) == |ids|
    ensures f(ids[k])
    decreases |ids|
  {
    CountMost(ids[..|ids| - 1], f);
    if k < |ids| - 1 {
      CountAll(ids[..|ids| - 1], f, k);
    }
  }

  lemma {:induction false} CountMost(ids: seq<nat>, f: nat -> bool)
    ensures Count(ids, f) <= |ids|
    decreases |ids|
  {
    if ids != [] {
      CountMost(ids[..|ids| - 1], f);
    }
  }

  lemma {:induction false} CountNone(ids: seq<nat>, f: nat -> bool)
    requires forall i :: 0 <= i < |ids| ==> !f(ids[i])
    ensures Count(ids, f) == 0
    decreases |ids|
  {
    if ids != [] {
      CountNone(ids[..|ids| - 1], f);
    }
  }

  /** What the extra transactions add: the ids they gain less the ids they contradict. */
  lemma {:induction false} FilledMore(sid: ShortId, ids: seq<nat>, pool: seq<Candidate>, extra: seq<Candidate>)
    ensures Count(ids, Fills(sid, pool, extra)) - Count(ids, Fills(sid, pool, []))
         == Count(ids, Gained(sid, pool, extra)) - Count(ids, Contradicted(sid, pool, extra))
    decreases |ids|
  {
    if ids != [] {
      FilledMore(sid, ids[..|ids| - 1], pool, extra);
      FillsMore(sid, pool, extra, ids[|ids| - 1]);
    }
  }

  lemma FillsMore(sid: ShortId, pool: seq<Candidate>, extra: seq<Candidate>, id: nat)
    ensures Fills(sid, pool, extra)(id) <==>
      (Fills(sid, pool, [])(id) && !Contradicted(sid, pool, extra)(id)) || Gained(sid, pool, extra)(id)
    ensures Contradicted(sid, pool, extra)(id) ==> Fills(sid, pool, [])(id)
    ensures Gained(sid, pool, extra)(id) ==> !Fills(sid, pool, [])(id)
  {
    hide Under;
    assert Under(sid, [], id) == [] by { UnderNone(sid, id); }
  }

  lemma UnderNone(sid: ShortId, id: nat)
    ensures Under(sid, [], id) == []
  {
  }

  // ---------------------------------------------------------------------
  // The scans against that
  // ---------------------------------------------------------------------

  /** Prefilled positions hold their transaction, and every other what was offered under its short id comes to. */
  ghost predicate Contents(placed: Slots, ids: seq<nat>, sid: ShortId, pool: seq<Candidate>, extra: seq<Candidate>,
                           a: Slots)
    requires |Free(placed, |placed|)| == |ids|
  {
    && |a| == |placed|
    && (forall j :: 0 <= j < |a| && placed[j].Some? ==> a[j] == placed[j])
    && (forall j :: 0 <= j < |a| && placed[j].None? ==>
          a[j] == SlotOf(Under(sid, pool, IdAt(placed, ids, j)), Under(sid, extra, IdAt(placed, ids, j))))
  }

  /** Which slots had a match. */
  ghost predicate Marked(placed: Slots, ids: seq<nat>, sid: ShortId, pool: seq<Candidate>, extra: seq<Candidate>,
                         have: seq<bool>)
    requires |Free(placed, |placed|)| == |ids|
  {
    && |have| == |placed|
    && (forall j :: 0 <= j < |placed| && placed[j].None? ==>
          (have[j] <==> Under(sid, pool, IdAt(placed, ids, j)) != [] || Under(sid, extra, IdAt(placed, ids, j)) != []))
  }

  /** The state of the scans after `pool` and `extra`, from counts of `base` and `start`. */
  ghost predicate Tracks(placed: Slots, ids: seq<nat>, sid: ShortId, m: map<nat, nat>, s: Scan,
                         pool: seq<Candidate>, extra: seq<Candidate>, base: int, start: int)
    requires |Free(placed, |placed|)| == |ids|
  {
    && MapOk(placed, ids, m) && s.Fits(m) && Contents(placed, ids, sid, pool, extra, s.a)
    && Marked(placed, ids, sid, pool, extra, s.have)
    && s.count == base + Count(ids, Fills(sid, pool, extra))
    && s.extra == start + Count(ids, Fills(sid, pool, extra)) - Count(ids, Fills(sid, pool, []))
  }

  lemma TracksStart(placed: Slots, ids: seq<nat>, sid: ShortId, m: map<nat, nat>, base: int, start: int)
    requires |Free(placed, |placed|)| == |ids| && MapOk(placed, ids, m)
    ensures Tracks(placed, ids, sid, m, Scan(placed, seq(|placed|, _ => false), base, start), [], [], base, start)
  {
    hide Free;
    CountNone(ids, Fills(sid, [], []));
  }

  lemma IdMapped(placed: Slots, ids: seq<nat>, m: map<nat, nat>, j: nat)
    requires |Free(placed, |placed|)| == |ids| && MapOk(placed, ids, m) && j < |placed| && placed[j].None?
    ensures IdAt(placed, ids, j) in m && m[IdAt(placed, ids, j)] == j
  {
    FreeHas(placed, |placed|, j);
    hide Free;
    assert ids[|Free(placed, j)|] in m;
  }

  /** Each mapped id is announced once. */
  lemma IdOnce(placed: Slots, ids: seq<nat>, m: map<nat, nat>, id: nat) returns (k: nat)
    requires |Free(placed, |placed|)| == |ids| && MapOk(placed, ids, m) && id in m && Distinct(ids)
    ensures k < |ids| && ids[k] == id && forall i :: 0 <= i < |ids| && i != k ==> ids[i] != id
  {
    FreeHas(placed, |placed|, m[id]);
    hide Free;
    k := |Free(placed, m[id])|;
  }

  /** What one candidate under the id `x` does to the lists `pool` and `extra`. */
  ghost predicate OneMore(sid: ShortId, pool: seq<Candidate>, extra: seq<Candidate>, pool': seq<Candidate>,
                          extra': seq<Candidate>, x: nat) {
    forall id :: id != x ==>
      Under(sid, pool', id) == Under(sid, pool, id) && Under(sid, extra', id) == Under(sid, extra, id)
  }

  lemma OneMorePool(sid: ShortId, pool: seq<Candidate>, extra: seq<Candidate>, c: Candidate)
    ensures OneMore(sid, pool, extra, pool + [c], extra, sid(c.hash))
  {
    forall id | id != sid(c.hash) ensures Under(sid, pool + [c], id) == Under(sid, pool, id) {
      UnderNext(sid, pool, c, id);
    }
  }

  lemma OneMoreExtra(sid: ShortId, pool: seq<Candidate>, extra: seq<Candidate>, c: Candidate)
    ensures OneMore(sid, pool, extra, pool, extra + [c], sid(c.hash))
  {
    forall id | id != sid(c.hash) ensures Under(sid, extra + [c], id) == Under(sid, extra, id) {
      UnderNext(sid, extra, c, id);
    }
  }

  lemma FilledChange(sid: ShortId, ids: seq<nat>, pool: seq<Candidate>, extra: seq<Candidate>,
                     pool': seq<Candidate>, extra': seq<Candidate>, x: nat, k: nat)
    requires OneMore(sid, pool, extra, pool', extra', x) && k < |ids| && ids[k] == x
    requires forall i :: 0 <= i < |ids| && i != k ==> ids[i] != x
    ensures Count(ids, Fills(sid, pool', extra')) == Count(ids, Fills(sid, pool, extra))
              + (if Fills(sid, pool', extra')(x) then 1 else 0) - if Fills(sid, pool, extra)(x) then 1 else 0
  {
    CountChange(ids, Fills(sid, pool, extra), Fills(sid, pool', extra'), k);
  }

  lemma FilledSame(sid: ShortId, ids: seq<nat>, pool: seq<Candidate>, extra: seq<Candidate>,
                   pool': seq<Candidate>, extra': seq<Candidate>, x: nat)
    requires OneMore(sid, pool, extra, pool', extra', x) && forall i :: 0 <= i < |ids| ==> ids[i] != x
    ensures Count(ids, Fills(sid, pool', extra')) == Count(ids, Fills(sid, pool, extra))
  {
    CountSame(ids, Fills(sid, pool, extra), Fills(sid, pool', extra'));
  }

  /** A candidate that no slot waits for changes nothing. */
  lemma ContentsSkip(placed: Slots, ids: seq<nat>, sid: ShortId, m: map<nat, nat>, s: Scan, pool: seq<Candidate>,
                     extra: seq<Candidate>,
                     pool': seq<Candidate>, extra': seq<Candidate>, x: nat)
    requires |Free(placed, |placed|)| == |ids| && MapOk(placed, ids, m) && s.Fits(m) && x !in m
    requires OneMore(sid, pool, extra, pool', extra', x) && Contents(placed, ids, sid, pool, extra, s.a)
    ensures Contents(placed, ids, sid, pool', extra', s.a)
    ensures forall j :: 0 <= j < |placed| && placed[j].None? ==> IdAt(placed, ids, j) != x
    ensures forall i :: 0 <= i < |ids| ==> ids[i] != x
  {
    hide Free;
    hide Under;
    hide SlotOf;
    forall j | 0 <= j < |placed| && placed[j].None? ensures IdAt(placed, ids, j) != x {
      IdMapped(placed, ids, m, j);
    }
  }

  lemma IdOnly(placed: Slots, ids: seq<nat>, m: map<nat, nat>, x: nat)
    requires |Free(placed, |placed|)| == |ids| && MapOk(placed, ids, m) && x in m
    ensures m[x] < |placed|
    ensures forall j :: 0 <= j < |placed| && placed[j].None? ==> (IdAt(placed, ids, j) == x <==> j == m[x])
  {
    hide Free;
    forall j | 0 <= j < |placed| && placed[j].None? ensures IdAt(placed, ids, j) == x <==> j == m[x] {
      IdMapped(placed, ids, m, j);
    }
  }

  /** A candidate changes the slot that waits for it, and no other. */
  lemma ContentsPut(placed: Slots, ids: seq<nat>, sid: ShortId, a: Slots, pool: seq<Candidate>, extra: seq<Candidate>,
                    pool': seq<Candidate>, extra': seq<Candidate>, x: nat, at: nat, slot: Option<Tx>)
    requires |Free(placed, |placed|)| == |ids| && at < |placed| && placed[at].None?
    requires forall j :: 0 <= j < |placed| && placed[j].None? ==> (IdAt(placed, ids, j) == x <==> j == at)
    requires OneMore(sid, pool, extra, pool', extra', x) && Contents(placed, ids, sid, pool, extra, a)
    requires slot == SlotOf(Under(sid, pool', x), Under(sid, extra', x))
    ensures Contents(placed, ids, sid, pool', extra', a[at := slot])
  {
    hide Free;
    hide IdAt;
    hide Under;
    hide SlotOf;
  }

  lemma TracksAt(placed: Slots, ids: seq<nat>, sid: ShortId, m: map<nat, nat>, s: Scan,
                 pool: seq<Candidate>, extra: seq<Candidate>, base: int, start: int, x: nat)
    requires |Free(placed, |placed|)| == |ids| && s.Fits(m) && Tracks(placed, ids, sid, m, s, pool, extra, base, start)
             && x in m
    ensures |s.a| == |placed| && placed[m[x]].None? && s.a[m[x]] == SlotOf(Under(sid, pool, x), Under(sid, extra, x))
    ensures s.have[m[x]] <==> Under(sid, pool, x) != [] || Under(sid, extra, x) != []
  {
    hide Free;
    hide Under;
    hide SlotOf;
    assert IdAt(placed, ids, m[x]) == x;
  }

  lemma MapFits(placed: Slots, ids: seq<nat>, m: map<nat, nat>, s: Scan)
    requires |Free(placed, |placed|)| == |ids| && MapOk(placed, ids, m) && |s.a| == |s.have| == |placed|
    ensures s.Fits(m)
  {
    hide Free;
  }

  lemma TracksNext(placed: Slots, ids: seq<nat>, sid: ShortId, m: map<nat, nat>, s: Scan, pool: seq<Candidate>,
                   extra: seq<Candidate>,
                   pool': seq<Candidate>, extra': seq<Candidate>, base: int, start: int, x: nat, slot: Option<Tx>)
    requires |Free(placed, |placed|)| == |ids| && Distinct(ids) && s.Fits(m)
             && Tracks(placed, ids, sid, m, s, pool, extra, base, start)
    requires x in m && OneMore(sid, pool, extra, pool', extra', x)
             && slot == SlotOf(Under(sid, pool', x), Under(sid, extra', x))
    requires Under(sid, pool', x) != [] || Under(sid, extra', x) != []
    requires pool' == pool || extra == extra' == []
    ensures var delta := (if slot.Some? then 1 else 0) - (if s.a[m[x]].Some? then 1 else 0);
      Tracks(placed, ids, sid, m, Scan(s.a[m[x] := slot], s.have[m[x] := true], s.count + delta,
                                       if pool' == pool then s.extra + delta else s.extra), pool', extra', base, start)
  {
    hide Free;
    hide Under;
    hide SlotOf;
    hide Count;
    hide Contents;
    hide MapOk;
    hide Marked;
    hide OneMore;
    IdOnly(placed, ids, m, x);
    TracksAt(placed, ids, sid, m, s, pool, extra, base, start, x);
    ContentsPut(placed, ids, sid, s.a, pool, extra, pool', extra', x, m[x], slot);
    var k := IdOnce(placed, ids, m, x);
    FilledChange(sid, ids, pool, extra, pool', extra', x, k);
    MarkedPut(placed, ids, sid, pool, extra, pool', extra', x, m[x], s.have);
    MapFits(placed, ids, m, Scan(s.a[m[x] := slot], s.have[m[x] := true], 0, 0));
  }

  lemma MarkedPut(placed: Slots, ids: seq<nat>, sid: ShortId, pool: seq<Candidate>, extra: seq<Candidate>,
                  pool': seq<Candidate>, extra': seq<Candidate>, x: nat, at: nat, have: seq<bool>)
    requires |Free(placed, |placed|)| == |ids| && Marked(placed, ids, sid, pool, extra, have) && at < |placed|
    requires OneMore(sid, pool, extra, pool', extra', x) && (Under(sid, pool', x) != [] || Under(sid, extra', x) != [])
    requires forall j :: 0 <= j < |placed| && placed[j].None? ==> (IdAt(placed, ids, j) == x <==> j == at)
    ensures Marked(placed, ids, sid, pool', extra', have[at := true])
  {
    hide Free;
    hide Under;
  }

  lemma TracksSkip(placed: Slots, ids: seq<nat>, sid: ShortId, m: map<nat, nat>, s: Scan, pool: seq<Candidate>,
                   extra: seq<Candidate>,
                   pool': seq<Candidate>, extra': seq<Candidate>, base: int, start: int, x: nat)
    requires |Free(placed, |placed|)| == |ids| && s.Fits(m) && Tracks(placed, ids, sid, m, s, pool, extra, base, start)
    requires x !in m && OneMore(sid, pool, extra, pool', extra', x) && (pool' == pool || extra == extra' == [])
    ensures Tracks(placed, ids, sid, m, s, pool', extra', base, start)
  {
    hide Free;
    hide Under;
    hide SlotOf;
    hide Count;
    hide Contents;
    hide MapOk;
    hide Marked;
    hide OneMore;
    ContentsSkip(placed, ids, sid, m, s, pool, extra, pool', extra', x);
    FilledSame(sid, ids, pool, extra, pool', extra', x);
    MarkedSkip(placed, ids, sid, pool, extra, pool', extra', x, s.have);
  }

  lemma MarkedSkip(placed: Slots, ids: seq<nat>, sid: ShortId, pool: seq<Candidate>, extra: seq<Candidate>,
                   pool': seq<Candidate>, extra': seq<Candidate>, x: nat, have: seq<bool>)
    requires |Free(placed, |placed|)| == |ids| && Marked(placed, ids, sid, pool, extra, have)
    requires OneMore(sid, pool, extra, pool', extra', x)
    requires forall j :: 0 <= j < |placed| && placed[j].None? ==> IdAt(placed, ids, j) != x
    ensures Marked(placed, ids, sid, pool', extra', have)
  {
    hide Free;
    hide Under;
  }

  lemma PoolStepTracks(placed: Slots, ids: seq<nat>, sid: ShortId, m: map<nat, nat>, s: Scan, pool: seq<Candidate>,
                       base: int, start: int, c: Candidate)
    requires |Free(placed, |placed|)| == |ids| && Distinct(ids) && s.Fits(m)
             && Tracks(placed, ids, sid, m, s, pool, [], base, start)
    ensures Tracks(placed, ids, sid, m, PoolStep(sid, m, s, c), pool + [c], [], base, start)
  {
    hide Tracks;
    hide Under;
    hide SlotOf;
    hide OneMore;
    var x := sid(c.hash);
    OneMorePool(sid, pool, [], c);
    if x !in m {
      TracksSkip(placed, ids, sid, m, s, pool, [], pool + [c], [], base, start, x);
    } else {
      var p := Under(sid, pool, x);
      TracksAt(placed, ids, sid, m, s, pool, [], base, start, x);
      UnderNone(sid, x);
      UnderNext(sid, pool, c, x);
      SlotPool(p, c.tx);
      TracksNext(placed, ids, sid, m, s, pool, [], pool + [c], [], base, start, x, SlotOf(p + [c.tx], []));
      assert pool + [c] != pool;
      assert s.have[m[x]] ==> s.have[m[x] := true] == s.have;
      assert s.a[m[x]].None? ==> s.a[m[x] := None] == s.a;
    }
  }

  lemma ExtraStepTracks(placed: Slots, ids: seq<nat>, sid: ShortId, m: map<nat, nat>, s: Scan,
                        pool: seq<Candidate>, extra: seq<Candidate>, base: int, start: int, c: Candidate)
    requires |Free(placed, |placed|)| == |ids| && Distinct(ids) && s.Fits(m)
             && Tracks(placed, ids, sid, m, s, pool, extra, base, start)
    ensures Tracks(placed, ids, sid, m, ExtraStep(sid, m, s, c), pool, extra + [c], base, start)
  {
    hide Tracks;
    hide Under;
    hide SlotOf;
    hide OneMore;
    var x := sid(c.hash);
    OneMoreExtra(sid, pool, extra, c);
    if x !in m {
      TracksSkip(placed, ids, sid, m, s, pool, extra, pool, extra + [c], base, start, x);
    } else {
      var p, e, j := Under(sid, pool, x), Under(sid, extra, x), m[x];
      TracksAt(placed, ids, sid, m, s, pool, extra, base, start, x);
      UnderNext(sid, extra, c, x);
      SlotExtra(p, e, c.tx);
      TracksNext(placed, ids, sid, m, s, pool, extra, pool, extra + [c], base, start, x, SlotOf(p, e + [c.tx]));
      assert s.have[j] ==> s.have[j := true] == s.have;
      assert s.a[j := s.a[j]] == s.a;
    }
  }

  lemma {:induction false} PoolScanTracks(placed: Slots, ids: seq<nat>, sid: ShortId, m: map<nat, nat>, s: Scan,
                                          done: seq<Candidate>, rest: seq<Candidate>, base: int, start: int)
    requires |Free(placed, |placed|)| == |ids| == |m| && Distinct(ids) && s.Fits(m)
             && Tracks(placed, ids, sid, m, s, done, [], base, start)
    ensures Tracks(placed, ids, sid, m, PoolScan(sid, m, s, rest), PoolPart(sid, ids, base, done, rest), [], base,
      start)
    decreases |rest|
  {
    hide Free;
    hide Count;
    hide PoolStep;
    if rest != [] {
      var s', next := PoolStep(sid, m, s, rest[0]), done + [rest[0]];
      PoolStepTracks(placed, ids, sid, m, s, done, base, start, rest[0]);
      TracksCount(placed, ids, sid, m, s', next, [], base, start);
      hide Tracks;
      if s'.count != |m| {
        PoolScanTracks(placed, ids, sid, m, s', next, rest[1..], base, start);
      }
    }
  }

  lemma TracksCount(placed: Slots, ids: seq<nat>, sid: ShortId, m: map<nat, nat>, s: Scan,
                    pool: seq<Candidate>, extra: seq<Candidate>, base: int, start: int)
    requires |Free(placed, |placed|)| == |ids| && Tracks(placed, ids, sid, m, s, pool, extra, base, start)
    ensures s.count == base + Count(ids, Fills(sid, pool, extra))
    ensures s.extra == start + Count(ids, Fills(sid, pool, extra)) - Count(ids, Fills(sid, pool, []))
    ensures Contents(placed, ids, sid, pool, extra, s.a)
  {
  }

  lemma {:induction false} ExtraScanTracks(placed: Slots, ids: seq<nat>, sid: ShortId, m: map<nat, nat>, s: Scan,
                                           pool: seq<Candidate>,
                                           done: seq<Candidate>, rest: seq<Candidate>, base: int, start: int)
    requires |Free(placed, |placed|)| == |ids| == |m| && Distinct(ids) && s.Fits(m)
             && Tracks(placed, ids, sid, m, s, pool, done, base, start)
    ensures Tracks(placed, ids, sid, m, ExtraScan(sid, m, s, rest), pool, ExtraPart(sid, ids, base, pool, done, rest),
      base, start)
    decreases |rest|
  {
    hide Free;
    hide Count;
    hide ExtraStep;
    if rest != [] {
      var s', next := ExtraStep(sid, m, s, rest[0]), done + [rest[0]];
      ExtraStepTracks(placed, ids, sid, m, s, pool, done, base, start, rest[0]);
      TracksCount(placed, ids, sid, m, s', pool, next, base, start);
      hide Tracks;
      if s'.count != |m| {
        ExtraScanTracks(placed, ids, sid, m, s', pool, next, rest[1..], base, start);
      }
    }
  }

  /** Both loops one after the other. */
  function ScanBoth(sid: ShortId, m: map<nat, nat>, s: Scan, pool: seq<Candidate>, extra: seq<Candidate>): (r: Scan)
    requires s.Fits(m)
  {
    ExtraScan(sid, m, PoolScan(sid, m, s, pool), extra)
  }

  /** The candidates looked at, from the pool and from the extra transactions. */
  function LookedAt(sid: ShortId, ids: seq<nat>, base: int, pool: seq<Candidate>,
                    extra: seq<Candidate>): (seq<Candidate>, seq<Candidate>) {
    var part := PoolPart(sid, ids, base, [], pool);
    (part, ExtraPart(sid, ids, base, part, [], extra))
  }

  /** Both loops, early ends included: each slot is what was offered under its short id comes to, and the counters
      tell how many are filled and how many more the extra transactions gained than they contradicted. */
  lemma ScanExact(placed: Slots, ids: seq<nat>, sid: ShortId, m: map<nat, nat>, pool: seq<Candidate>,
                  extra: seq<Candidate>, base: int, start: int)
    requires |Free(placed, |placed|)| == |ids| == |m| && Distinct(ids) && MapOk(placed, ids, m)
    ensures var s := Scan(placed, seq(|placed|, _ => false), base, start);
      var (p, e) := LookedAt(sid, ids, base, pool, extra);
      && s.Fits(m) && var r := ScanBoth(sid, m, s, pool, extra);
      && Contents(placed, ids, sid, p, e, r.a) && r.count == base + Count(ids, Fills(sid, p, e))
      && r.extra == start + Count(ids, Gained(sid, p, e)) - Count(ids, Contradicted(sid, p, e))
  {
    hide MapOk;
    hide Free;
    hide Count;
    hide Tracks;
    hide Contents;
    hide PoolScan;
    hide ExtraScan;
    hide PoolPart;
    hide ExtraPart;
    var s := Scan(placed, seq(|placed|, _ => false), base, start);
    var (p, e) := LookedAt(sid, ids, base, pool, extra);
    MapFits(placed, ids, m, s);
    TracksStart(placed, ids, sid, m, base, start);
    PoolScanTracks(placed, ids, sid, m, s, [], pool, base, start);
    ExtraScanTracks(placed, ids, sid, m, PoolScan(sid, m, s, pool), p, [], extra, base, start);
    TracksCount(placed, ids, sid, m, ScanBoth(sid, m, s, pool, extra), p, e, base, start);
    FilledMore(sid, ids, p, e);
  }

  // ---------------------------------------------------------------------
  // What follows
  // ---------------------------------------------------------------------

  /** The part looked at is a prefix, and the whole unless every id was filled before. */
  lemma {:induction false} PoolPartIs(sid: ShortId, ids: seq<nat>, base: int, done: seq<Candidate>,
                                      rest: seq<Candidate>)
    ensures var part := PoolPart(sid, ids, base, done, rest);
      && part <= done + rest && (part == done + rest || base + Count(ids, Fills(sid, part, [])) == |ids|)
    decreases |rest|
  {
    if rest == [] {
      assert done + rest == done;
    } else {
      assert done + [rest[0]] + rest[1..] == done + rest;
      if base + Count(ids, Fills(sid, done + [rest[0]], [])) != |ids| {
        PoolPartIs(sid, ids, base, done + [rest[0]], rest[1..]);
      }
    }
  }

  lemma {:induction false} ExtraPartIs(sid: ShortId, ids: seq<nat>, base: int, pool: seq<Candidate>,
                                       done: seq<Candidate>, rest: seq<Candidate>)
    ensures var part := ExtraPart(sid, ids, base, pool, done, rest);
      && part <= done + rest && (part == done + rest || base + Count(ids, Fills(sid, pool, part)) == |ids|)
    decreases |rest|
  {
    if rest == [] {
      assert done + rest == done;
    } else {
      assert done + [rest[0]] + rest[1..] == done + rest;
      if base + Count(ids, Fills(sid, pool, done + [rest[0]])) != |ids| {
        ExtraPartIs(sid, ids, base, pool, done + [rest[0]], rest[1..]);
      }
    }
  }

  lemma LookedAtIs(sid: ShortId, ids: seq<nat>, base: int, pool: seq<Candidate>, extra: seq<Candidate>)
    ensures var (p, e) := LookedAt(sid, ids, base, pool, extra);
      && p <= pool && (p == pool || base + Count(ids, Fills(sid, p, [])) == |ids|)
      && e <= extra && (e == extra || base + Count(ids, Fills(sid, p, e)) == |ids|)
  {
    PoolPartIs(sid, ids, base, [], pool);
    var p := PoolPart(sid, ids, base, [], pool);
    ExtraPartIs(sid, ids, base, p, [], extra);
    assert [] + pool == pool && [] + extra == extra;
  }

  /** Whatever a slot holds was offered under its short id. */
  lemma ContentsOffered(placed: Slots, ids: seq<nat>, sid: ShortId, p: seq<Candidate>, e: seq<Candidate>,
                        pool: seq<Candidate>, extra: seq<Candidate>, a: Slots)
    requires |Free(placed, |placed|)| == |ids| && Contents(placed, ids, sid, p, e, a) && p <= pool && e <= extra
    ensures SlotsOk(placed, ids, sid, pool + extra, a)
  {
    hide Free;
    hide Under;
    forall j | 0 <= j < |a| && placed[j].None? && a[j].Some?
      ensures Offered(sid, pool + extra, IdAt(placed, ids, j), a[j].value)
    {
      SlotOffered(sid, p, e, pool, extra, IdAt(placed, ids, j));
    }
  }

  lemma SlotOffered(sid: ShortId, p: seq<Candidate>, e: seq<Candidate>, pool: seq<Candidate>, extra: seq<Candidate>,
                    id: nat)
    requires p <= pool && e <= extra && SlotOf(Under(sid, p, id), Under(sid, e, id)).Some?
    ensures Offered(sid, pool + extra, id, SlotOf(Under(sid, p, id), Under(sid, e, id)).value)
  {
    hide Under;
    var c;
    if Under(sid, p, id) != [] {
      var k := UnderIs(sid, p, id, 0);
      c := pool[k];
      assert (pool + extra)[k] == c;
    } else {
      var k := UnderIs(sid, e, id, 0);
      c := extra[k];
      assert (pool + extra)[|pool| + k] == c;
    }
    assert c in pool + extra;
  }

  /** As many slots are filled as ids. */
  lemma {:induction false} FilledFree(placed: Slots, ids: seq<nat>, sid: ShortId, p: seq<Candidate>, e: seq<Candidate>,
                                      a: Slots, n: nat)
    requires |Free(placed, |placed|)| == |ids| && Contents(placed, ids, sid, p, e, a) && n <= |placed|
    ensures |Free(placed, n)| <= |ids|
            && Count(ids[..|Free(placed, n)|], Fills(sid, p, e)) == |Free(placed, n)| - |Free(a, n)|
    decreases n
  {
    hide *;
    FreeGrows(placed, n, |placed|);
    if n == 0 {
      FreeStart(placed);
      FreeStart(a);
      assert |ids[..0]| == 0;
      CountNone(ids[..0], Fills(sid, p, e));
    } else {
      FilledFree(placed, ids, sid, p, e, a, n - 1);
      ContentsAt(placed, ids, sid, p, e, a, n - 1);
      FreeNext(placed, n - 1);
      FreeNext(a, n - 1);
      if placed[n - 1].None? {
        CountNext(ids, |Free(placed, n - 1)|, Fills(sid, p, e));
      }
    }
  }

  lemma ContentsAt(placed: Slots, ids: seq<nat>, sid: ShortId, p: seq<Candidate>, e: seq<Candidate>, a: Slots, j: nat)
    requires |Free(placed, |placed|)| == |ids| && Contents(placed, ids, sid, p, e, a) && j < |placed|
    ensures |a| == |placed| && (placed[j].Some? ==> a[j].Some?)
    ensures placed[j].None? ==>
      |Free(placed, j)| < |ids| && (a[j].Some? <==> Fills(sid, p, e)(ids[|Free(placed, j)|]))
  {
    hide Under;
    hide SlotOf;
    if placed[j].None? {
      FreeHas(placed, |placed|, j);
      assert ids[|Free(placed, j)|] == IdAt(placed, ids, j);
    }
  }

  lemma CountNext(ids: seq<nat>, r: nat, f: nat -> bool)
    requires r < |ids|
    ensures Count(ids[..r + 1], f) == Count(ids[..r], f) + if f(ids[r]) then 1 else 0
  {
    assert ids[..r + 1][..r] == ids[..r];
  }

  /** The filled ids against the positions still free. */
  lemma FilledLeft(placed: Slots, ids: seq<nat>, sid: ShortId, p: seq<Candidate>, e: seq<Candidate>, a: Slots)
    requires |Free(placed, |placed|)| == |ids| && Contents(placed, ids, sid, p, e, a)
    ensures Count(ids, Fills(sid, p, e)) == |ids| - |Free(a, |a|)|
  {
    FilledFree(placed, ids, sid, p, e, a, |placed|);
    assert ids[..|ids|] == ids;
  }

  /** If no extra transaction contradicts one from the pool, the second counter never falls. */
  lemma NeverFalls(sid: ShortId, ids: seq<nat>, base: int, pool: seq<Candidate>, extra: seq<Candidate>)
    requires forall c, d :: c in pool && d in extra && sid(c.hash) == sid(d.hash) && sid(c.hash) in ids ==>
      c.tx.witnessHash == d.tx.witnessHash
    ensures var (p, e) := LookedAt(sid, ids, base, pool, extra);
      Count(ids, Contradicted(sid, p, e)) == 0 <= Count(ids, Gained(sid, p, e))
  {
    var (p, e) := LookedAt(sid, ids, base, pool, extra);
    LookedAtIs(sid, ids, base, pool, extra);
    hide Under;
    hide LookedAt;
    forall i | 0 <= i < |ids| ensures !Contradicted(sid, p, e)(ids[i]) {
      if |Under(sid, p, ids[i])| == 1 {
        var k := UnderIs(sid, p, ids[i], 0);
        assert pool[k] in pool && ids[i] in ids;
        forall n | 0 <= n < |Under(sid, e, ids[i])|
          ensures Under(sid, e, ids[i])[n].witnessHash == Under(sid, p, ids[i])[0].witnessHash
        {
          var l := UnderIs(sid, e, ids[i], n);
          assert extra[l] in extra;
        }
      }
    }
    CountNone(ids, Contradicted(sid, p, e));
  }

  /** What a call of InitData leaves in the slots was all offered, and what it leaves open it has not counted. */
  lemma InitOffers(cmpct: CompactBlock, sid: ShortId, base: int, pool: seq<Candidate>, extra: seq<Candidate>, a: Slots)
    requires Acceptable(cmpct)
    requires var (p, e) := LookedAt(sid, cmpct.shorttxids, base, pool, extra);
      Contents(PlacedIn(cmpct), cmpct.shorttxids, sid, p, e, a)
    ensures SlotsOk(PlacedIn(cmpct), cmpct.shorttxids, sid, pool + extra, a)
    ensures var (p, e) := LookedAt(sid, cmpct.shorttxids, base, pool, extra);
      Count(cmpct.shorttxids, Fills(sid, p, e)) == |cmpct.shorttxids| - |Free(a, |a|)|
  {
    var (p, e) := LookedAt(sid, cmpct.shorttxids, base, pool, extra);
    LookedAtIs(sid, cmpct.shorttxids, base, pool, extra);
    ContentsOffered(PlacedIn(cmpct), cmpct.shorttxids, sid, p, e, pool, extra, a);
    FilledLeft(PlacedIn(cmpct), cmpct.shorttxids, sid, p, e, a);
  }

  class PartiallyDownloadedBlock {
    var header: Option<Header>
    var txnAvailable: Slots
    var prefilledCount: int
    var mempoolCount: int
    var extraCount: int

    constructor ()
      ensures header.None? && txnAvailable == [] && mempoolCount == extraCount == 0
    {
      header, txnAvailable := None, [];
      prefilledCount, mempoolCount, extraCount := 0, 0, 0;
    }

    /** The loop over the pool; it stops early when every slot is filled. */
    method ScanPool(sid: ShortId, pool: seq<Candidate>, m: map<nat, nat>, have0: seq<bool>) returns (have: seq<bool>)
      requires Scan(txnAvailable, have0, mempoolCount, extraCount).Fits(m)
      modifies this`txnAvailable, this`mempoolCount
      ensures Scan(txnAvailable, have, mempoolCount, extraCount)
           == PoolScan(sid, m, Scan(old(txnAvailable), have0, old(mempoolCount), extraCount), pool)
    {
      hide PoolStep;
      have := have0;
      ghost var s := Scan(txnAvailable, have, mempoolCount, extraCount);
      assert pool[0..] == pool;
      for i := 0 to |pool|
        invariant Scan(txnAvailable, have, mempoolCount, extraCount).Fits(m)
        invariant PoolScan(sid, m, Scan(txnAvailable, have, mempoolCount, extraCount), pool[i..])
          == PoolScan(sid, m, s, pool)
      {
        assert pool[i..][1..] == pool[i + 1..] && pool[i..][0] == pool[i];
        have := OnePool(sid, pool[i], m, have);
        if mempoolCount == |m| {
          return;
        }
      }
    }

    method OnePool(sid: ShortId, c: Candidate, m: map<nat, nat>, have0: seq<bool>) returns (have: seq<bool>)
      requires Scan(txnAvailable, have0, mempoolCount, extraCount).Fits(m)
      modifies this`txnAvailable, this`mempoolCount
      ensures Scan(txnAvailable, have, mempoolCount, extraCount)
           == PoolStep(sid, m, Scan(old(txnAvailable), have0, old(mempoolCount), extraCount), c)
    {
      have := have0;
      var shortid := sid(c.hash);
      if shortid in m {
        var j := m[shortid];
        if !have[j] {
          txnAvailable := txnAvailable[j := Some(c.tx)];
          have := have[j := true];
          mempoolCount := mempoolCount + 1;
        } else if txnAvailable[j].Some? {
          txnAvailable := txnAvailable[j := None];
          mempoolCount := mempoolCount - 1;
        }
      }
    }

    /** The loop over the extra transactions, where the same transaction again is no second match. */
    method ScanExtra(sid: ShortId, extra: seq<Candidate>, m: map<nat, nat>, have0: seq<bool>)
      returns (ghost have: seq<bool>)
      requires Scan(txnAvailable, have0, mempoolCount, extraCount).Fits(m)
      modifies this`txnAvailable, this`mempoolCount, this`extraCount
      ensures Scan(txnAvailable, have, mempoolCount, extraCount)
           == ExtraScan(sid, m, Scan(old(txnAvailable), have0, old(mempoolCount), old(extraCount)), extra)
    {
      hide ExtraStep;
      var marks := have0;
      ghost var s := Scan(txnAvailable, marks, mempoolCount, extraCount);
      assert extra[0..] == extra;
      for i := 0 to |extra|
        invariant Scan(txnAvailable, marks, mempoolCount, extraCount).Fits(m)
        invariant ExtraScan(sid, m, Scan(txnAvailable, marks, mempoolCount, extraCount), extra[i..])
          == ExtraScan(sid, m, s, extra)
      {
        assert extra[i..][1..] == extra[i + 1..] && extra[i..][0] == extra[i];
        marks := OneExtra(sid, extra[i], m, marks);
        if mempoolCount == |m| {
          break;
        }
      }
      have := marks;
    }

    method OneExtra(sid: ShortId, c: Candidate, m: map<nat, nat>, have0: seq<bool>) returns (have: seq<bool>)
      requires Scan(txnAvailable, have0, mempoolCount, extraCount).Fits(m)
      modifies this`txnAvailable, this`mempoolCount, this`extraCount
      ensures Scan(txnAvailable, have, mempoolCount, extraCount)
           == ExtraStep(sid, m, Scan(old(txnAvailable), have0, old(mempoolCount), old(extraCount)), c)
    {
      have := have0;
      var shortid := sid(c.hash);
      if shortid in m {
        var j := m[shortid];
        if !have[j] {
          txnAvailable := txnAvailable[j := Some(c.tx)];
          have := have[j := true];
          mempoolCount := mempoolCount + 1;
          extraCount := extraCount + 1;
        } else if txnAvailable[j].Some? && txnAvailable[j].value.witnessHash != c.tx.witnessHash {
          txnAvailable := txnAvailable[j := None];
          mempoolCount := mempoolCount - 1;
          extraCount := extraCount - 1;
        }
      }
    }

    /** Reading the message has limited its count to 16 bits. On success each slot is what was offered under its
        short id comes to. The first counter has grown by the filled ids, the second by the ids that the extra
        transactions gained, less those they contradicted. */
    method InitData(cmpct: CompactBlock, sid: ShortId, pool: seq<Candidate>, extra: seq<Candidate>,
                    crowded: nat -> bool)
      returns (status: Status)
      requires cmpct.BlockTxCount() <= MAX_INDEX
      modifies this
      ensures status == INVALID <==> !Acceptable(cmpct) || old(header).Some? || old(txnAvailable) != []
      ensures status != INVALID ==> (status == OK <==> Unambiguous(cmpct, crowded))
      ensures status != INVALID ==> (status == FAILED <==> !Unambiguous(cmpct, crowded))
      ensures status == OK ==> Acceptable(cmpct) && header == cmpct.header
      ensures status == OK ==>
        var (p, e) := LookedAt(sid, cmpct.shorttxids, old(mempoolCount), pool, extra);
        && Contents(PlacedIn(cmpct), cmpct.shorttxids, sid, p, e, txnAvailable)
        && mempoolCount == old(mempoolCount) + Count(cmpct.shorttxids, Fills(sid, p, e))
        && extraCount == old(extraCount) + Count(cmpct.shorttxids, Gained(sid, p, e))
                         - Count(cmpct.shorttxids, Contradicted(sid, p, e))
      ensures status == OK ==>
        && mempoolCount == old(mempoolCount) + |cmpct.shorttxids| - |Free(txnAvailable, |txnAvailable|)|
        && SlotsOk(PlacedIn(cmpct), cmpct.shorttxids, sid, pool + extra, txnAvailable)
    {
      hide Contents;
      hide SlotsOk;
      hide MapOk;
      hide PrefilledOk;
      hide Placed;
      hide Free;
      hide Distinct;
      hide PoolScan;
      hide ExtraScan;
      hide LookedAt;
      hide Count;
      if cmpct.header.None? || (cmpct.shorttxids == [] && cmpct.prefilledtxn == []) {
        return INVALID;
      }
      if |cmpct.shorttxids| + |cmpct.prefilledtxn| > MAX_TXS {
        return INVALID;
      }
      if header.Some? || txnAvailable != [] {
        return INVALID;
      }
      header := cmpct.header;
      var ok, placed := PlaceAll(cmpct.prefilledtxn, |cmpct.shorttxids|);
      txnAvailable := placed;
      if !ok {
        return INVALID;
      }
      prefilledCount := |cmpct.prefilledtxn|;
      assert placed == PlacedIn(cmpct);
      var mapped, m := MapShortIds(placed, cmpct.shorttxids, crowded);
      if !mapped {
        return FAILED;
      }
      var have := seq(|placed|, _ => false);
      ScanExact(placed, cmpct.shorttxids, sid, m, pool, extra, mempoolCount, extraCount);
      have := ScanPool(sid, pool, m, have);
      ghost var marks := ScanExtra(sid, extra, m, have);
      InitOffers(cmpct, sid, old(mempoolCount), pool, extra, txnAvailable);
      return OK;
    }

    method IsTxAvailable(index: nat) returns (available: bool)
      requires header.Some? ==> index < |txnAvailable|
      ensures available <==> header.Some? && txnAvailable[index].Some?
    {
      if header.None? {
        return false;
      }
      available := txnAvailable[index].Some?;
    }

    /** The receiver's request: the positions that are still free, in order. */
    method Request() returns (indexes: seq<nat>)
      requires header.Some?
      ensures indexes == Free(txnAvailable, |txnAvailable|)
    {
      indexes := [];
      for i := 0 to |txnAvailable|
        invariant indexes == Free(txnAvailable, i)
      {
        var available := IsTxAvailable(i);
        if !available {
          indexes := indexes + [i];
        }
      }
    }

    /** The missing transactions go to the free positions in order. `check` stands for CheckBlock, with
        FAILED for a mutated block. After the transactions are used up the object cannot be filled again. With
        too few of them the positions before the first one left open have already been emptied. */
    method FillBlock(vtxMissing: seq<Tx>, check: seq<Tx> -> Status) returns (status: Status, vtx: seq<Tx>)
      modifies this
      ensures old(header).None? ==> status == INVALID && header.None? && txnAvailable == old(txnAvailable)
      ensures var a := old(txnAvailable);
        old(header).Some? && |vtxMissing| < |Free(a, |a|)| ==>
        status == INVALID && header == old(header) && txnAvailable == Emptied(a, Free(a, |a|)[|vtxMissing|])
      ensures var a := old(txnAvailable);
        old(header).Some? && |vtxMissing| > |Free(a, |a|)| ==> status == INVALID && header.None? && txnAvailable == []
      ensures old(header).Some? && |vtxMissing| == |Free(old(txnAvailable), |old(txnAvailable)|)| ==>
        vtx == Rebuilt(old(txnAvailable), vtxMissing) && header.None? && txnAvailable == []
        && status == match check(vtx) { case OK => OK case FAILED => FAILED case _ => CHECKBLOCK_FAILED }
    {
      vtx := [];
      if header.None? {
        return INVALID, vtx;
      }
      hide *;
      var a := txnAvailable;
      var offset := 0;
      FreeStart(a);
      RebuiltStart(a, vtxMissing);
      for i := 0 to |a|
        invariant header == old(header)
        invariant txnAvailable == Emptied(a, i) && offset == |Free(a, i)| <= |vtxMissing| && |vtx| == i
        invariant vtx == Rebuilt(a, vtxMissing)[..i]
      {
        FreeNext(a, i);
        FreeGrows(a, i + 1, |a|);
        RebuiltNext(a, vtxMissing, i);
        if a[i].None? {
          if |vtxMissing| <= offset {
            FreeHas(a, |a|, i);
            return INVALID, vtx;
          }
          vtx := vtx + [vtxMissing[offset]];
          offset := offset + 1;
        } else {
          vtx := vtx + [a[i].value];
          txnAvailable := txnAvailable[i := None];
        }
      }
      header, txnAvailable := None, [];
      if |vtxMissing| != offset {
        return INVALID, vtx;
      }
      var checked := check(vtx);
      status := match checked { case OK => OK case FAILED => FAILED case _ => CHECKBLOCK_FAILED };
    }
  }

  /** The first `n` slots given away. */
  ghost function Emptied(a: Slots, n: nat): (r: Slots)
    ensures |r| == |a| && forall j :: 0 <= j < |a| ==> r[j] == if j < n then None else a[j]
  {
    seq(|a|, j requires 0 <= j < |a| => if j < n then None else a[j])
  }

  lemma RebuiltStart(a: Slots, missing: seq<Tx>)
    ensures Emptied(a, 0) == a && Rebuilt(a, missing)[..0] == [] && Rebuilt(a, missing)[..|a|] == Rebuilt(a, missing)
  {
  }

  lemma RebuiltNext(a: Slots, missing: seq<Tx>, i: nat)
    requires i < |a|
    ensures Emptied(a, i + 1) == Emptied(a, i)[i := None] && (a[i].None? ==> Emptied(a, i + 1) == Emptied(a, i))
    ensures Emptied(a, i)[i] == a[i]
    ensures a[i].Some? ==> Rebuilt(a, missing)[..i + 1] == Rebuilt(a, missing)[..i] + [a[i].value]
    ensures a[i].None? && |Free(a, i)| < |missing| ==>
      Rebuilt(a, missing)[..i + 1] == Rebuilt(a, missing)[..i] + [missing[|Free(a, i)|]]
  {
    hide Free;
  }

  /** The second counter falls when an extra transaction contradicts one from the pool: an announced transaction
      is found, and then another of the same short id comes with another witness hash. */
  method ExtraCountNegative(header: Header, sid: ShortId, c: Candidate, d: Candidate)
    returns (block: PartiallyDownloadedBlock)
    requires sid(c.hash) == sid(d.hash) && c.tx.witnessHash != d.tx.witnessHash
    ensures block.header == Some(header) && block.txnAvailable == [None]
    ensures block.mempoolCount == 0 && block.extraCount == -1
  {
    hide Contents;
    hide LookedAt;
    var x := sid(c.hash);
    var cmpct := CompactBlock(Some(header), [x], []);
    OneAnnounced(header, x);
    block := new PartiallyDownloadedBlock();
    var status := block.InitData(cmpct, sid, [c], [d], _ => false);
    OneContradicted(sid, c, d);
    OneSlot(sid, c, d, block.txnAvailable);
  }

  lemma OneAnnounced(header: Header, x: nat)
    ensures var cmpct := CompactBlock(Some(header), [x], []);
      Acceptable(cmpct) && Unambiguous(cmpct, _ => false) && PlacedIn(cmpct) == [None] && Free([None], 1) == [0]
  {
    var cmpct := CompactBlock(Some(header), [x], []);
    assert PrefilledOk([], 1, 0);
    assert PlacedIn(cmpct) == [None];
  }

  lemma OneContradicted(sid: ShortId, c: Candidate, d: Candidate)
    requires sid(c.hash) == sid(d.hash) && c.tx.witnessHash != d.tx.witnessHash
    ensures var ids := [sid(c.hash)];
      && LookedAt(sid, ids, 0, [c], [d]) == ([c], [d])
      && Count(ids, Fills(sid, [c], [d])) == 0 && Count(ids, Gained(sid, [c], [d])) == 0
      && Count(ids, Contradicted(sid, [c], [d])) == 1
  {
    var x := sid(c.hash);
    var ids := [x];
    OneUnder(sid, c);
    OneUnder(sid, d);
    hide Under;
    UnderNone(sid, x);
    assert [] + [c] == [c] && [] + [d] == [d] && [c][1..] == [] && [d][1..] == [];
    assert [d.tx][0].witnessHash != [c.tx][0].witnessHash;
    assert ids[..0] == [];
    assert Count(ids, Fills(sid, [c], [])) == 1;
    assert PoolPart(sid, ids, 0, [], [c]) == [c];
    assert ExtraPart(sid, ids, 0, [c], [d], []) == [d];
  }

  lemma OneUnder(sid: ShortId, c: Candidate)
    ensures Under(sid, [c], sid(c.hash)) == [c.tx]
  {
    assert [c][..0] == [];
  }

  lemma OneSlot(sid: ShortId, c: Candidate, d: Candidate, a: Slots)
    requires sid(c.hash) == sid(d.hash) && c.tx.witnessHash != d.tx.witnessHash
    requires |Free([None], 1)| == 1 && Contents([None], [sid(c.hash)], sid, [c], [d], a)
    ensures a == [None]
  {
    assert Free([None], 0) == [];
    OneUnder(sid, c);
    OneUnder(sid, d);
    assert [d.tx][0].witnessHash != [c.tx][0].witnessHash;
    hide Under;
    assert a[0] == None;
  }

  /** The transaction at position `j`, with missing ones taken in order; a constant beyond their number. */
  ghost function RebuiltAt(a: Slots, missing: seq<Tx>, j: nat): Tx
    requires j < |a|
  {
    if a[j].Some? then a[j].value else if |Free(a, j)| < |missing| then missing[|Free(a, j)|] else Tx(0, true, 0)
  }

  ghost function Rebuilt(a: Slots, missing: seq<Tx>): (r: seq<Tx>)
    ensures |r| == |a| && forall j :: 0 <= j < |a| ==> r[j] == RebuiltAt(a, missing, j)
  {
    seq(|a|, j requires 0 <= j < |a| => RebuiltAt(a, missing, j))
  }

  // ---------------------------------------------------------------------
  // Reconstruction
  // ---------------------------------------------------------------------

  /** `cmpct` announces exactly the transactions `vtx`; `key` is the hash that short ids are made from. */
  ghost predicate Represents(cmpct: CompactBlock, vtx: seq<Tx>, sid: ShortId, key: Tx -> nat) {
    && Acceptable(cmpct) && |vtx| == cmpct.BlockTxCount()
    && (forall i :: 0 <= i < |cmpct.prefilledtxn| ==> PrefilledMatches(cmpct, vtx, i))
    && (forall i :: 0 <= i < |cmpct.shorttxids| ==>
         cmpct.shorttxids[i] == sid(key(vtx[Free(PlacedIn(cmpct), |vtx|)[i]])))
  }

  ghost predicate PrefilledMatches(cmpct: CompactBlock, vtx: seq<Tx>, i: nat)
    requires i < |cmpct.prefilledtxn|
  {
    var j := Position(cmpct.prefilledtxn, i + 1);
    0 <= j < |vtx| && vtx[j] == cmpct.prefilledtxn[i].tx
  }

  /** The transactions of `vtx` at the free positions of `a`, in order: what the receiver asks for. */
  ghost function Missing(a: Slots, vtx: seq<Tx>): (r: seq<Tx>)
    requires |a| == |vtx|
    ensures |r| == |Free(a, |a|)|
  {
    seq(|Free(a, |a|)|, i requires 0 <= i < |Free(a, |a|)| => vtx[Free(a, |a|)[i]])
  }

  /** Whatever is offered under the short id of a position that is not prefilled is the transaction there. */
  ghost predicate NoForeign(placed: Slots, vtx: seq<Tx>, sid: ShortId, key: Tx -> nat, offered: seq<Candidate>) {
    |placed| == |vtx| && forall c, j ::
      c in offered && 0 <= j < |vtx| && placed[j].None? && sid(c.hash) == sid(key(vtx[j])) ==> c.tx == vtx[j]
  }

  lemma SlotRight(cmpct: CompactBlock, vtx: seq<Tx>, sid: ShortId, key: Tx -> nat, offered: seq<Candidate>, a: Slots,
                  j: nat)
    requires Represents(cmpct, vtx, sid, key) && NoForeign(PlacedIn(cmpct), vtx, sid, key, offered)
    requires SlotsOk(PlacedIn(cmpct), cmpct.shorttxids, sid, offered, a) && j < |a| && a[j].Some?
    ensures |a| == |vtx| && a[j].value == vtx[j]
  {
    var placed := PlacedIn(cmpct);
    var pre, s := cmpct.prefilledtxn, |cmpct.shorttxids|;
    if placed[j].Some? {
      PlacedAt(pre, s, |pre|, j);
      var i :| 0 <= i < |pre| && j == Position(pre, i + 1) && placed[j] == Some(pre[i].tx);
      assert PrefilledMatches(cmpct, vtx, i);
    } else {
      hide Free;
      FreeHas(placed, |placed|, j);
      var id := IdAt(placed, cmpct.shorttxids, j);
      var c :| c in offered && c.tx == a[j].value && sid(c.hash) == id;
      assert id == sid(key(vtx[j]));
    }
  }

  /** If the pool does not offer two transactions for a position, it is filled exactly when its transaction is
      offered, by the pool or as an extra one. */
  lemma FilledIff(cmpct: CompactBlock, vtx: seq<Tx>, sid: ShortId, key: Tx -> nat,
                  pool: seq<Candidate>, extra: seq<Candidate>, a: Slots, j: nat)
    requires Represents(cmpct, vtx, sid, key) && NoForeign(PlacedIn(cmpct), vtx, sid, key, pool + extra)
    requires var (p, e) := LookedAt(sid, cmpct.shorttxids, 0, pool, extra);
      Contents(PlacedIn(cmpct), cmpct.shorttxids, sid, p, e, a)
    requires j < |vtx| && PlacedIn(cmpct)[j].None? && |Under(sid, pool, sid(key(vtx[j])))| <= 1
    ensures |a| == |vtx|
    ensures a[j] == Some(vtx[j]) <==> exists c :: c in pool + extra && sid(c.hash) == sid(key(vtx[j]))
  {
    var placed, ids, id := PlacedIn(cmpct), cmpct.shorttxids, sid(key(vtx[j]));
    var (p, e) := LookedAt(sid, ids, 0, pool, extra);
    IdOf(cmpct, vtx, sid, key, j);
    InitOffers(cmpct, sid, 0, pool, extra, a);
    hide Represents;
    hide NoForeign;
    hide SlotsOk;
    hide Free;
    hide LookedAt;
    hide Under;
    hide SlotOf;
    if a[j].Some? {
      SlotRight(cmpct, vtx, sid, key, pool + extra, a, j);
      SlotOffers(placed, ids, sid, pool + extra, a, j);
    }
    if c :| c in pool + extra && sid(c.hash) == id {
      OfferedUnder(sid, pool, extra, id, c);
      OfferedFills(ids, vtx, sid, key, placed, pool, extra, j, |Free(placed, j)|);
    }
  }

  lemma SlotOffers(placed: Slots, ids: seq<nat>, sid: ShortId, offered: seq<Candidate>, a: Slots, j: nat)
    requires |Free(placed, |placed|)| == |ids| && SlotsOk(placed, ids, sid, offered, a)
    requires j < |a| && placed[j].None? && a[j].Some?
    ensures exists c :: c in offered && sid(c.hash) == IdAt(placed, ids, j)
  {
  }

  lemma OfferedUnder(sid: ShortId, pool: seq<Candidate>, extra: seq<Candidate>, id: nat, c: Candidate)
    requires c in pool + extra && sid(c.hash) == id
    ensures Under(sid, pool, id) != [] || Under(sid, extra, id) != []
  {
    if k :| 0 <= k < |pool| && pool[k] == c {
      UnderSome(sid, pool, id, k);
    } else {
      var k :| 0 <= k < |extra| && extra[k] == c;
      UnderSome(sid, extra, id, k);
    }
  }

  lemma IdOf(cmpct: CompactBlock, vtx: seq<Tx>, sid: ShortId, key: Tx -> nat, j: nat)
    requires Represents(cmpct, vtx, sid, key) && j < |vtx| && PlacedIn(cmpct)[j].None?
    ensures var k := |Free(PlacedIn(cmpct), j)|;
      k < |cmpct.shorttxids| && cmpct.shorttxids[k] == sid(key(vtx[j])) == IdAt(PlacedIn(cmpct), cmpct.shorttxids, j)
  {
    FreeHas(PlacedIn(cmpct), |vtx|, j);
  }

  /** Whatever part is looked at, an id under which only its own transaction is offered, once by the pool at most,
      is filled. */
  lemma OfferedFills(ids: seq<nat>, vtx: seq<Tx>, sid: ShortId, key: Tx -> nat, placed: Slots,
                     pool: seq<Candidate>, extra: seq<Candidate>, j: nat, k: nat)
    requires NoForeign(placed, vtx, sid, key, pool + extra) && j < |vtx| && placed[j].None?
    requires k < |ids| && ids[k] == sid(key(vtx[j])) && |Under(sid, pool, ids[k])| <= 1
    requires Under(sid, pool, ids[k]) != [] || Under(sid, extra, ids[k]) != []
    ensures var (p, e) := LookedAt(sid, ids, 0, pool, extra);
      SlotOf(Under(sid, p, ids[k]), Under(sid, e, ids[k])).Some?
  {
    var (p, e) := LookedAt(sid, ids, 0, pool, extra);
    LookedAtIs(sid, ids, 0, pool, extra);
    hide LookedAt;
    hide Under;
    if Count(ids, Fills(sid, p, e)) == |ids| {
      CountAll(ids, Fills(sid, p, e), k);
    } else {
      assert e == extra;
      UnderPrefix(sid, pool, |p|, ids[k]);
      assert pool[..|p|] == p;
      forall i | 0 <= i < |Under(sid, e, ids[k])| ensures Under(sid, e, ids[k])[i] == vtx[j] {
        var l := UnderIs(sid, e, ids[k], i);
        assert (pool + extra)[|pool| + l] == extra[l];
        assert extra[l] in pool + extra;
      }
      if Under(sid, p, ids[k]) != [] {
        var l := UnderIs(sid, p, ids[k], 0);
        assert (pool + extra)[l] == pool[l];
        assert pool[l] in pool + extra;
      } else if p != pool {
        CountAll(ids, Fills(sid, p, []), k);
        UnderNone(sid, ids[k]);
      }
    }
  }

  /** Given the block's own transactions for the positions that stay free, the block is rebuilt exactly. */
  lemma Reconstructs(cmpct: CompactBlock, vtx: seq<Tx>, sid: ShortId, key: Tx -> nat, offered: seq<Candidate>, a: Slots)
    requires Represents(cmpct, vtx, sid, key) && NoForeign(PlacedIn(cmpct), vtx, sid, key, offered)
    requires SlotsOk(PlacedIn(cmpct), cmpct.shorttxids, sid, offered, a)
    ensures |a| == |vtx| && Rebuilt(a, Missing(a, vtx)) == vtx
  {
    hide Represents;
    hide NoForeign;
    hide Free;
    CountsAgree(cmpct, vtx, sid, key);
    forall j | 0 <= j < |a| ensures RebuiltAt(a, Missing(a, vtx), j) == vtx[j] {
      if a[j].Some? {
        SlotRight(cmpct, vtx, sid, key, offered, a, j);
      } else {
        FreeHas(a, |a|, j);
      }
    }
  }

  lemma CountsAgree(cmpct: CompactBlock, vtx: seq<Tx>, sid: ShortId, key: Tx -> nat)
    requires Represents(cmpct, vtx, sid, key)
    ensures Acceptable(cmpct) && |PlacedIn(cmpct)| == |vtx|
  {
  }

  /** The sender's message: the first transaction prefilled, short ids for the others. */
  method Announce(header: Header, vtx: seq<Tx>, sid: ShortId, key: Tx -> nat) returns (cmpct: CompactBlock)
    requires vtx != []
    ensures cmpct == CompactBlock(Some(header), Announced(vtx, sid, key), [Prefilled(0, vtx[0])])
  {
    var shorttxids: seq<nat> := [];
    for i := 1 to |vtx|
      invariant shorttxids == Announced(vtx, sid, key)[..i - 1]
    {
      shorttxids := shorttxids + [sid(key(vtx[i]))];
    }
    cmpct := CompactBlock(Some(header), shorttxids, [Prefilled(0, vtx[0])]);
  }

  function Announced(vtx: seq<Tx>, sid: ShortId, key: Tx -> nat): (r: seq<nat>)
    requires vtx != []
    ensures |r| == |vtx| - 1 && forall i :: 0 <= i < |r| ==> r[i] == sid(key(vtx[i + 1]))
  {
    seq(|vtx| - 1, i requires 0 <= i < |vtx| - 1 => sid(key(vtx[i + 1])))
  }

  /** The sender's message is acceptable and announces the block it was made from. */
  lemma AnnounceRepresents(header: Header, vtx: seq<Tx>, sid: ShortId, key: Tx -> nat)
    requires 0 < |vtx| <= MAX_INDEX && !vtx[0].isNull
    ensures Represents(CompactBlock(Some(header), Announced(vtx, sid, key), [Prefilled(0, vtx[0])]), vtx, sid, key)
  {
    var pre := [Prefilled(0, vtx[0])];
    var cmpct := CompactBlock(Some(header), Announced(vtx, sid, key), pre);
    assert Position(pre, 1) == 0;
    assert OneOk(pre, |vtx| - 1, 0);
    var placed := PlacedIn(cmpct);
    assert PrefilledMatches(cmpct, vtx, 0);
    forall j | 0 <= j < |placed| ensures placed[j].Some? <==> j == 0 {
      PlacedAt(pre, |vtx| - 1, 1, j);
    }
    forall i | 0 <= i < |vtx| - 1 ensures Free(placed, |vtx|)[i] == i + 1 {
      FreeAfterFirst(placed, |vtx|, i);
    }
  }

  lemma {:induction false} FreeAfterFirst(placed: Slots, n: nat, i: nat)
    requires 0 < n <= |placed| && (forall j :: 0 <= j < n ==> (placed[j].Some? <==> j == 0)) && i < n - 1
    ensures |Free(placed, n)| == n - 1 && Free(placed, n)[i] == i + 1
    decreases n
  {
    if n > 2 {
      FreeAfterFirst(placed, n - 1, if i < n - 2 then i else 0);
    } else {
      assert Free(placed, 1) == [];
    }
  }

  // ---------------------------------------------------------------------
  // Differential coding of index lists
  // ---------------------------------------------------------------------

  /** The largest size that is read back. */
  const MAX_SIZE := 0x0200_0000

  /** The formatter carries the next index that could come. */
  class DifferenceFormatter {
    var shift: nat

    constructor ()
      ensures shift == 0
    {
      shift := 0;
    }

    /** None where the source throws. */
    method Ser(v: nat) returns (n: Option<nat>)
      requires v < WORD64
      modifies this
      ensures n.Some? <==> old(shift) <= v < WORD64 - 1
      ensures n.Some? ==> n.value == v - old(shift) && shift == v + 1
      ensures n.None? ==> shift == old(shift)
    {
      if v < shift || v >= WORD64 - 1 {
        return None;
      }
      n := Some(v - shift);
      shift := v + 1;
    }

    /** `max` is the largest value of the type read into; the sum wraps around at 64 bits. */
    method Unser(n: nat, max: nat) returns (v: Option<nat>)
      requires n < WORD64 && shift < WORD64 && max < WORD64
      modifies this
      ensures v.Some? <==> n <= MAX_SIZE && old(shift) + n < WORD64 - 1 && old(shift) + n <= max
      ensures v.Some? ==> v.value == old(shift) + n && shift == v.value + 1 && shift < WORD64
      ensures n > MAX_SIZE ==> shift == old(shift)
    {
      if n > MAX_SIZE {
        return None;
      }
      shift := (shift + n) % WORD64;
      if shift < n || shift >= WORD64 - 1 || shift > max {
        return None;
      }
      v := Some(shift);
      shift := shift + 1;
    }
  }

  /** Strictly rising from `shift`, and below the reserved largest word. */
  ghost predicate Rising(vs: seq<nat>, shift: nat) {
    (forall i :: 0 <= i < |vs| ==> shift <= vs[i] < WORD64 - 1) && forall i, j :: 0 <= i < j < |vs| ==> vs[i] < vs[j]
  }

  function NextShift(vs: seq<nat>): nat { if vs == [] then 0 else vs[|vs| - 1] + 1 }

  /** The differences that are written for a list of indexes. */
  function Deltas(vs: seq<nat>): seq<int> {
    if vs == [] then [] else Deltas(vs[..|vs| - 1]) + [vs[|vs| - 1] - NextShift(vs[..|vs| - 1])]
  }

  lemma RisingNext(vs: seq<nat>, v: nat)
    requires Rising(vs, 0) && v < WORD64
    ensures Rising(vs + [v], 0) <==> NextShift(vs) <= v < WORD64 - 1
  {
    var all := vs + [v];
    assert all[|vs|] == v;
    if vs != [] {
      assert all[|vs| - 1] == vs[|vs| - 1];
    }
  }

  /** A list can be written exactly when it is strictly rising. */
  method SerAll(vs: seq<nat>) returns (ns: Option<seq<nat>>)
    requires forall i :: 0 <= i < |vs| ==> vs[i] < WORD64
    ensures ns.Some? <==> Rising(vs, 0)
    ensures ns.Some? ==> ns.value == Deltas(vs)
  {
    hide Rising;
    NothingRising();
    var formatter := new DifferenceFormatter();
    var got: seq<nat> := [];
    for i := 0 to |vs|
      invariant fresh(formatter) && formatter.shift == NextShift(vs[..i]) && Rising(vs[..i], 0)
                && got == Deltas(vs[..i])
    {
      assert vs[..i + 1] == vs[..i] + [vs[i]];
      assert vs[..i + 1][..i] == vs[..i];
      RisingNext(vs[..i], vs[i]);
      var n := formatter.Ser(vs[i]);
      if n.None? {
        RisingPrefix(vs, i + 1);
        return None;
      }
      got := got + [n.value];
    }
    assert vs[..|vs|] == vs;
    return Some(got);
  }

  lemma NothingRising()
    ensures Rising([], 0)
  {
  }

  lemma RisingPrefix(vs: seq<nat>, n: nat)
    requires n <= |vs|
    ensures Rising(vs, 0) ==> Rising(vs[..n], 0)
  {
  }

  ghost predicate AtMost(vs: seq<nat>, max: nat) { forall i :: 0 <= i < |vs| ==> vs[i] <= max }

  /** `vs` is a list of indexes up to `max` that is written as `ns`. */
  ghost predicate WrittenAs(vs: seq<nat>, ns: seq<int>, max: nat) {
    Rising(vs, 0) && Deltas(vs) == ns && AtMost(vs, max)
  }

  /** No number is larger than what is read back, their count included. */
  ghost predicate Readable(ns: seq<int>) { |ns| <= MAX_SIZE && forall i :: 0 <= i < |ns| ==> ns[i] <= MAX_SIZE }

  /** Reading undoes writing, up to the sizes that are read back: it gives the list that is written so, and fails
      when there is none. */
  method UnserAll(ns: seq<nat>, max: nat) returns (vs: Option<seq<nat>>)
    requires max < WORD64 && forall i :: 0 <= i < |ns| ==> ns[i] < WORD64
    ensures vs.Some? ==> WrittenAs(vs.value, ns, max) && Readable(ns)
    ensures forall ws :: WrittenAs(ws, ns, max) && Readable(ns) ==> vs == Some(ws)
  {
    hide WrittenAs;
    if |ns| > MAX_SIZE {
      return None;
    }
    var formatter := new DifferenceFormatter();
    var got: seq<nat> := [];
    NothingWritten(max);
    for i := 0 to |ns|
      invariant fresh(formatter) && formatter.shift == NextShift(got) < WORD64 && WrittenAs(got, ns[..i], max)
      invariant forall k :: 0 <= k < i ==> ns[k] <= MAX_SIZE
    {
      var v := formatter.Unser(ns[i], max);
      if v.None? {
        if ns[i] <= MAX_SIZE {
          forall ws ensures !WrittenAs(ws, ns, max) {
            NotWritten(got, ns, i, max, ws);
          }
        }
        return None;
      }
      WrittenNext(got, ns, i, max, v.value);
      got := got + [v.value];
    }
    assert ns[..|ns|] == ns;
    forall ws | WrittenAs(ws, ns, max) ensures ws == got {
      WrittenOnce(ws, got, ns, max);
    }
    return Some(got);
  }

  /** Indexes of a type with no more values than that are always read back. */
  lemma SmallReadable(vs: seq<nat>, ns: seq<int>, max: nat)
    requires WrittenAs(vs, ns, max) && max < MAX_SIZE
    ensures Readable(ns)
  {
    DeltasSize(vs);
    if vs != [] {
      RisingAt(vs, |vs| - 1);
    }
    forall i | 0 <= i < |vs| ensures ns[i] <= MAX_SIZE {
      DeltasAt(vs, i);
    }
  }

  lemma {:induction false} RisingAt(vs: seq<nat>, i: nat)
    requires Rising(vs, 0) && i < |vs|
    ensures i <= vs[i]
  {
    if i > 0 {
      RisingAt(vs, i - 1);
    }
  }

  lemma NothingWritten(max: nat)
    ensures WrittenAs([], [], max)
  {
  }

  lemma WrittenNext(got: seq<nat>, ns: seq<int>, i: nat, max: nat, v: nat)
    requires i < |ns| && WrittenAs(got, ns[..i], max) && v == NextShift(got) + ns[i] && ns[i] >= 0 && v < WORD64 - 1
             && v <= max
    ensures WrittenAs(got + [v], ns[..i + 1], max)
  {
    RisingNext(got, v);
    DeltasNext(got, v);
    hide Rising;
    hide Deltas;
    assert ns[..i + 1] == ns[..i] + [ns[i]];
  }

  lemma DeltasNext(vs: seq<nat>, v: nat)
    ensures Deltas(vs + [v]) == Deltas(vs) + [v - NextShift(vs)]
  {
    hide NextShift;
    var all := vs + [v];
    assert all[..|all| - 1] == vs && all[|all| - 1] == v;
  }

  lemma WrittenOnce(vs: seq<nat>, ws: seq<nat>, ns: seq<int>, max: nat)
    requires WrittenAs(vs, ns, max) && WrittenAs(ws, ns, max)
    ensures vs == ws
  {
    DeltasSame(vs, ws);
  }

  lemma NotWritten(got: seq<nat>, ns: seq<int>, i: nat, max: nat, ws: seq<nat>)
    requires i < |ns| && WrittenAs(got, ns[..i], max)
    requires NextShift(got) + ns[i] >= WORD64 - 1 || NextShift(got) + ns[i] > max
    ensures !WrittenAs(ws, ns, max)
  {
    if Deltas(ws) == ns {
      ForcedNext(got, ns, i, ws);
    }
  }

  /** What a list with the differences `ns` must have after `got`. */
  lemma ForcedNext(got: seq<nat>, ns: seq<int>, i: nat, ws: seq<nat>)
    requires i < |ns| && Deltas(got) == ns[..i] && Deltas(ws) == ns
    ensures i < |ws| && ws[i] == NextShift(got) + ns[i]
  {
    DeltasSize(ws);
    DeltasPrefix(ws, i);
    DeltasSame(got, ws[..i]);
    DeltasAt(ws, i);
  }

  lemma {:induction false} DeltasSize(vs: seq<nat>)
    ensures |Deltas(vs)| == |vs|
    decreases |vs|
  {
    if vs != [] {
      DeltasSize(vs[..|vs| - 1]);
    }
  }

  lemma {:induction false} DeltasPrefix(vs: seq<nat>, n: nat)
    requires n <= |vs|
    ensures |Deltas(vs)| == |vs| && Deltas(vs[..n]) == Deltas(vs)[..n]
    decreases |vs|
  {
    DeltasSize(vs);
    if n < |vs| {
      DeltasPrefix(vs[..|vs| - 1], n);
      assert vs[..|vs| - 1][..n] == vs[..n];
      DeltasSize(vs[..|vs| - 1]);
    } else {
      assert vs[..n] == vs;
    }
  }

  lemma DeltasAt(vs: seq<nat>, i: nat)
    requires i < |vs|
    ensures |Deltas(vs)| == |vs| && Deltas(vs)[i] == vs[i] - NextShift(vs[..i])
  {
    DeltasPrefix(vs, i + 1);
    assert vs[..i + 1][..i] == vs[..i];
    DeltasSize(vs[..i]);
  }

  /** Different lists have different differences. */
  lemma {:induction false} DeltasSame(vs: seq<nat>, ws: seq<nat>)
    requires Deltas(vs) == Deltas(ws)
    ensures vs == ws
    decreases |vs|
  {
    DeltasSize(vs);
    DeltasSize(ws);
    if vs != [] {
      var n := |vs| - 1;
      DeltasPrefix(vs, n);
      DeltasPrefix(ws, n);
      DeltasSame(vs[..n], ws[..n]);
      DeltasAt(vs, n);
      DeltasAt(ws, n);
      assert vs == vs[..n] + [vs[n]] && ws == ws[..n] + [ws[n]];
    }
  }

  // ---------------------------------------------------------------------
  // The whole exchange
  // ---------------------------------------------------------------------

  lemma {:induction false} FreeRising(a: Slots, n: nat)
    requires n <= |a| <= MAX_INDEX + 1
    ensures Rising(Free(a, n), 0) && AtMost(Free(a, n), MAX_INDEX)
  {
    if n > 0 {
      FreeRising(a, n - 1);
    }
  }

  lemma DeltasSmall(vs: seq<nat>)
    requires Rising(vs, 0)
    ensures |Deltas(vs)| == |vs| && forall i :: 0 <= i < |vs| ==> Deltas(vs)[i] < WORD64
  {
    DeltasSize(vs);
    forall i | 0 <= i < |vs| ensures Deltas(vs)[i] < WORD64 {
      DeltasAt(vs, i);
    }
  }

  /** The sender's answer to a request; None for an index outside the block. */
  method Answer(vtx: seq<Tx>, indexes: seq<nat>) returns (txs: Option<seq<Tx>>)
    ensures txs.Some? <==> forall i :: 0 <= i < |indexes| ==> indexes[i] < |vtx|
    ensures txs.Some? ==> |txs.value| == |indexes| && forall i :: 0 <= i < |indexes| ==> txs.value[i] == vtx[indexes[i]]
  {
    var got := [];
    for i := 0 to |indexes|
      invariant |got| == i && forall k :: 0 <= k < i ==> indexes[k] < |vtx| && got[k] == vtx[indexes[k]]
    {
      if indexes[i] >= |vtx| {
        return None;
      }
      got := got + [vtx[indexes[i]]];
    }
    return Some(got);
  }

  /** The request, written and read again. */
  method Transmit(indexes: seq<nat>) returns (read: seq<nat>)
    requires Rising(indexes, 0) && AtMost(indexes, MAX_INDEX)
    ensures read == indexes
  {
    var wire := SerAll(indexes);
    DeltasSmall(indexes);
    var back := UnserAll(wire.value, MAX_INDEX);
    assert WrittenAs(indexes, wire.value, MAX_INDEX);
    SmallReadable(indexes, wire.value, MAX_INDEX);
    read := back.value;
  }

  /** Announcing a block, filling in what the receiver has, asking for the rest and answering: if no short id
      is repeated and none is that of a foreign transaction, the receiver checks exactly the sender's block. */
  method Relay(header: Header, vtx: seq<Tx>, sid: ShortId, key: Tx -> nat, pool: seq<Candidate>, extra: seq<Candidate>,
               crowded: nat -> bool, check: seq<Tx> -> Status) returns (status: Status, got: seq<Tx>)
    requires 0 < |vtx| <= MAX_INDEX && !vtx[0].isNull
    requires forall c, j :: c in pool + extra && 1 <= j < |vtx| && sid(c.hash) == sid(key(vtx[j])) ==> c.tx == vtx[j]
    ensures Distinct(Announced(vtx, sid, key)) && (forall i :: 0 <= i < |vtx| - 1 ==> !crowded(i)) ==>
      got == vtx && status == match check(vtx) { case OK => OK case FAILED => FAILED case _ => CHECKBLOCK_FAILED }
    ensures !(Distinct(Announced(vtx, sid, key)) && forall i :: 0 <= i < |vtx| - 1 ==> !crowded(i)) ==> status == FAILED
  {
    hide Distinct;
    hide SlotsOk;
    hide Contents;
    hide LookedAt;
    hide Free;
    hide Represents;
    hide NoForeign;
    var cmpct := Announce(header, vtx, sid, key);
    AnnounceRepresents(header, vtx, sid, key);
    CountsAgree(cmpct, vtx, sid, key);
    OnlyFirstPlaced(header, vtx, sid, key, pool + extra);
    var block := new PartiallyDownloadedBlock();
    status := block.InitData(cmpct, sid, pool, extra, crowded);
    got := [];
    if status != OK {
      return;
    }
    ghost var a := block.txnAvailable;
    Reconstructs(cmpct, vtx, sid, key, pool + extra, a);
    var indexes := block.Request();
    FreeRising(a, |a|);
    indexes := Transmit(indexes);
    var txs := Answer(vtx, indexes);
    assert txs.value == Missing(a, vtx);
    status, got := block.FillBlock(txs.value, check);
  }

  lemma OnlyFirstPlaced(header: Header, vtx: seq<Tx>, sid: ShortId, key: Tx -> nat, offered: seq<Candidate>)
    requires 0 < |vtx| <= MAX_INDEX && !vtx[0].isNull
    requires forall c, j :: c in offered && 1 <= j < |vtx| && sid(c.hash) == sid(key(vtx[j])) ==> c.tx == vtx[j]
    ensures var cmpct := CompactBlock(Some(header), Announced(vtx, sid, key), [Prefilled(0, vtx[0])]);
      Acceptable(cmpct) && NoForeign(PlacedIn(cmpct), vtx, sid, key, offered)
  {
    AnnounceRepresents(header, vtx, sid, key);
    var pre := [Prefilled(0, vtx[0])];
    var cmpct := CompactBlock(Some(header), Announced(vtx, sid, key), pre);
    assert Position(pre, 1) == 0;
    assert PlacedIn(cmpct)[0] == Some(vtx[0]);
    hide Free;
  }
}
