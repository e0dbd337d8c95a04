/** The block index as a tree of linked objects with skip pointers, and the active chain as an
    array into it. */
module Chain {
  import opened Common
  import opened Numbers
  import opened SkipHeights

  // ---------------------------------------------------------------------
  // The block index
  // ---------------------------------------------------------------------

  class BlockIndex {
    const pprev: BlockIndex?
    const nHeight: nat
    var pskip: BlockIndex?

    /** A block on top of `pprev`, or a genesis block. */
    constructor (pprev: BlockIndex?)
      requires pprev != null ==> Linked(pprev)
      ensures this.pprev == pprev && pskip == null && Linked(this)
    {
      this.pprev := pprev;
      nHeight := if pprev == null then 0 else pprev.nHeight + 1;
      pskip := null;
    }

    /** One step of the walk from the ancestor at `heightWalk`: a skip, unless the previous block's skip is the better
        one. */
    method StepDown(pindexWalk: BlockIndex, heightWalk: nat, height: nat,
          ghost index: set<BlockIndex>) returns (next: BlockIndex, heightNext: nat)
      requires IndexOk(index) && this in index && Linked(this) && height < heightWalk <= nHeight
               && pindexWalk == Walk(this, heightWalk)
      ensures height <= heightNext < heightWalk && next == Walk(this, heightNext)
      ensures AllSkip(index) ==> heightNext == SkipHeights.Next(heightWalk, height)
    {
      hide IndexOk;
      hide AllSkip;
      hide Walk;
      hide Linked;
      hide GetSkipHeight;
      StepFacts(index, this, heightWalk);
      var heightSkip := GetSkipHeight(heightWalk);
      var heightSkipPrev := GetSkipHeight(heightWalk - 1);
      if pindexWalk.pskip != null &&
        (heightSkip == height
          || (heightSkip > height && !(heightSkipPrev < heightSkip - 2 && heightSkipPrev >= height)))
      {
        return pindexWalk.pskip, heightSkip;
      }
      return pindexWalk.pprev, heightWalk - 1;
    }

    /** With all skip pointers in place the number of steps depends on the two heights only. */
    method GetAncestor(height: int, ghost index: set<BlockIndex>) returns (r: BlockIndex?, ghost steps: nat)
      requires IndexOk(index) && this in index
      ensures r == if height > nHeight || height < 0 then null else Walk(this, height)
      ensures AllSkip(index) && 0 <= height <= nHeight ==> steps == Steps(nHeight, height)
    {
      steps := 0;
      if height > nHeight || height < 0 {
        return null, steps;
      }
      IndexLinked(index, this);
      WalkSelf(this);
      hide IndexOk;
      hide AllSkip;
      hide Walk;
      hide Linked;
      hide Steps;
      hide SkipHeights.Next;
      var pindexWalk: BlockIndex := this;
      var heightWalk := nHeight;
      while heightWalk > height
        invariant height <= heightWalk <= nHeight && pindexWalk == Walk(this, heightWalk)
        invariant AllSkip(index) ==> steps + Steps(heightWalk, height) == Steps(nHeight, height)
      {
        StepsNext(heightWalk, height);
        pindexWalk, heightWalk := StepDown(pindexWalk, heightWalk, height, index);
        steps := steps + 1;
      }
      NoSteps(height);
      return pindexWalk, steps;
    }

    method BuildSkip(ghost index: set<BlockIndex>)
      requires IndexOk(index) && this in index
      modifies this`pskip
      ensures IndexOk(index) && (pprev != null ==> pskip == Walk(this, GetSkipHeight(nHeight)))
    {
      hide GetSkipHeight;
      if pprev != null {
        ghost var steps;
        pskip, steps := pprev.GetAncestor(GetSkipHeight(nHeight), index);
      }
    }
  }

  function HeightOf(p: BlockIndex?): int { if p == null then -1 else p.nHeight }

  /** Heights count the steps to a genesis block. */
  ghost predicate Linked(b: BlockIndex)
    decreases b.nHeight
  {
    if b.pprev == null then b.nHeight == 0 else b.pprev.nHeight + 1 == b.nHeight && Linked(b.pprev)
  }

  /** Following pprev down to `height`. */
  ghost function Walk(b: BlockIndex, height: nat): (r: BlockIndex)
    requires Linked(b) && height <= b.nHeight
    ensures Linked(r) && r.nHeight == height
    decreases b.nHeight
  {
    if b.nHeight == height then b else Walk(b.pprev, height)
  }

  lemma {:induction false} WalkWalk(b: BlockIndex, h: nat, k: nat)
    requires Linked(b) && k <= h <= b.nHeight
    ensures Walk(Walk(b, h), k) == Walk(b, k)
    ensures k < h ==> Walk(b, h).pprev != null && Walk(b, h).pprev == Walk(b, h - 1)
    decreases b.nHeight
  {
    if b.nHeight > h {
      WalkWalk(b.pprev, h, k);
    }
  }

  lemma WalkSelf(b: BlockIndex)
    requires Linked(b)
    ensures Walk(b, b.nHeight) == b && (b.pprev == null <==> b.nHeight == 0)
  {
  }

  /** `x` is `b` or an ancestor of it. */
  ghost predicate OnPath(b: BlockIndex, x: BlockIndex)
    requires Linked(b)
  {
    x.nHeight <= b.nHeight && x == Walk(b, x.nHeight)
  }

  ghost predicate SkipOk(x: BlockIndex)
    reads x
  {
    x.pskip != null ==> Linked(x) && x.pskip == Walk(x, GetSkipHeight(x.nHeight))
  }

  /** All blocks known: each with its ancestors, and with a skip pointer that is null or right. */
  ghost predicate IndexOk(index: set<BlockIndex>)
    reads index
  {
    forall b :: b in index ==> Linked(b) && (b.pprev != null ==> b.pprev in index) && SkipOk(b)
  }

  /** Every block but a genesis block has its skip pointer. */
  ghost predicate AllSkip(index: set<BlockIndex>)
    reads index
  {
    forall b :: b in index && b.pprev != null ==> b.pskip != null
  }

  lemma IndexLinked(index: set<BlockIndex>, b: BlockIndex)
    requires IndexOk(index) && b in index
    ensures Linked(b)
  {
  }

  lemma {:induction false} WalkKnown(index: set<BlockIndex>, b: BlockIndex, height: nat)
    requires IndexOk(index) && b in index && height <= b.nHeight
    ensures Walk(b, height) in index
    decreases b.nHeight
  {
    if height < b.nHeight {
      WalkKnown(index, b.pprev, height);
    }
  }

  /** Where the two pointers of an ancestor lead. */
  lemma StepFacts(index: set<BlockIndex>, b: BlockIndex, h: nat)
    requires IndexOk(index) && b in index && Linked(b) && 0 < h <= b.nHeight
    ensures GetSkipHeight(h) < h && var x := Walk(b, h);
      && x.pprev != null && x.pprev == Walk(b, h - 1)
      && (x.pskip != null ==> x.pskip == Walk(b, GetSkipHeight(h)))
      && (AllSkip(index) ==> x.pskip != null)
  {
    hide GetSkipHeight;
    WalkKnown(index, b, h);
    WalkWalk(b, h, GetSkipHeight(h));
  }

  // ---------------------------------------------------------------------
  // The active chain
  // ---------------------------------------------------------------------

  /** Every entry is the tip's ancestor at its height. */
  ghost predicate ChainOk(v: seq<BlockIndex?>) {
    v != [] ==>
      var tip := v[|v| - 1];
      && tip != null && Linked(tip) && tip.nHeight == |v| - 1
      && forall i :: 0 <= i < |v| ==> v[i] == Walk(tip, i)
  }

  lemma EntryIs(v: seq<BlockIndex?>, i: nat)
    requires ChainOk(v) && i < |v|
    ensures v[i] != null && Linked(v[i]) && v[i].nHeight == i
    ensures forall k :: 0 <= k <= i ==> v[k] == Walk(v[i], k)
  {
    forall k | 0 <= k <= i ensures v[k] == Walk(v[i], k) {
      WalkWalk(v[|v| - 1], i, k);
    }
  }

  /** std::vector::resize */
  function Resized(v: seq<BlockIndex?>, n: nat): (r: seq<BlockIndex?>)
    ensures |r| == n && forall i :: 0 <= i < n ==> r[i] == if i < |v| then v[i] else null
  {
    if n <= |v| then v[..n] else v + seq(n - |v|, _ => null)
  }

  /** Above `p` the new chain is in place, and from `p` down there is what was there before. */
  ghost predicate Filling(before: seq<BlockIndex?>, v: seq<BlockIndex?>, pindex: BlockIndex, p: BlockIndex?)
    requires Linked(pindex)
  {
    && |v| == pindex.nHeight + 1 && (p != null ==> OnPath(pindex, p))
    && (forall i :: HeightOf(p) < i < |v| ==> v[i] == Walk(pindex, i))
    && (forall i :: 0 <= i <= HeightOf(p) ==> v[i] == if i < |before| then before[i] else null)
  }

  lemma WalkDown(b: BlockIndex, p: BlockIndex)
    requires Linked(b) && OnPath(b, p)
    ensures if p.nHeight == 0 then p.pprev == null
      else p.pprev != null && OnPath(b, p.pprev) && p.pprev.nHeight == p.nHeight - 1
  {
    if p.nHeight > 0 {
      WalkWalk(b, p.nHeight, p.nHeight - 1);
    }
  }

  lemma Filled(before: seq<BlockIndex?>, v: seq<BlockIndex?>, pindex: BlockIndex, p: BlockIndex?)
    requires Linked(pindex) && ChainOk(before) && Filling(before, v, pindex, p) && (p != null ==> v[p.nHeight] == p)
    ensures ChainOk(v) && v[|v| - 1] == pindex
  {
    if p != null {
      EntryIs(before, p.nHeight);
      forall i | 0 <= i < p.nHeight ensures v[i] == Walk(pindex, i) {
        WalkWalk(pindex, p.nHeight, i);
      }
    }
  }

  class CChain {
    var vChain: seq<BlockIndex?>

    ghost predicate Valid()
      reads this
    {
      ChainOk(vChain)
    }

    constructor ()
      ensures Valid() && vChain == []
    {
      vChain := [];
    }

    function Tip(): BlockIndex?
      reads this
    {
      if |vChain| > 0 then vChain[|vChain| - 1] else null
    }

    function At(nHeight: int): BlockIndex?
      reads this
    {
      if nHeight < 0 || nHeight >= |vChain| then null else vChain[nHeight]
    }

    predicate Contains(pindex: BlockIndex)
      reads this
    {
      At(pindex.nHeight) == pindex
    }

    function Next(pindex: BlockIndex): BlockIndex?
      reads this
    {
      if Contains(pindex) then At(pindex.nHeight + 1) else null
    }

    function Height(): int
      reads this
    {
      |vChain| - 1
    }

    /** Next goes up by one block, to the child of `pindex` on this chain. */
    lemma NextIsChild(pindex: BlockIndex)
      requires Valid()
      ensures var next := Next(pindex);
        (next != null <==> Contains(pindex) && pindex != Tip())
          && (next != null ==> next.pprev == pindex && Contains(next))
    {
      if Contains(pindex) {
        EntryIs(vChain, pindex.nHeight);
        if pindex.nHeight + 1 < |vChain| {
          EntryIs(vChain, pindex.nHeight + 1);
          WalkWalk(vChain[pindex.nHeight + 1], pindex.nHeight + 1, pindex.nHeight);
          EntryIs(vChain, |vChain| - 1);
        }
      }
    }

    /** The walk down stops at the first block that is already in place. */
    method SetTip(pindex: BlockIndex?)
      requires Valid() && (pindex != null ==> Linked(pindex))
      modifies this
      ensures Valid() && Tip() == pindex
    {
      if pindex == null {
        vChain := [];
        return;
      }
      hide Walk;
      hide ChainOk;
      hide Linked;
      ghost var before := vChain;
      vChain := Resized(vChain, pindex.nHeight + 1);
      var p: BlockIndex? := pindex;
      WalkSelf(pindex);
      while p != null && vChain[p.nHeight] != p
        invariant Filling(before, vChain, pindex, p)
        decreases HeightOf(p)
      {
        WalkDown(pindex, p);
        vChain := vChain[p.nHeight := p];
        p := p.pprev;
      }
      Filled(before, vChain, pindex, p);
    }

    /** An ancestor, looked up in the chain when that holds the block. */
    method Back(p: BlockIndex, nHeight: nat, ghost index: set<BlockIndex>) returns (r: BlockIndex?)
      requires Valid() && IndexOk(index) && p in index && nHeight <= p.nHeight
      ensures r == Walk(p, nHeight)
    {
      if Contains(p) {
        EntryIs(vChain, p.nHeight);
        r := At(nHeight);
      } else {
        ghost var steps;
        r, steps := p.GetAncestor(nHeight, index);
      }
    }

    /** A list of blocks from `pindex`, or the tip, down to the genesis block. */
    method GetLocator(pindex: BlockIndex?, ghost index: set<BlockIndex>) returns (vHave: seq<BlockIndex>)
      requires Valid() && IndexOk(index) && (pindex != null ==> pindex in index) && (Tip() != null ==> Tip() in index)
      ensures var start := if pindex != null then pindex else Tip();
        if start == null then vHave == [] else Linked(start) && IsLocator(start, vHave)
    {
      hide Walk;
      hide Linked;
      hide Offset;
      hide StepAt;
      hide ChainOk;
      var nStep := 1;
      vHave := [];
      var p: BlockIndex? := pindex;
      if p == null {
        p := Tip();
      }
      if p == null {
        return;
      }
      ghost var start: BlockIndex := p;
      IndexLinked(index, start);
      hide IndexOk;
      LocatorStart(start);
      while true
        invariant p != null && p == Walk(start, LocatorHeight(start, |vHave|))
        invariant nStep == StepAt(|vHave|) && Going(start, vHave)
        decreases p.nHeight
      {
        GoingNext(start, vHave);
        vHave := vHave + [p];
        if p.nHeight == 0 {
          break;
        }
        OffsetNext(|vHave| - 1);
        var nHeight := Max(p.nHeight - nStep, 0);
        WalkKnown(index, start, p.nHeight);
        WalkWalk(start, p.nHeight, nHeight);
        p := Back(p, nHeight, index);
        if |vHave| > 10 {
          nStep := nStep * 2;
        }
      }
    }

    /** No ancestor of `pindex` above height `h` is in this chain. */
    ghost predicate NoneAbove(pindex: BlockIndex, h: int)
      requires Linked(pindex)
      reads this
    {
      forall k :: 0 <= k <= pindex.nHeight && k > h ==> !Contains(Walk(pindex, k))
    }

    lemma NoneAtTop(pindex: BlockIndex)
      requires Linked(pindex)
      ensures NoneAbove(pindex, pindex.nHeight) && (pindex.nHeight > Height() ==> NoneAbove(pindex, Height()))
    {
      hide Walk;
    }

    lemma NoneBelow(pindex: BlockIndex, r: BlockIndex)
      requires Linked(pindex) && OnPath(pindex, r) && NoneAbove(pindex, r.nHeight) && !Contains(r)
      ensures NoneAbove(pindex, r.nHeight - 1)
    {
      hide Walk;
      hide CChain.Contains;
    }

    /** The highest block that `pindex` shares with this chain, or null. */
    method FindFork(pindex: BlockIndex?, ghost index: set<BlockIndex>) returns (r: BlockIndex?)
      requires Valid() && IndexOk(index) && (pindex != null ==> pindex in index)
      ensures pindex == null ==> r == null
      ensures r != null ==> pindex != null && OnPath(pindex, r) && Contains(r)
      ensures pindex != null ==> NoneAbove(pindex, HeightOf(r))
    {
      if pindex == null {
        return null;
      }
      IndexLinked(index, pindex);
      hide IndexOk;
      hide Walk;
      hide Linked;
      hide CChain.Contains;
      hide CChain.NoneAbove;
      WalkSelf(pindex);
      NoneAtTop(pindex);
      r := pindex;
      if pindex.nHeight > Height() {
        ghost var steps;
        r, steps := pindex.GetAncestor(Height(), index);
      }
      while r != null && !Contains(r)
        invariant r != null ==> OnPath(pindex, r)
        invariant NoneAbove(pindex, HeightOf(r))
        decreases HeightOf(r)
      {
        NoneBelow(pindex, r);
        WalkDown(pindex, r);
        r := r.pprev;
      }
    }
  }

  /** From height `h` up, as far as both go, the two branches differ. */
  ghost predicate Apart(a: BlockIndex, b: BlockIndex, h: int)
    requires Linked(a) && Linked(b)
  {
    forall k :: h < k <= a.nHeight && k <= b.nHeight && 0 <= k ==> Walk(a, k) != Walk(b, k)
  }

  lemma ApartNext(a: BlockIndex, b: BlockIndex, x: BlockIndex, y: BlockIndex)
    requires Linked(a) && Linked(b) && OnPath(a, x) && OnPath(b, y) && x.nHeight == y.nHeight && x != y
             && Apart(a, b, x.nHeight)
    ensures Apart(a, b, x.nHeight - 1)
  {
  }

  /** The highest block below both, or null when the two have no block in common: the walks then end together, and
      the source's assertion that both are at one place holds. */
  method LastCommonAncestor(pa0: BlockIndex, pb0: BlockIndex, ghost index: set<BlockIndex>) returns (r: BlockIndex?)
    requires IndexOk(index) && pa0 in index && pb0 in index
    ensures r != null <==> Walk(pa0, 0) == Walk(pb0, 0)
    ensures r != null ==> OnPath(pa0, r) && OnPath(pb0, r) && Apart(pa0, pb0, r.nHeight)
    ensures r == null ==> forall h :: 0 <= h <= pa0.nHeight && h <= pb0.nHeight ==> Walk(pa0, h) != Walk(pb0, h)
  {
    IndexLinked(index, pa0);
    IndexLinked(index, pb0);
    hide IndexOk;
    hide Walk;
    hide Linked;
    WalkSelf(pa0);
    WalkSelf(pb0);
    var pa: BlockIndex?, pb: BlockIndex? := pa0, pb0;
    if pa0.nHeight > pb0.nHeight {
      ghost var steps;
      pa, steps := pa0.GetAncestor(pb0.nHeight, index);
    } else if pb0.nHeight > pa0.nHeight {
      ghost var steps;
      pb, steps := pb0.GetAncestor(pa0.nHeight, index);
    }
    assert Apart(pa0, pb0, pa.nHeight);
    hide Apart;
    while pa != pb && pa != null && pb != null
      invariant HeightOf(pa) == HeightOf(pb) && Apart(pa0, pb0, HeightOf(pa))
      invariant (pa != null ==> OnPath(pa0, pa)) && (pb != null ==> OnPath(pb0, pb))
      decreases HeightOf(pa)
    {
      ApartNext(pa0, pb0, pa, pb);
      WalkDown(pa0, pa);
      WalkDown(pb0, pb);
      pa := pa.pprev;
      pb := pb.pprev;
    }
    assert pa == pb;
    if pa == null {
      NothingShared(pa0, pb0);
    } else {
      SharedBelow(pa0, pb0, pa);
    }
    return pa;
  }

  lemma NothingShared(a: BlockIndex, b: BlockIndex)
    requires Linked(a) && Linked(b) && Apart(a, b, -1)
    ensures forall h :: 0 <= h <= a.nHeight && h <= b.nHeight ==> Walk(a, h) != Walk(b, h)
    ensures Walk(a, 0) != Walk(b, 0)
  {
  }

  lemma SharedBelow(a: BlockIndex, b: BlockIndex, x: BlockIndex)
    requires Linked(a) && Linked(b) && OnPath(a, x) && OnPath(b, x)
    ensures Walk(a, 0) == Walk(b, 0)
  {
    WalkWalk(a, x.nHeight, 0);
    WalkWalk(b, x.nHeight, 0);
  }

  // ---------------------------------------------------------------------
  // Locators
  // ---------------------------------------------------------------------

  /** How far below the start the `i`th locator entry is: ten single steps, then doubling ones. */
  function Offset(i: nat): nat { if i <= 10 then i else 9 + Pow(2, i - 10) }

  function StepAt(i: nat): nat { if i <= 10 then 1 else Pow(2, i - 10) }

  lemma OffsetNext(i: nat)
    ensures Offset(i + 1) == Offset(i) + StepAt(i) && StepAt(i) > 0
    ensures StepAt(i + 1) == if i + 1 > 10 then 2 * StepAt(i) else StepAt(i)
  {
    if i >= 10 {
      Pow2Next(i - 10);
      PowPositive(2, i - 10);
      assert Pow(2, 0) == 1 && Pow(2, 1) == 2;
    }
  }

  lemma {:induction false} OffsetRises(i: nat, j: nat)
    requires i < j
    ensures Offset(i) < Offset(j)
    decreases j
  {
    OffsetNext(j - 1);
    if i < j - 1 {
      OffsetRises(i, j - 1);
    }
  }

  /** `v` starts at `start`, takes the locator's steps and ends at the genesis block. */
  ghost predicate IsLocator(start: BlockIndex, v: seq<BlockIndex>)
    requires Linked(start)
  {
    && v != []
    && (forall i :: 0 <= i < |v| ==> v[i] == Walk(start, LocatorHeight(start, i)))
    && (forall i :: 0 <= i < |v| - 1 ==> Offset(i) < start.nHeight)
    && v[|v| - 1].nHeight == 0
  }

  function LocatorHeight(start: BlockIndex, i: nat): (h: nat)
    ensures h <= start.nHeight
  {
    Max(start.nHeight - Offset(i), 0)
  }

  /** A locator that has not reached the genesis block. */
  ghost predicate Going(start: BlockIndex, v: seq<BlockIndex>)
    requires Linked(start)
  {
    forall i :: 0 <= i < |v| ==> Offset(i) < start.nHeight && v[i] == Walk(start, LocatorHeight(start, i))
  }

  lemma LocatorStart(start: BlockIndex)
    requires Linked(start)
    ensures Going(start, []) && Walk(start, LocatorHeight(start, 0)) == start && StepAt(0) == 1
  {
  }

  lemma GoingNext(start: BlockIndex, v: seq<BlockIndex>)
    requires Linked(start) && Going(start, v)
    ensures var p := Walk(start, LocatorHeight(start, |v|));
      if p.nHeight == 0 then IsLocator(start, v + [p])
        else Going(start, v + [p]) && p.nHeight == start.nHeight - Offset(|v|)
  {
    hide Walk;
    hide Offset;
  }

  /** Heights fall strictly from the start to the genesis block. */
  lemma LocatorFalls(start: BlockIndex, v: seq<BlockIndex>, i: nat, j: nat)
    requires Linked(start) && IsLocator(start, v) && i < j < |v|
    ensures v[0] == start && v[|v| - 1] == Walk(start, 0) && v[i].nHeight > v[j].nHeight
  {
    OffsetRises(i, j);
    assert Offset(0) == 0;
  }

  /** For every L with 2^L > height there are at most 12 + L entries. */
  lemma LocatorBound(start: BlockIndex, v: seq<BlockIndex>, log: nat)
    requires Linked(start) && IsLocator(start, v) && Pow(2, log) >= start.nHeight + 1
    ensures |v| <= 12 + log
  {
    hide Walk;
    hide Linked;
    hide Offset;
    if |v| > 12 + log {
      OffsetBound(|v| - 2, log, start.nHeight);
    }
  }

  lemma OffsetBound(i: nat, log: nat, height: nat)
    requires i > 10 + log && Pow(2, log) >= height + 1
    ensures Offset(i) >= height
  {
    PowMonotone(2, log, i - 10);
  }
}
