/** The UTXO cache stack: write-back caches with DIRTY and FRESH flags over a
    database, refined to one flat map from outpoint to unspent coin. */
module Coins {
  import opened Common

  type BlockHash = nat
  const NULL_HASH: BlockHash := 0
  const OP_RETURN: bv8 := 0x6a
  const OP_ANNOUNCE: bv8 := 0x8a
  const MAX_SCRIPT_SIZE := 10000

  type Script = seq<bv8>

  predicate IsUnspendable(s: Script) {
    (|s| > 0 && (s[0] == OP_RETURN || s[0] == OP_ANNOUNCE)) || |s| > MAX_SCRIPT_SIZE
  }

  datatype OutPoint = OutPoint(hash: nat, n: nat)
  datatype TxOut = TxOut(nValue: int, scriptPubKey: Script)
  datatype Tx = Tx(txid: nat, isCoinBase: bool, vin: seq<OutPoint>, vout: seq<TxOut>)

  datatype Coin = Coin(out: TxOut, fCoinBase: bool, nHeight: nat) {
    predicate IsSpent() { out.nValue == -1 }
  }

  /** What Coin::Clear leaves behind, and what Coin() starts as. */
  const NULL_COIN := Coin(TxOut(-1, []), false, 0)

  datatype Entry = Entry(coin: Coin, isDirty: bool, isFresh: bool)

  type CoinMap = map<OutPoint, Coin>
  type Cache = map<OutPoint, Entry>

  function Lookup(view: CoinMap, o: OutPoint): Option<Coin> {
    if o in view then Some(view[o]) else None
  }

  // ---------------------------------------------------------------------
  // Specification on values
  // ---------------------------------------------------------------------

  /** The unspent coins seen through one cache laid over `below`. */
  function Overlay(cache: Cache, below: CoinMap): CoinMap {
    map o | o in cache.Keys + below.Keys && (o in cache ==> !cache[o].coin.IsSpent())
      :: if o in cache then cache[o].coin else below[o]
  }

  ghost predicate AllUnspent(view: CoinMap) {
    forall o :: o in view ==> !view[o].IsSpent()
  }

  /** FRESH promises that nothing unspent lies below, a clean entry repeats the layer
      below, and a spent coin is nulled out and still has to be written.  */
  predicate EntryOk(e: Entry, o: OutPoint, below: CoinMap) {
    && (e.isFresh ==> o !in below)
    && (!e.isDirty ==> o in below && below[o] == e.coin)
    && (e.coin.IsSpent() ==> e.isDirty && !e.isFresh && e.coin == NULL_COIN)
  }

  ghost predicate CacheOk(cache: Cache, below: CoinMap) {
    forall o :: o in cache ==> EntryOk(cache[o], o, below)
  }

  function EntryUsage(scriptUsage: Script -> nat, e: Entry): nat {
    scriptUsage(e.coin.out.scriptPubKey)
  }

  /** Sum of the script memory over all entries, whatever order they are summed in. */
  ghost function TotalUsage(scriptUsage: Script -> nat, cache: Cache): nat
    decreases |cache|
  {
    if cache == map[] then 0 else
      var o :| o in cache;
      assert |cache - {o}| < |cache| by { assert (cache - {o}).Keys == cache.Keys - {o}; }
      EntryUsage(scriptUsage, cache[o]) + TotalUsage(scriptUsage, cache - {o})
  }

  lemma {:induction false} UsageRemove(scriptUsage: Script -> nat, cache: Cache, o: OutPoint)
    requires o in cache
    ensures TotalUsage(scriptUsage, cache) == EntryUsage(scriptUsage, cache[o]) + TotalUsage(scriptUsage, cache - {o})
    decreases |cache|
  {
    var p :| p in cache && TotalUsage(scriptUsage, cache)
      == EntryUsage(scriptUsage, cache[p]) + TotalUsage(scriptUsage, cache - {p});
    if p != o {
      assert (cache - {p}).Keys == cache.Keys - {p};
      assert (cache - {o}).Keys == cache.Keys - {o};
      UsageRemove(scriptUsage, cache - {p}, o);
      UsageRemove(scriptUsage, cache - {o}, p);
      assert cache - {p} - {o} == cache - {o} - {p};
    }
  }

  lemma UsagePut(scriptUsage: Script -> nat, cache: Cache, o: OutPoint, e: Entry)
    ensures TotalUsage(scriptUsage, cache[o := e])
         == TotalUsage(scriptUsage, cache - {o}) + EntryUsage(scriptUsage, e)
    ensures TotalUsage(scriptUsage, cache)
         == TotalUsage(scriptUsage, cache - {o}) + if o in cache then EntryUsage(scriptUsage, cache[o]) else 0
  {
    UsageRemove(scriptUsage, cache[o := e], o);
    assert cache[o := e] - {o} == cache - {o};
    if o in cache {
      UsageRemove(scriptUsage, cache, o);
    } else {
      assert cache - {o} == cache;
    }
  }

  /** One entry of a flushed child as seen from its parent: clean entries are skipped. */
  function Written(view: CoinMap, o: OutPoint, e: Entry): CoinMap {
    if !e.isDirty then view
    else if e.coin.IsSpent() then view - {o}
    else view[o := e.coin]
  }

  /** Writing down one more entry of a valid child moves the view one step towards
      what the child showed; `pending` are the keys still to be written. */
  lemma WriteStep(mapCoins: Cache, pending: set<OutPoint>, view: CoinMap, o: OutPoint)
    requires o in pending && o in mapCoins && EntryOk(mapCoins[o], o, view)
    ensures Overlay(mapCoins - (pending - {o}), view) == Written(Overlay(mapCoins - pending, view), o, mapCoins[o])
    ensures EntryOk(mapCoins[o], o, Overlay(mapCoins - pending, view))
  {
  }

  lemma WriteEnds(mapCoins: Cache, view: CoinMap)
    ensures Overlay(mapCoins - mapCoins.Keys, view) == view
    ensures mapCoins - {} == mapCoins
  {
  }

  lemma OverlayEmpty(view: CoinMap)
    ensures Overlay(map[], view) == view
  {
  }

  lemma OverlayPut(cache: Cache, below: CoinMap, o: OutPoint, e: Entry)
    ensures Overlay(cache[o := e], below)
         == if e.coin.IsSpent() then Overlay(cache, below) - {o} else Overlay(cache, below)[o := e.coin]
  {
  }

  lemma OverlayDrop(cache: Cache, below: CoinMap, o: OutPoint)
    requires o !in below
    ensures Overlay(cache - {o}, below) == Overlay(cache, below) - {o}
  {
  }

  /** Caching a coin read from below changes nothing that is seen. */
  lemma FetchStep(cache: Cache, below: CoinMap, o: OutPoint)
    requires CacheOk(cache, below) && AllUnspent(below) && o in below && o !in cache
    ensures CacheOk(cache[o := Entry(below[o], false, false)], below)
    ensures Overlay(cache[o := Entry(below[o], false, false)], below) == Overlay(cache, below)
  {
  }

  /** The entry AddCoin leaves for `o`: FRESH may be added only when no unwritten change is pending. */
  function Added(cache: Cache, o: OutPoint, coin: Coin, possibleOverwrite: bool): Entry {
    var was := if o in cache then cache[o] else Entry(NULL_COIN, false, false);
    Entry(coin, true, was.isFresh || (!possibleOverwrite && !was.isDirty))
  }

  lemma AddStep(cache: Cache, below: CoinMap, o: OutPoint, coin: Coin, possibleOverwrite: bool)
    requires CacheOk(cache, below) && !coin.IsSpent()
    requires !possibleOverwrite ==> o !in Overlay(cache, below)
    ensures CacheOk(cache[o := Added(cache, o, coin, possibleOverwrite)], below)
    ensures Overlay(cache[o := Added(cache, o, coin, possibleOverwrite)], below) == Overlay(cache, below)[o := coin]
  {
  }

  /** The new entry is right exactly if nothing was seen before or an overwrite was announced. */
  lemma AddOk(cache: Cache, below: CoinMap, o: OutPoint, coin: Coin, possibleOverwrite: bool)
    requires !coin.IsSpent() && (!possibleOverwrite && o in cache ==> cache[o].coin.IsSpent())
    ensures var cache' := cache[o := Added(cache, o, coin, possibleOverwrite)];
            (o in cache ==> EntryOk(cache[o], o, below)) ==>
              (CacheOk(cache', below) <==> CacheOk(cache, below) && (possibleOverwrite || o !in Overlay(cache, below)))
  {
    if o in cache ==> EntryOk(cache[o], o, below) {
      var cache' := cache[o := Added(cache, o, coin, possibleOverwrite)];
      assert EntryOk(cache'[o], o, below) <==> possibleOverwrite || o !in Overlay(cache, below);
      assert forall p :: p in cache && p != o ==> p in cache' && cache'[p] == cache[p];
    }
  }

  /** What SpendCoin does to an entry that is present: a FRESH one is simply dropped. */
  function Spent(cache: Cache, o: OutPoint): Cache
    requires o in cache
  {
    if cache[o].isFresh then cache - {o} else cache[o := Entry(NULL_COIN, true, false)]
  }

  lemma SpendStep(cache: Cache, below: CoinMap, o: OutPoint)
    requires CacheOk(cache, below) && o in cache
    ensures CacheOk(Spent(cache, o), below)
    ensures Overlay(Spent(cache, o), below) == Overlay(cache, below) - {o}
  {
  }

  /** What is cached is what is seen, and a spent entry is blank. */
  lemma CachedCoin(cache: Cache, below: CoinMap, o: OutPoint)
    requires CacheOk(cache, below) && o in cache
    ensures cache[o].coin == if o in Overlay(cache, below) then Overlay(cache, below)[o] else NULL_COIN
  {
  }

  /** Dropping a clean copy changes nothing that is seen. */
  lemma UncacheStep(cache: Cache, below: CoinMap, o: OutPoint)
    requires CacheOk(cache, below) && o in cache && !cache[o].isDirty && !cache[o].isFresh
    ensures CacheOk(cache - {o}, below) && Overlay(cache - {o}, below) == Overlay(cache, below)
  {
  }

  /** Adding without `possible_overwrite` over a coin that is unspent below brings that coin back
      when the new one is spent; it is right exactly when there is no such coin. */
  lemma AddThenSpend(cache: Cache, below: CoinMap, o: OutPoint, coin: Coin)
    requires CacheOk(cache, below) && o !in cache && !coin.IsSpent()
    ensures var added := cache[o := Added(cache, o, coin, false)];
            Overlay(Spent(added, o), below) == Overlay(cache, below) - {o} <==> o !in below
  {
    var added := cache[o := Added(cache, o, coin, false)];
    assert Spent(added, o) == cache;
  }

  /** What BatchWrite does to a parent cache for one dirty child entry. */
  function Merged(cache: Cache, o: OutPoint, e: Entry): Cache {
    if o !in cache then
      if e.isFresh && e.coin.IsSpent() then cache else cache[o := Entry(e.coin, true, e.isFresh)]
    else if cache[o].isFresh && e.coin.IsSpent() then cache - {o}
    else cache[o := Entry(e.coin, true, cache[o].isFresh)]
  }

  /** The parent keeps its own promises towards the grandparent, and shows the child's coin. */
  lemma MergeStep(cache: Cache, below: CoinMap, o: OutPoint, e: Entry)
    requires CacheOk(cache, below) && e.isDirty && EntryOk(e, o, Overlay(cache, below))
    ensures CacheOk(Merged(cache, o, e), below)
    ensures Overlay(Merged(cache, o, e), below) == Written(Overlay(cache, below), o, e)
    ensures o in cache && e.isFresh ==> cache[o].coin.IsSpent()
  {
    if o in cache && cache[o].isFresh && e.coin.IsSpent() {
      OverlayDrop(cache, below, o);
    } else {
      OverlayPut(cache, below, o, Entry(e.coin, true, if o in cache then cache[o].isFresh else e.isFresh));
    }
  }

  /** One change in a batch for the database. */
  datatype Change = Erase(o: OutPoint) | Put(o: OutPoint, coin: Coin)

  function Apply(view: CoinMap, c: Change): CoinMap {
    match c
    case Erase(o) => view - {o}
    case Put(o, coin) => view[o := coin]
  }

  function ApplyAll(view: CoinMap, cs: seq<Change>): CoinMap {
    if cs == [] then view else Apply(ApplyAll(view, cs[..|cs| - 1]), cs[|cs| - 1])
  }

  lemma ApplyLast(view: CoinMap, cs: seq<Change>, c: Change)
    ensures ApplyAll(view, cs + [c]) == Apply(ApplyAll(view, cs), c)
  {
    assert (cs + [c])[..|cs|] == cs;
  }

  /** Each coin is as it was before, or as it is to be. */
  ghost predicate Between(was: CoinMap, goal: CoinMap, now: CoinMap) {
    forall o :: Lookup(now, o) == Lookup(was, o) || Lookup(now, o) == Lookup(goal, o)
  }

  lemma PartBetween(mapCoins: Cache, pending: set<OutPoint>, view: CoinMap)
    ensures Between(view, Overlay(mapCoins, view), Overlay(mapCoins - pending, view))
  {
  }

  ghost predicate SameAt(a: Cache, b: Cache, o: OutPoint) {
    (o in a <==> o in b) && (o in a ==> a[o] == b[o])
  }

  /** Outputs from `n` on are cached in `b` as in `a`. */
  ghost predicate Untouched(a: Cache, b: Cache, tx: Tx, n: nat) {
    forall k :: n <= k ==> SameAt(a, b, OutPoint(tx.txid, k))
  }

  lemma UntouchedStart(cache: Cache, view: CoinMap, tx: Tx)
    ensures Untouched(cache, cache, tx, 0) && AllUnseen(view, tx, 0)
  {
  }

  lemma UntouchedNext(a: Cache, b: Cache, c: Cache, tx: Tx, n: nat)
    requires Untouched(a, b, tx, n) && forall p :: p != OutPoint(tx.txid, n) ==> SameAt(b, c, p)
    ensures Untouched(a, c, tx, n + 1)
  {
    forall k | n + 1 <= k ensures SameAt(a, c, OutPoint(tx.txid, k)) {
      assert SameAt(a, b, OutPoint(tx.txid, k)) && SameAt(b, c, OutPoint(tx.txid, k));
    }
  }

  lemma UntouchedClashes(a: Cache, b: Cache, tx: Tx, i: nat)
    requires Untouched(a, b, tx, i) && i < |tx.vout|
    ensures Clashes(a, tx, i) <==> Clashes(b, tx, i)
  {
    assert SameAt(a, b, OutPoint(tx.txid, i));
  }

  lemma UntouchedOk(a: Cache, b: Cache, tx: Tx, i: nat, below: CoinMap)
    requires Untouched(a, b, tx, i) && CacheOk(a, below)
    ensures var o := OutPoint(tx.txid, i); o in b ==> EntryOk(b[o], o, below)
  {
    assert SameAt(a, b, OutPoint(tx.txid, i));
  }

  /** The block each view of a stack says it stands for, top first; `heads` is the record of the
      database that a flush is under way. */
  datatype Names = Bottom(hash: BlockHash, heads: seq<BlockHash>) | Layer(hash: BlockHash, below: Names) {

    /** GetBestBlock: the first view from the top that names a block. */
    function First(): BlockHash {
      if Layer? && hash == NULL_HASH then below.First() else hash
    }

    /** Asking for the best block fills it in from the top down to the first view that knows it. */
    function Filled(): Names {
      if Layer? && hash == NULL_HASH then Layer(First(), below.Filled()) else this
    }

    /** A flush hands the block down, named or not; one into the database ends what was under way. */
    function Flushed(): Names
      requires Layer?
    {
      Layer(hash, if below.Bottom? then Bottom(hash, []) else Layer(hash, below.below))
    }

    /** Flush of the cache `layer` steps further down (or of the lowest one). */
    function FlushedAt(layer: nat): Names
      requires Layer?
    {
      if layer == 0 || below.Bottom? then Flushed() else Layer(hash, below.FlushedAt(layer - 1))
    }

    /** The database takes only a named block, and while a flush is under way only the block of that. */
    predicate Takes(h: BlockHash)
      requires Bottom?
    {
      h != NULL_HASH && (hash == NULL_HASH && |heads| == 2 ==> heads[0] == h)
    }

    predicate MayFlush(layer: nat)
      requires Layer?
    {
      if below.Bottom? then below.Takes(hash) else layer == 0 || below.MayFlush(layer - 1)
    }
  }

  /** A flush keeps the best block exactly when the flushed cache names one, or its parent's
      name would have been found further down anyway. */
  lemma FlushKeepsBestBlock(names: Names)
    requires names.Layer? && names.below.Layer?
    ensures names.Flushed().First() == names.First()
       <==> names.hash != NULL_HASH || names.below.hash == NULL_HASH || names.below.hash == names.below.below.First()
  {
  }

  /** The view after the first `n` outputs of `tx` were added; unspendable outputs are left out. */
  function WithOutputs(view: CoinMap, tx: Tx, nHeight: nat, n: nat): CoinMap
    requires n <= |tx.vout|
  {
    if n == 0 then view else
      WithOutput(WithOutputs(view, tx, nHeight, n - 1), tx, nHeight, n - 1)
  }

  function WithOutput(view: CoinMap, tx: Tx, nHeight: nat, i: nat): CoinMap
    requires i < |tx.vout|
  {
    if Spendable(tx, i) then view[OutPoint(tx.txid, i) := Coin(tx.vout[i], tx.isCoinBase, nHeight)] else view
  }

  /** The output `i` meets a coin that this very cache shows as unspent. */
  predicate Clashes(cache: Cache, tx: Tx, i: nat)
    requires i < |tx.vout|
  {
    Spendable(tx, i) && OutPoint(tx.txid, i) in cache && !cache[OutPoint(tx.txid, i)].coin.IsSpent()
  }

  predicate Spendable(tx: Tx, i: nat)
    requires i < |tx.vout|
  {
    !IsUnspendable(tx.vout[i].scriptPubKey)
  }

  /** None of the first `n` outputs that can be spent is in `view`. */
  ghost predicate AllUnseen(view: CoinMap, tx: Tx, n: nat)
    requires n <= |tx.vout|
  {
    forall i :: 0 <= i < n && Spendable(tx, i) ==> OutPoint(tx.txid, i) !in view
  }

  lemma AllUnseenNext(view: CoinMap, tx: Tx, n: nat)
    requires n < |tx.vout|
    ensures AllUnseen(view, tx, n + 1) <==>
      AllUnseen(view, tx, n) && (!Spendable(tx, n) || OutPoint(tx.txid, n) !in view)
  {
  }

  /** Each spendable output is seen as its coin, and everything else exactly as before. */
  lemma {:induction false} OutputsSeen(view: CoinMap, tx: Tx, nHeight: nat, n: nat, o: OutPoint)
    requires n <= |tx.vout|
    ensures Lookup(WithOutputs(view, tx, nHeight, n), o)
         == if o.hash == tx.txid && o.n < n && Spendable(tx, o.n) then Some(Coin(tx.vout[o.n], tx.isCoinBase, nHeight))
            else Lookup(view, o)
  {
    if n != 0 {
      OutputsSeen(view, tx, nHeight, n - 1, o);
    }
  }

  // ---------------------------------------------------------------------
  // Runs, against one flat map
  // ---------------------------------------------------------------------

  datatype Op =
    | Get(o: OutPoint)
    | Have(o: OutPoint)
    | Add(o: OutPoint, coin: Coin, possibleOverwrite: bool)
    | Spend(o: OutPoint)
    | UncacheAt(o: OutPoint, layer: nat)
    | FlushAt(layer: nat)
    | GetBest
    | SetBest(hash: BlockHash)

  datatype Answer = Done | Found(coin: Option<Coin>) | Has(have: bool) | Best(hash: BlockHash)

  datatype Flat = Flat(coins: CoinMap, names: Names) {
    /** What the callers of a stack must respect. */
    predicate Allows(op: Op) {
      && (op.Add? ==> !op.coin.IsSpent() && (!op.possibleOverwrite ==> op.o !in coins))
      && (op.FlushAt? ==> names.Layer? && names.MayFlush(op.layer))
    }

    function Step(op: Op): Flat
      requires Allows(op)
    {
      match op
      case Add(o, coin, _) => if IsUnspendable(coin.out.scriptPubKey) then this else this.(coins := coins[o := coin])
      case Spend(o) => this.(coins := coins - {o})
      case FlushAt(layer) => this.(names := names.FlushedAt(layer))
      case GetBest => this.(names := names.Filled())
      case SetBest(hash) => this.(names := names.(hash := hash))
      case _ => this
    }

    function Answer(op: Op): Answer {
      match op
      case Get(o) => Found(Lookup(coins, o))
      case Have(o) => Has(o in coins)
      case Spend(o) => Found(Lookup(coins, o))
      case GetBest => Best(names.First())
      case _ => Done
    }

    predicate AllowsAll(ops: seq<Op>)
      decreases |ops|
    {
      ops == [] || (Allows(ops[0]) && Step(ops[0]).AllowsAll(ops[1..]))
    }

    function Run(ops: seq<Op>): Flat
      requires AllowsAll(ops)
      decreases |ops|
    {
      if ops == [] then this else Step(ops[0]).Run(ops[1..])
    }

    function Answers(ops: seq<Op>): seq<Answer>
      requires AllowsAll(ops)
      decreases |ops|
    {
      if ops == [] then [] else [Answer(ops[0])] + Step(ops[0]).Answers(ops[1..])
    }
  }

  // ---------------------------------------------------------------------
  // The views
  // ---------------------------------------------------------------------

  /** CCoinsViewDB: the coin database at the bottom of every stack. Each batch reaches the disk whole or not at all. */
  class CoinsViewDB {
    var coins: CoinMap
    var bestBlock: BlockHash
    var heads: seq<BlockHash>
    /** Whether the batch is full after `i` entries were visited. */
    const full: nat -> bool

    constructor (full: nat -> bool)
      ensures coins == map[] && bestBlock == NULL_HASH && heads == []
    {
      this.full := full;
      coins, bestBlock, heads := map[], NULL_HASH, [];
    }

    ghost function Name(): Names
      reads this
    {
      Bottom(bestBlock, heads)
    }

    /** The block the coins stood for before the flush that is under way, if one is. */
    function OldTip(): BlockHash
      reads this
    {
      if bestBlock == NULL_HASH && |heads| == 2 then heads[1] else bestBlock
    }

    /** `dies(i)` says that the process ends right after writing the batch that was full after `i` entries. */
    method BatchWrite(mapCoins: Cache, hashBlock: BlockHash, dies: nat -> bool) returns (died: bool)
      requires Name().Takes(hashBlock) && CacheOk(mapCoins, coins)
      modifies this
      ensures !died ==> coins == Overlay(mapCoins, old(coins)) && bestBlock == hashBlock && heads == []
      ensures died ==> Between(old(coins), Overlay(mapCoins, old(coins)), coins)
      ensures died ==> bestBlock == NULL_HASH && heads == [hashBlock, old(OldTip())]
      ensures (forall i :: !dies(i)) ==> !died
    {
      var oldTip := OldTip();
      var pending := mapCoins.Keys;
      var batch: seq<Change> := [];
      var count := 0;
      WriteEnds(mapCoins, coins);
      while pending != {}
        invariant pending <= mapCoins.Keys
        invariant ApplyAll(coins, batch) == Overlay(mapCoins - pending, old(coins))
        decreases |pending|
      {
        var o :| o in pending;
        var e := mapCoins[o];
        WriteStep(mapCoins, pending, old(coins), o);
        if e.isDirty {
          var c := if e.coin.IsSpent() then Erase(o) else Put(o, e.coin);
          ApplyLast(coins, batch, c);
          batch := batch + [c];
        }
        count := count + 1;
        pending := pending - {o};
        if full(count) {
          coins, batch := ApplyAll(coins, batch), [];
          bestBlock, heads := NULL_HASH, [hashBlock, oldTip];
          if dies(count) {
            PartBetween(mapCoins, pending, old(coins));
            return true;
          }
        }
      }
      coins, bestBlock, heads := ApplyAll(coins, batch), hashBlock, [];
      return false;
    }
  }

  /** CCoinsViewCache. `base` is the cache below, or null when the database lies directly below. */
  class CoinsViewCache {
    const base: CoinsViewCache?
    const db: CoinsViewDB
    const scriptUsage: Script -> nat
    ghost const depth: nat
    ghost const Repr: set<object>

    var cacheCoins: Cache
    var cachedCoinsUsage: int
    var hashBlock: BlockHash

    ghost predicate Shape()
      decreases depth
    {
      && this in Repr
      && db in Repr
      && scriptUsage([]) == 0
      && (base == null ==> Repr == {this, db})
      && (base != null ==>
            && base.depth < depth
            && base.db == db
            && base.Shape()
            && this !in base.Repr
            && Repr == {this} + base.Repr)
    }

    /** The unspent coins this view shows. */
    ghost function View(): CoinMap
      requires Shape()
      reads Repr
      decreases depth, 1
    {
      Overlay(cacheCoins, BaseView())
    }

    ghost function BaseView(): CoinMap
      requires Shape()
      reads Repr
      decreases depth, 0
    {
      if base == null then db.coins else base.View()
    }

    ghost function Names(): Names
      requires Shape()
      reads Repr
      decreases depth
    {
      Layer(hashBlock, if base == null then db.Name() else base.Names())
    }

    /** The counter of script memory is right. */
    ghost predicate UsageOk()
      reads this
    {
      cachedCoinsUsage == TotalUsage(scriptUsage, cacheCoins)
    }

    ghost predicate Valid()
      requires Shape()
      reads Repr
      decreases depth
    {
      && (base == null ==> AllUnspent(db.coins))
      && (base != null ==> base.Valid())
      && CacheOk(cacheCoins, BaseView())
      && UsageOk()
    }

    constructor OverDB(db: CoinsViewDB, scriptUsage: Script -> nat)
      requires AllUnspent(db.coins) && scriptUsage([]) == 0
      ensures Shape() && Valid() && fresh(Repr - {db})
      ensures this.db == db && base == null && View() == db.coins && Names() == Layer(NULL_HASH, db.Name())
    {
      this.base, this.db, this.scriptUsage := null, db, scriptUsage;
      depth, Repr := 0, {this, db};
      cacheCoins, cachedCoinsUsage, hashBlock := map[], 0, NULL_HASH;
    }

    constructor OverCache(base: CoinsViewCache)
      requires base.Shape() && base.Valid()
      ensures Shape() && Valid() && fresh(Repr - base.Repr)
      ensures this.base == base && View() == base.View() && Names() == Layer(NULL_HASH, base.Names())
    {
      this.base, this.db, this.scriptUsage := base, base.db, base.scriptUsage;
      depth, Repr := base.depth + 1, {this} + base.Repr;
      cacheCoins, cachedCoinsUsage, hashBlock := map[], 0, NULL_HASH;
      new;
      ValidImpliesUnspent();
      base.ShapeUsage();
    }

    lemma ShapeUsage()
      requires Shape()
      ensures scriptUsage([]) == 0
    {
    }

    /** A view never shows a spent coin. */
    lemma {:induction false} ValidImpliesUnspent()
      requires Shape() && Valid()
      ensures AllUnspent(View()) && AllUnspent(BaseView())
      decreases depth
    {
      if base != null {
        base.ValidImpliesUnspent();
      }
    }

    /** Changing only this layer leaves everything below as it was. */
    twostate lemma BelowUnchanged()
      requires Shape() && (base != null ==> unchanged(base.Repr)) && unchanged(db)
      ensures BaseView() == old(BaseView())
      ensures base != null ==> base.Valid() == old(base.Valid()) && base.Names() == old(base.Names())
    {
    }

    /** base->GetCoin */
    method BaseGetCoin(o: OutPoint) returns (coin: Option<Coin>)
      requires Shape() && Valid()
      modifies Repr - {this}
      ensures Valid() && BaseView() == old(BaseView()) && Names() == old(Names())
      ensures coin == Lookup(BaseView(), o)
      decreases depth, 0
    {
      if base == null {
        coin := Lookup(db.coins, o);
      } else {
        coin := base.GetCoin(o);
      }
    }

    /** Returns whether `cacheCoins` now has an entry for `o`. */
    method FetchCoin(o: OutPoint) returns (found: bool)
      requires Shape() && Valid()
      modifies Repr
      ensures Valid() && View() == old(View()) && BaseView() == old(BaseView()) && Names() == old(Names())
      ensures found <==> o in cacheCoins
      ensures found <==> o in old(cacheCoins) || o in old(View())
      ensures cacheCoins == if o in old(View()) && o !in old(cacheCoins)
        then old(cacheCoins)[o := Entry(old(View())[o], false, false)] else old(cacheCoins)
      decreases depth, 1
    {
      if o in cacheCoins {
        return true;
      }
      var coin := BaseGetCoin(o);
      if coin.None? {
        return false;
      }
      ValidImpliesUnspent();
      FetchStep(cacheCoins, BaseView(), o);
      var e := Entry(coin.value, false, coin.value.IsSpent());
      UsagePut(scriptUsage, cacheCoins, o, e);
      label fetched:
      cacheCoins := cacheCoins[o := e];
      cachedCoinsUsage := cachedCoinsUsage + EntryUsage(scriptUsage, cacheCoins[o]);
      BelowUnchanged@fetched();
      return true;
    }

    method GetCoin(o: OutPoint) returns (coin: Option<Coin>)
      requires Shape() && Valid()
      modifies Repr
      ensures Valid() && View() == old(View()) && BaseView() == old(BaseView()) && Names() == old(Names())
      ensures coin == Lookup(View(), o)
      decreases depth, 2
    {
      var found := FetchCoin(o);
      if found && !cacheCoins[o].coin.IsSpent() {
        return Some(cacheCoins[o].coin);
      }
      return None;
    }

    method HaveCoin(o: OutPoint) returns (have: bool)
      requires Shape() && Valid()
      modifies Repr
      ensures Valid() && View() == old(View()) && BaseView() == old(BaseView()) && Names() == old(Names())
      ensures have <==> o in View()
      decreases depth, 2
    {
      var found := FetchCoin(o);
      have := found && !cacheCoins[o].coin.IsSpent();
    }

    /** `thrown` stands for the logic_error about overwriting an unspent coin. The coin is seen afterwards in every
        case, but the FRESH flag is right exactly if no coin was seen before or an overwrite was announced. */
    method AddCoin(o: OutPoint, coin: Coin, possibleOverwrite: bool) returns (thrown: bool)
      requires Shape() && UsageOk() && !coin.IsSpent()
      modifies this`cacheCoins, this`cachedCoinsUsage
      ensures thrown <==> (&& !IsUnspendable(coin.out.scriptPubKey) && !possibleOverwrite
                           && o in old(cacheCoins) && !old(cacheCoins)[o].coin.IsSpent())
      ensures cacheCoins == if IsUnspendable(coin.out.scriptPubKey) || thrown then old(cacheCoins)
                            else old(cacheCoins)[o := Added(old(cacheCoins), o, coin, possibleOverwrite)]
      ensures View() == if IsUnspendable(coin.out.scriptPubKey) || thrown then old(View()) else old(View())[o := coin]
      ensures BaseView() == old(BaseView()) && Names() == old(Names())
      ensures !thrown ==> UsageOk()
      ensures thrown ==>
        o in cacheCoins && cachedCoinsUsage == old(cachedCoinsUsage) - EntryUsage(scriptUsage, cacheCoins[o])
      ensures !thrown && (o in old(cacheCoins) ==> EntryOk(old(cacheCoins)[o], o, BaseView())) ==>
                (Valid() <==>
                   old(Valid()) && (IsUnspendable(coin.out.scriptPubKey) || possibleOverwrite || o !in old(View())))
    {
      hide CacheOk;
      hide EntryOk;
      hide Overlay;
      if IsUnspendable(coin.out.scriptPubKey) {
        return false;
      }
      UsagePut(scriptUsage, cacheCoins, o, Added(cacheCoins, o, coin, possibleOverwrite));
      OverlayPut(cacheCoins, BaseView(), o, Added(cacheCoins, o, coin, possibleOverwrite));
      var was := if o in cacheCoins then cacheCoins[o] else Entry(NULL_COIN, false, false);
      if o in cacheCoins {
        cachedCoinsUsage := cachedCoinsUsage - EntryUsage(scriptUsage, was);
      }
      var isFresh := false;
      if !possibleOverwrite {
        if !was.coin.IsSpent() {
          return true;
        }
        isFresh := !was.isDirty;
      }
      AddOk(cacheCoins, BaseView(), o, coin, possibleOverwrite);
      cacheCoins := cacheCoins[o := Entry(coin, true, was.isFresh || isFresh)];
      cachedCoinsUsage := cachedCoinsUsage + EntryUsage(scriptUsage, cacheCoins[o]);
      BelowUnchanged();
      return false;
    }

    /** `moved` is what `*moveout` receives. */
    method SpendCoin(o: OutPoint) returns (found: bool, moved: Coin)
      requires Shape() && Valid()
      modifies Repr
      ensures Valid() && View() == old(View()) - {o} && BaseView() == old(BaseView()) && Names() == old(Names())
      ensures found <==> o in old(cacheCoins) || o in old(View())
      ensures moved == if o in old(View()) then old(View())[o] else NULL_COIN
    {
      ValidImpliesUnspent();
      found := FetchCoin(o);
      if !found {
        return false, NULL_COIN;
      }
      SpendStep(cacheCoins, BaseView(), o);
      CachedCoin(cacheCoins, BaseView(), o);
      hide CacheOk;
      hide Overlay;
      hide TotalUsage;
      UsagePut(scriptUsage, cacheCoins, o, Entry(NULL_COIN, true, false));
      label fetched:
      moved := cacheCoins[o].coin;
      cachedCoinsUsage := cachedCoinsUsage - EntryUsage(scriptUsage, cacheCoins[o]);
      if cacheCoins[o].isFresh {
        cacheCoins := cacheCoins - {o};
      } else {
        cacheCoins := cacheCoins[o := Entry(NULL_COIN, true, cacheCoins[o].isFresh)];
      }
      BelowUnchanged@fetched();
    }

    /** One pass of the loop in BatchWrite over a dirty entry, with `below` under this cache;
        `thrown` stands for the logic_error about a misapplied FRESH flag. */
    method MergeEntry(o: OutPoint, e: Entry, ghost below: CoinMap) returns (thrown: bool)
      requires CacheOk(cacheCoins, below) && cachedCoinsUsage == TotalUsage(scriptUsage, cacheCoins)
      requires e.isDirty && EntryOk(e, o, Overlay(cacheCoins, below))
      modifies this`cacheCoins, this`cachedCoinsUsage
      ensures !thrown && cacheCoins == Merged(old(cacheCoins), o, e)
      ensures cachedCoinsUsage == TotalUsage(scriptUsage, cacheCoins)
    {
      UsagePut(scriptUsage, cacheCoins, o, Entry(e.coin, true, e.isFresh));
      if o !in cacheCoins {
        if !(e.isFresh && e.coin.IsSpent()) {
          cacheCoins := cacheCoins[o := Entry(e.coin, true, e.isFresh)];
          cachedCoinsUsage := cachedCoinsUsage + EntryUsage(scriptUsage, cacheCoins[o]);
        }
      } else {
        UsagePut(scriptUsage, cacheCoins, o, Entry(e.coin, true, cacheCoins[o].isFresh));
        if e.isFresh && !cacheCoins[o].coin.IsSpent() {
          return true;
        }
        cachedCoinsUsage := cachedCoinsUsage - EntryUsage(scriptUsage, cacheCoins[o]);
        if cacheCoins[o].isFresh && e.coin.IsSpent() {
          cacheCoins := cacheCoins - {o};
        } else {
          cacheCoins := cacheCoins[o := Entry(e.coin, true, cacheCoins[o].isFresh)];
          cachedCoinsUsage := cachedCoinsUsage + EntryUsage(scriptUsage, cacheCoins[o]);
        }
      }
      return false;
    }

    /** The loop of BatchWrite; the child's entries may come in any order. */
    method MergeAll(mapCoins: Cache, ghost below: CoinMap) returns (thrown: bool)
      requires CacheOk(cacheCoins, below) && cachedCoinsUsage == TotalUsage(scriptUsage, cacheCoins)
      requires CacheOk(mapCoins, Overlay(cacheCoins, below))
      modifies this`cacheCoins, this`cachedCoinsUsage
      ensures !thrown && CacheOk(cacheCoins, below) && cachedCoinsUsage == TotalUsage(scriptUsage, cacheCoins)
      ensures Overlay(cacheCoins, below) == Overlay(mapCoins, Overlay(old(cacheCoins), below))
    {
      ghost var view := Overlay(cacheCoins, below);
      var pending := mapCoins.Keys;
      thrown := false;
      WriteEnds(mapCoins, view);
      while pending != {}
        invariant pending <= mapCoins.Keys && !thrown
        invariant CacheOk(cacheCoins, below) && cachedCoinsUsage == TotalUsage(scriptUsage, cacheCoins)
        invariant Overlay(cacheCoins, below) == Overlay(mapCoins - pending, view)
        decreases |pending|
      {
        var o :| o in pending;
        var e := mapCoins[o];
        WriteStep(mapCoins, pending, view, o);
        if e.isDirty {
          MergeStep(cacheCoins, below, o, e);
          thrown := MergeEntry(o, e, below);
        }
        pending := pending - {o};
      }
    }

    method BatchWrite(mapCoins: Cache, hashBlockIn: BlockHash) returns (thrown: bool)
      requires Shape() && Valid() && CacheOk(mapCoins, View())
      modifies this
      ensures !thrown && Valid()
      ensures View() == Overlay(mapCoins, old(View())) && BaseView() == old(BaseView())
      ensures Names() == old(Names()).(hash := hashBlockIn)
    {
      thrown := MergeAll(mapCoins, BaseView());
      hashBlock := hashBlockIn;
      BelowUnchanged();
    }

    /** base->BatchWrite(cacheCoins, hashBlock) */
    method BaseBatchWrite() returns (thrown: bool)
      requires Shape() && Valid()
      requires base == null ==> db.Name().Takes(hashBlock)
      modifies Repr - {this}
      ensures !thrown && BaseView() == old(View()) && Names() == old(Names()).Flushed()
      ensures base == null ==> AllUnspent(db.coins)
      ensures base != null ==> base.Valid() && base.BaseView() == old(base.BaseView()) && db.Name() == old(db.Name())
    {
      ValidImpliesUnspent();
      if base == null {
        var _ := db.BatchWrite(cacheCoins, hashBlock, _ => false);
        thrown := false;
      } else {
        thrown := base.BatchWrite(cacheCoins, hashBlock);
      }
    }

    /** What this view shows moves into the layer below; the view itself stays. */
    method Flush() returns (thrown: bool)
      requires Shape() && Valid()
      requires base == null ==> db.Name().Takes(hashBlock)
      modifies Repr
      ensures !thrown && Valid()
      ensures cacheCoins == map[] && cachedCoinsUsage == 0
      ensures View() == old(View()) && BaseView() == old(View())
      ensures base != null ==> base.BaseView() == old(base.BaseView()) && db.Name() == old(db.Name())
      ensures Names() == old(Names()).Flushed()
    {
      thrown := BaseBatchWrite();
      label written:
      cacheCoins, cachedCoinsUsage := map[], 0;
      BelowUnchanged@written();
      OverlayEmpty(BaseView());
    }

    method Uncache(o: OutPoint)
      requires Shape() && Valid()
      modifies this`cacheCoins, this`cachedCoinsUsage
      ensures Valid() && View() == old(View()) && BaseView() == old(BaseView()) && Names() == old(Names())
      ensures cacheCoins == if o in old(cacheCoins) && !old(cacheCoins)[o].isDirty && !old(cacheCoins)[o].isFresh
                            then old(cacheCoins) - {o} else old(cacheCoins)
    {
      if o in cacheCoins && !cacheCoins[o].isDirty && !cacheCoins[o].isFresh {
        UncacheStep(cacheCoins, BaseView(), o);
        hide CacheOk;
        hide Overlay;
        hide TotalUsage;
        UsageRemove(scriptUsage, cacheCoins, o);
        cachedCoinsUsage := cachedCoinsUsage - EntryUsage(scriptUsage, cacheCoins[o]);
        cacheCoins := cacheCoins - {o};
        BelowUnchanged();
      }
    }

    method GetBestBlock() returns (hash: BlockHash)
      requires Shape() && Valid()
      modifies Repr
      ensures Valid() && View() == old(View()) && hash == old(Names()).First()
      ensures Names() == old(Names()).Filled()
      decreases depth
    {
      if hashBlock == NULL_HASH {
        var below := db.bestBlock;
        if base != null {
          below := base.GetBestBlock();
        }
        label asked:
        hashBlock := below;
        BelowUnchanged@asked();
      }
      hash := hashBlock;
    }

    method SetBestBlock(hash: BlockHash)
      requires Shape() && Valid()
      modifies this`hashBlock
      ensures Valid() && View() == old(View()) && Names() == old(Names()).(hash := hash)
    {
      hashBlock := hash;
      BelowUnchanged();
    }

    /** Flush of the cache `layer` steps further down (or of the lowest one). */
    method FlushAt(layer: nat)
      requires Shape() && Valid() && Names().MayFlush(layer)
      modifies Repr
      ensures Valid() && View() == old(View()) && Names() == old(Names()).FlushedAt(layer)
      decreases depth
    {
      if layer == 0 || base == null {
        var _ := Flush();
      } else {
        base.FlushAt(layer - 1);
      }
    }

    /** Uncache on the cache `layer` steps further down (or on the lowest one). */
    method UncacheAt(o: OutPoint, layer: nat)
      requires Shape() && Valid()
      modifies Repr
      ensures Valid() && View() == old(View()) && Names() == old(Names())
      decreases depth
    {
      if layer == 0 || base == null {
        Uncache(o);
      } else {
        base.UncacheAt(o, layer - 1);
      }
    }

    /** Flushing every layer in turn leaves the flat map in the database; only the top cache needs a name. */
    method FlushAll()
      requires Shape() && Valid() && db.Name().Takes(hashBlock)
      modifies Repr
      ensures Valid() && View() == old(View())
      ensures db.coins == old(View()) && db.bestBlock == old(hashBlock) && db.heads == []
      decreases depth
    {
      var _ := Flush();
      if base != null {
        ghost var view := View();
        base.FlushAll();
        OverlayEmpty(view);
      }
    }

    /** One output of AddCoins. */
    method AddOutput(tx: Tx, nHeight: nat, i: nat, check: bool) returns (thrown: bool)
      requires Shape() && UsageOk() && i < |tx.vout| && tx.vout[i].nValue != -1
      requires check || tx.isCoinBase ==> Valid()
      modifies Repr
      ensures BaseView() == old(BaseView()) && Names() == old(Names())
      ensures !thrown ==> UsageOk() && View() == WithOutput(old(View()), tx, nHeight, i)
      ensures check || tx.isCoinBase ==> !thrown && Valid()
      ensures !check && !tx.isCoinBase ==> (thrown <==> Clashes(old(cacheCoins), tx, i))
      ensures !check && !tx.isCoinBase ==> forall p :: p != OutPoint(tx.txid, i) ==>
        SameAt(old(cacheCoins), cacheCoins, p)
      ensures var o := OutPoint(tx.txid, i);
              !check && !tx.isCoinBase && !thrown
                && (o in old(cacheCoins) ==> EntryOk(old(cacheCoins)[o], o, BaseView())) ==>
                (Valid() <==> old(Valid()) && (!Spendable(tx, i) || o !in old(View())))
    {
      var overwrite := tx.isCoinBase;
      if check {
        overwrite := HaveCoin(OutPoint(tx.txid, i));
      }
      thrown := AddCoin(OutPoint(tx.txid, i), Coin(tx.vout[i], tx.isCoinBase, nHeight), overwrite);
    }

    /** Only the unchecked outputs of a transaction that is no coinbase can throw; they leave the cache valid
        exactly if none of them was seen before. */
    method AddCoins(tx: Tx, nHeight: nat, check: bool) returns (thrown: bool)
      requires Shape() && Valid()
      requires forall i :: 0 <= i < |tx.vout| ==> tx.vout[i].nValue != -1
      modifies Repr
      ensures thrown <==> !check && !tx.isCoinBase && exists i :: 0 <= i < |tx.vout| && Clashes(old(cacheCoins), tx, i)
      ensures !thrown ==> View() == WithOutputs(old(View()), tx, nHeight, |tx.vout|)
      ensures !thrown ==> (Valid() <==> check || tx.isCoinBase || AllUnseen(old(View()), tx, |tx.vout|))
      ensures BaseView() == old(BaseView()) && Names() == old(Names())
    {
      hide Overlay;
      hide CacheOk;
      hide EntryOk;
      hide WithOutput;
      hide AllUnseen;
      hide Untouched;
      hide Clashes;
      hide SameAt;
      thrown := false;
      ghost var safe := check || tx.isCoinBase;
      UntouchedStart(cacheCoins, View(), tx);
      for i := 0 to |tx.vout|
        invariant View() == WithOutputs(old(View()), tx, nHeight, i) && UsageOk()
        invariant BaseView() == old(BaseView()) && Names() == old(Names())
        invariant safe ==> Valid()
        invariant !safe ==> (Valid() <==> AllUnseen(old(View()), tx, i))
        invariant !safe ==> forall k :: 0 <= k < i ==> !Clashes(old(cacheCoins), tx, k)
        invariant !safe ==> Untouched(old(cacheCoins), cacheCoins, tx, i)
      {
        OutputsSeen(old(View()), tx, nHeight, i, OutPoint(tx.txid, i));
        ghost var was := cacheCoins;
        if !safe {
          UntouchedClashes(old(cacheCoins), cacheCoins, tx, i);
          UntouchedOk(old(cacheCoins), cacheCoins, tx, i, BaseView());
          AllUnseenNext(old(View()), tx, i);
        }
        thrown := AddOutput(tx, nHeight, i, check);
        if thrown {
          return;
        }
        if !safe {
          UntouchedNext(old(cacheCoins), was, cacheCoins, tx, i);
        }
      }
    }

    ghost function Abstract(): Flat
      requires Shape()
      reads Repr
    {
      Flat(View(), Names())
    }

    method Perform(op: Op) returns (answer: Answer)
      requires Shape() && Valid() && Abstract().Allows(op)
      modifies Repr
      ensures Valid()
      ensures Abstract() == old(Abstract()).Step(op) && answer == old(Abstract()).Answer(op)
    {
      answer := Done;
      match op {
        case Get(o) =>
          var coin := GetCoin(o);
          answer := Found(coin);
        case Have(o) =>
          var have := HaveCoin(o);
          answer := Has(have);
        case Add(o, coin, possibleOverwrite) =>
          var _ := AddCoin(o, coin, possibleOverwrite);
        case Spend(o) =>
          ValidImpliesUnspent();
          var _, moved := SpendCoin(o);
          answer := Found(if moved.IsSpent() then None else Some(moved));
        case UncacheAt(o, layer) =>
          UncacheAt(o, layer);
        case FlushAt(layer) =>
          FlushAt(layer);
        case GetBest =>
          var hash := GetBestBlock();
          answer := Best(hash);
        case SetBest(hash) =>
          SetBestBlock(hash);
      }
    }

    /** A stack of any height answers every run as one flat map would, and ends showing that map. */
    method RunAll(ops: seq<Op>) returns (answers: seq<Answer>)
      requires Shape() && Valid() && Abstract().AllowsAll(ops)
      modifies Repr
      ensures Valid()
      ensures answers == old(Abstract()).Answers(ops) && Abstract() == old(Abstract()).Run(ops)
      decreases |ops|
    {
      if ops == [] {
        return [];
      }
      var first := Perform(ops[0]);
      var rest := RunAll(ops[1..]);
      answers := [first] + rest;
    }
  }
}
