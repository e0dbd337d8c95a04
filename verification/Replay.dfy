/** Disconnecting blocks, and recovery after a flush into the coin database was cut short: rolling back to the fork
    and replaying the blocks of that flush ends in the coins that it was to write, however often the process dies
    on the way. */
module Replay {
  import opened Common
  import opened Coins

  /** The part of a block and its index entry that coins depend on. */
  datatype Block = Block(nHeight: nat, hashPrev: BlockHash, vtx: seq<Tx>)

  /** For each transaction after the first, the coins that its inputs spent. */
  type Undo = seq<seq<Coin>>

  datatype DisconnectResult = DISCONNECT_OK | DISCONNECT_UNCLEAN | DISCONNECT_FAILED

  /** The block weight over that of the smallest output. */
  const MAX_OUTPUTS_PER_BLOCK := 80_000_000 / 36

  ghost predicate BlockOk(block: Block) {
    forall i, k :: 0 <= i < |block.vtx| && 0 <= k < |block.vtx[i].vout| ==> block.vtx[i].vout[k].nValue != -1
  }

  lemma SameLookups(a: CoinMap, b: CoinMap)
    requires forall o :: Lookup(a, o) == Lookup(b, o)
    ensures a == b
  {
    forall o ensures o in a <==> o in b {
      assert Lookup(a, o) == Lookup(b, o);
    }
    forall o | o in a ensures a[o] == b[o] {
      assert Lookup(a, o) == Lookup(b, o);
    }
  }

  // ---------------------------------------------------------------------
  // The effect of blocks on the flat map
  // ---------------------------------------------------------------------

  function WithoutInputs(view: CoinMap, vin: seq<OutPoint>): CoinMap {
    if vin == [] then view else WithoutInputs(view, vin[..|vin| - 1]) - {vin[|vin| - 1]}
  }

  function TxEffect(view: CoinMap, tx: Tx, nHeight: nat): CoinMap {
    WithOutputs(if tx.isCoinBase then view else WithoutInputs(view, tx.vin), tx, nHeight, |tx.vout|)
  }

  /** The first `n` transactions. */
  function BlockEffect(view: CoinMap, block: Block, n: nat): CoinMap
    requires n <= |block.vtx|
  {
    if n == 0 then view else TxEffect(BlockEffect(view, block, n - 1), block.vtx[n - 1], block.nHeight)
  }

  function ChainEffect(view: CoinMap, blocks: seq<Block>): CoinMap {
    if blocks == [] then view
    else BlockEffect(ChainEffect(view, blocks[..|blocks| - 1]), blocks[|blocks| - 1], |blocks[|blocks| - 1].vtx|)
  }

  // ---------------------------------------------------------------------
  // Taking the effect back
  // ---------------------------------------------------------------------

  /** The first coin, from output `n` on, of the transaction. */
  function AnyCoin(view: CoinMap, txid: nat, n: nat): Option<Coin>
    decreases MAX_OUTPUTS_PER_BLOCK - n
  {
    if n >= MAX_OUTPUTS_PER_BLOCK then None
    else if OutPoint(txid, n) in view then Some(view[OutPoint(txid, n)])
    else AnyCoin(view, txid, n + 1)
  }

  /** A record without a height takes it from another coin of the same transaction, if there is one. */
  function Completed(view: CoinMap, o: OutPoint, undo: Coin): Option<Coin> {
    if undo.nHeight != 0 then Some(undo) else
      match AnyCoin(view, o.hash, 0)
      case None => None
      case Some(alternate) => Some(Coin(undo.out, alternate.fCoinBase, alternate.nHeight))
  }

  ghost predicate HasCoin(view: CoinMap, txid: nat, n: nat) {
    exists k :: n <= k < MAX_OUTPUTS_PER_BLOCK && OutPoint(txid, k) in view
  }

  lemma {:induction false} AnyCoinIff(view: CoinMap, txid: nat, n: nat)
    ensures AnyCoin(view, txid, n).Some? <==> HasCoin(view, txid, n)
    decreases MAX_OUTPUTS_PER_BLOCK - n
  {
    if n < MAX_OUTPUTS_PER_BLOCK && OutPoint(txid, n) !in view {
      AnyCoinIff(view, txid, n + 1);
      if HasCoin(view, txid, n) {
        var k :| n <= k < MAX_OUTPUTS_PER_BLOCK && OutPoint(txid, k) in view;
        assert HasCoin(view, txid, n + 1);
      }
    }
  }

  /** A record without a height serves only while some coin of the same transaction is there, so that rolling back
      what was partly written may fail on it. */
  lemma CompletedIff(view: CoinMap, o: OutPoint, undo: Coin)
    ensures Completed(view, o, undo).Some? <==> undo.nHeight != 0 || HasCoin(view, o.hash, 0)
  {
    AnyCoinIff(view, o.hash, 0);
  }

  function WithCoin(view: CoinMap, o: OutPoint, coin: Coin): CoinMap {
    if IsUnspendable(coin.out.scriptPubKey) then view else view[o := coin]
  }

  /** The inputs from the last one back to the `j`th restored. */
  function WithInputs(view: CoinMap, vin: seq<OutPoint>, coins: seq<Coin>, j: nat): Option<CoinMap>
    requires j <= |vin| == |coins|
    decreases |vin| - j
  {
    if j == |vin| then Some(view) else
      match WithInputs(view, vin, coins, j + 1)
      case None => None
      case Some(v) =>
        match Completed(v, vin[j], coins[j])
        case None => None
        case Some(c) => Some(WithCoin(v, vin[j], c))
  }

  function WithoutOutputs(view: CoinMap, tx: Tx, n: nat): CoinMap
    requires n <= |tx.vout|
  {
    if n == 0 then view else
      var v := WithoutOutputs(view, tx, n - 1);
      if Spendable(tx, n - 1) then v - {OutPoint(tx.txid, n - 1)} else v
  }

  /** Transaction `i` taken back. */
  function TxUndone(view: CoinMap, block: Block, undo: Undo, i: nat): Option<CoinMap>
    requires i < |block.vtx| == |undo| + 1
  {
    var tx := block.vtx[i];
    var v := WithoutOutputs(view, tx, |tx.vout|);
    if i == 0 then Some(v)
    else if |undo[i - 1]| != |tx.vin| then None
    else WithInputs(v, tx.vin, undo[i - 1], 0)
  }

  /** The transactions from the last one back to the `i`th taken back. */
  function Undone(view: CoinMap, block: Block, undo: Undo, i: nat): Option<CoinMap>
    requires i <= |block.vtx| == |undo| + 1
    decreases |block.vtx| - i
  {
    if i == |block.vtx| then Some(view) else
      match Undone(view, block, undo, i + 1)
      case None => None
      case Some(v) => TxUndone(v, block, undo, i)
  }

  /** What DisconnectBlock makes of the coins; None where it fails. */
  function Disconnected(view: CoinMap, block: Block, undo: Undo): Option<CoinMap> {
    if |undo| + 1 != |block.vtx| then None else Undone(view, block, undo, 0)
  }

  // ---------------------------------------------------------------------
  // Clean disconnecting
  // ---------------------------------------------------------------------

  /** The first `n` outputs are there as the block made them. */
  predicate OutputsThere(view: CoinMap, tx: Tx, nHeight: nat, n: nat)
    requires n <= |tx.vout|
  {
    forall k :: 0 <= k < n && Spendable(tx, k) ==>
      Lookup(view, OutPoint(tx.txid, k)) == Some(Coin(tx.vout[k], tx.isCoinBase, nHeight))
  }

  /** Each input is restored where no coin is. */
  predicate InputsGone(view: CoinMap, vin: seq<OutPoint>, coins: seq<Coin>, j: nat)
    requires j <= |vin| == |coins| && WithInputs(view, vin, coins, j).Some?
    decreases |vin| - j
  {
    j == |vin| || (InputsGone(view, vin, coins, j + 1) && vin[j] !in WithInputs(view, vin, coins, j + 1).value)
  }

  predicate TxClean(view: CoinMap, block: Block, undo: Undo, i: nat)
    requires i < |block.vtx| == |undo| + 1 && TxUndone(view, block, undo, i).Some?
  {
    var tx := block.vtx[i];
    && OutputsThere(view, tx, block.nHeight, |tx.vout|)
    && (i > 0 ==> InputsGone(WithoutOutputs(view, tx, |tx.vout|), tx.vin, undo[i - 1], 0))
  }

  predicate Clean(view: CoinMap, block: Block, undo: Undo, i: nat)
    requires i <= |block.vtx| == |undo| + 1 && Undone(view, block, undo, i).Some?
    decreases |block.vtx| - i
  {
    i == |block.vtx| || (Clean(view, block, undo, i + 1)
      && TxClean(Undone(view, block, undo, i + 1).value, block, undo, i))
  }

  ghost predicate OnlyFirstCoinBase(block: Block) {
    forall i :: 0 <= i < |block.vtx| ==> (block.vtx[i].isCoinBase <==> i == 0)
  }

  lemma {:induction false} WithoutOutputsAt(view: CoinMap, tx: Tx, n: nat, o: OutPoint)
    requires n <= |tx.vout|
    ensures Lookup(WithoutOutputs(view, tx, n), o)
         == if o.hash == tx.txid && o.n < n && Spendable(tx, o.n) then None else Lookup(view, o)
  {
    if n != 0 {
      WithoutOutputsAt(view, tx, n - 1, o);
    }
  }

  lemma {:induction false} WithoutInputsAt(view: CoinMap, vin: seq<OutPoint>, o: OutPoint)
    ensures Lookup(WithoutInputs(view, vin), o) == if o in vin then None else Lookup(view, o)
  {
    if vin != [] {
      WithoutInputsAt(view, vin[..|vin| - 1], o);
      assert vin == vin[..|vin| - 1] + [vin[|vin| - 1]];
    }
  }

  /** Restoring touches the inputs only, and if cleanly, none of them was there. */
  lemma {:induction false} WithInputsAt(view: CoinMap, vin: seq<OutPoint>, coins: seq<Coin>, j: nat, o: OutPoint)
    requires j <= |vin| == |coins| && WithInputs(view, vin, coins, j).Some?
    ensures o !in vin[j..] ==> Lookup(WithInputs(view, vin, coins, j).value, o) == Lookup(view, o)
    ensures o in view ==> o in WithInputs(view, vin, coins, j).value
    ensures InputsGone(view, vin, coins, j) && o in vin[j..] ==> o !in view
    decreases |vin| - j
  {
    if j < |vin| {
      WithInputsAt(view, vin, coins, j + 1, o);
      assert vin[j..] == [vin[j]] + vin[j + 1..];
    }
  }

  /** One transaction cleanly taken back and applied again. */
  lemma TxAgain(view: CoinMap, block: Block, undo: Undo, i: nat)
    requires i < |block.vtx| == |undo| + 1 && TxUndone(view, block, undo, i).Some? && TxClean(view, block, undo, i)
    requires block.vtx[i].isCoinBase <==> i == 0
    ensures TxEffect(TxUndone(view, block, undo, i).value, block.vtx[i], block.nHeight) == view
  {
    var tx := block.vtx[i];
    var v1, v2 := WithoutOutputs(view, tx, |tx.vout|), TxUndone(view, block, undo, i).value;
    var v3 := if tx.isCoinBase then v2 else WithoutInputs(v2, tx.vin);
    forall o ensures Lookup(TxEffect(v2, tx, block.nHeight), o) == Lookup(view, o) {
      OutputsSeen(v3, tx, block.nHeight, |tx.vout|, o);
      WithoutOutputsAt(view, tx, |tx.vout|, o);
      if i > 0 {
        WithoutInputsAt(v2, tx.vin, o);
        WithInputsAt(v1, tx.vin, undo[i - 1], 0, o);
        assert tx.vin[0..] == tx.vin;
      }
    }
    SameLookups(TxEffect(v2, tx, block.nHeight), view);
  }

  /** A block cleanly disconnected and connected again. */
  lemma {:induction false} ConnectAgain(view: CoinMap, block: Block, undo: Undo, n: nat)
    requires n <= |block.vtx| == |undo| + 1 && OnlyFirstCoinBase(block)
    requires Undone(view, block, undo, 0).Some? && Clean(view, block, undo, 0)
    ensures Undone(view, block, undo, n).Some? && Clean(view, block, undo, n)
    ensures BlockEffect(Undone(view, block, undo, 0).value, block, n) == Undone(view, block, undo, n).value
  {
    hide TxUndone;
    hide TxClean;
    hide TxEffect;
    if n != 0 {
      ConnectAgain(view, block, undo, n - 1);
      TxAgain(Undone(view, block, undo, n).value, block, undo, n - 1);
    }
  }

  /** If DisconnectBlock reports no trouble, connecting the block gives back what it found. */
  lemma CleanInverse(view: CoinMap, block: Block, undo: Undo)
    requires |undo| + 1 == |block.vtx| && OnlyFirstCoinBase(block)
    requires Undone(view, block, undo, 0).Some? && Clean(view, block, undo, 0)
    ensures BlockEffect(Disconnected(view, block, undo).value, block, |block.vtx|) == view
  {
    ConnectAgain(view, block, undo, |block.vtx|);
  }

  /** The inputs of transaction `i` are there as the undo data say, and its outputs are new. */
  ghost predicate Recorded(view: CoinMap, block: Block, undo: Undo, i: nat)
    requires i < |block.vtx| == |undo| + 1
  {
    var tx := block.vtx[i];
    && (tx.isCoinBase <==> i == 0)
    && (forall k :: 0 <= k < |tx.vout| && Spendable(tx, k) ==> OutPoint(tx.txid, k) !in view)
    && (i > 0 ==> |undo[i - 1]| == |tx.vin| && Distinct(tx.vin)
                  && forall j :: 0 <= j < |tx.vin| ==>
                       Lookup(view, tx.vin[j]) == Some(undo[i - 1][j]) && Dated(undo[i - 1][j]))
  }

  /** A record of today's form, of a coin that could be spent. */
  predicate Dated(coin: Coin) { coin.nHeight != 0 && !coin.IsSpent() && !IsUnspendable(coin.out.scriptPubKey) }

  ghost predicate AllRecorded(view: CoinMap, block: Block, undo: Undo) {
    |undo| + 1 == |block.vtx|
      && forall i :: 0 <= i < |block.vtx| ==> Recorded(BlockEffect(view, block, i), block, undo, i)
  }

  /** Inputs taken out are put back. */
  lemma {:induction false} InputsBack(view: CoinMap, vin: seq<OutPoint>, coins: seq<Coin>, j: nat)
    requires j <= |vin| == |coins| && Distinct(vin)
    requires forall k :: 0 <= k < |vin| ==> Lookup(view, vin[k]) == Some(coins[k]) && Dated(coins[k])
    ensures var r := WithInputs(WithoutInputs(view, vin), vin, coins, j);
      r.Some? && InputsGone(WithoutInputs(view, vin), vin, coins, j)
      && forall o :: Lookup(r.value, o) == if o in vin[..j] then None else Lookup(view, o)
    decreases |vin| - j
  {
    var without := WithoutInputs(view, vin);
    if j == |vin| {
      assert vin[..j] == vin;
      forall o ensures Lookup(without, o) == if o in vin[..j] then None else Lookup(view, o) {
        WithoutInputsAt(view, vin, o);
      }
    } else {
      InputsBack(view, vin, coins, j + 1);
      assert vin[..j + 1] == vin[..j] + [vin[j]];
      var v := WithInputs(without, vin, coins, j + 1).value;
      assert Lookup(v, vin[j]) == None;
      forall o ensures Lookup(v[vin[j] := coins[j]], o) == if o in vin[..j] then None else Lookup(view, o) {
      }
    }
  }

  /** One transaction applied and taken back. */
  lemma TxBack(view: CoinMap, block: Block, undo: Undo, i: nat)
    requires i < |block.vtx| == |undo| + 1 && Recorded(view, block, undo, i)
    ensures var after := TxEffect(view, block.vtx[i], block.nHeight);
      TxUndone(after, block, undo, i) == Some(view) && TxClean(after, block, undo, i)
  {
    var tx := block.vtx[i];
    var before := if tx.isCoinBase then view else WithoutInputs(view, tx.vin);
    var after := TxEffect(view, tx, block.nHeight);
    forall o ensures Lookup(WithoutOutputs(after, tx, |tx.vout|), o) == Lookup(before, o) {
      OutputsSeen(before, tx, block.nHeight, |tx.vout|, o);
      WithoutOutputsAt(after, tx, |tx.vout|, o);
      WithoutInputsAt(view, tx.vin, o);
    }
    SameLookups(WithoutOutputs(after, tx, |tx.vout|), before);
    forall k | 0 <= k < |tx.vout| && Spendable(tx, k)
      ensures Lookup(after, OutPoint(tx.txid, k)) == Some(Coin(tx.vout[k], tx.isCoinBase, block.nHeight))
    {
      OutputsSeen(before, tx, block.nHeight, |tx.vout|, OutPoint(tx.txid, k));
    }
    if i > 0 {
      InputsBack(view, tx.vin, undo[i - 1], 0);
      SameLookups(WithInputs(before, tx.vin, undo[i - 1], 0).value, view);
    }
  }

  lemma {:induction false} DisconnectAgain(view: CoinMap, block: Block, undo: Undo, i: nat)
    requires i <= |block.vtx| && AllRecorded(view, block, undo)
    ensures var after := BlockEffect(view, block, |block.vtx|);
      Undone(after, block, undo, i) == Some(BlockEffect(view, block, i)) && Clean(after, block, undo, i)
    decreases |block.vtx| - i
  {
    hide TxUndone;
    hide TxClean;
    hide TxEffect;
    hide Recorded;
    if i < |block.vtx| {
      DisconnectAgain(view, block, undo, i + 1);
      assert Recorded(BlockEffect(view, block, i), block, undo, i);
      TxBack(BlockEffect(view, block, i), block, undo, i);
    }
  }

  /** Disconnecting a block with its own undo data gives back the coins it was connected to, cleanly. */
  lemma DisconnectInverse(view: CoinMap, block: Block, undo: Undo)
    requires AllRecorded(view, block, undo)
    ensures var after := BlockEffect(view, block, |block.vtx|);
      Disconnected(after, block, undo) == Some(view) && Clean(after, block, undo, 0)
  {
    DisconnectAgain(view, block, undo, 0);
  }

  // ---------------------------------------------------------------------
  // Each coin is either left alone or set, whatever was there
  // ---------------------------------------------------------------------

  /** Going from `a` to `a'` and from `b` to `b'` either leaves `o` alone or sets it to the same. */
  predicate Alike(a: CoinMap, a': CoinMap, b: CoinMap, b': CoinMap, o: OutPoint) {
    || (Lookup(a', o) == Lookup(a, o) && Lookup(b', o) == Lookup(b, o))
    || Lookup(a', o) == Lookup(b', o)
  }

  lemma {:induction false} InputsAlike(a: CoinMap, b: CoinMap, vin: seq<OutPoint>, o: OutPoint)
    ensures Alike(a, WithoutInputs(a, vin), b, WithoutInputs(b, vin), o)
  {
    if vin != [] {
      InputsAlike(a, b, vin[..|vin| - 1], o);
    }
  }

  lemma TxAlike(a: CoinMap, b: CoinMap, tx: Tx, nHeight: nat, o: OutPoint)
    ensures Alike(a, TxEffect(a, tx, nHeight), b, TxEffect(b, tx, nHeight), o)
  {
    InputsAlike(a, b, tx.vin, o);
    OutputsSeen(if tx.isCoinBase then a else WithoutInputs(a, tx.vin), tx, nHeight, |tx.vout|, o);
    OutputsSeen(if tx.isCoinBase then b else WithoutInputs(b, tx.vin), tx, nHeight, |tx.vout|, o);
  }

  lemma {:induction false} BlockAlike(a: CoinMap, b: CoinMap, block: Block, n: nat, o: OutPoint)
    requires n <= |block.vtx|
    ensures Alike(a, BlockEffect(a, block, n), b, BlockEffect(b, block, n), o)
  {
    if n != 0 {
      BlockAlike(a, b, block, n - 1, o);
      TxAlike(BlockEffect(a, block, n - 1), BlockEffect(b, block, n - 1), block.vtx[n - 1], block.nHeight, o);
    }
  }

  lemma {:induction false} ChainAlike(a: CoinMap, b: CoinMap, blocks: seq<Block>, o: OutPoint)
    ensures Alike(a, ChainEffect(a, blocks), b, ChainEffect(b, blocks), o)
  {
    if blocks != [] {
      var front, last := blocks[..|blocks| - 1], blocks[|blocks| - 1];
      ChainAlike(a, b, front, o);
      BlockAlike(ChainEffect(a, front), ChainEffect(b, front), last, |last.vtx|, o);
    }
  }

  predicate TxDated(tx: Tx, coins: seq<Coin>) {
    |coins| == |tx.vin| && forall k :: 0 <= k < |coins| ==> Dated(coins[k])
  }

  ghost predicate AllDated(block: Block, undo: Undo) {
    |undo| + 1 == |block.vtx| && forall i :: 0 <= i < |undo| ==> TxDated(block.vtx[i + 1], undo[i])
  }

  lemma DatedSizes(block: Block, undo: Undo)
    requires AllDated(block, undo)
    ensures |undo| + 1 == |block.vtx|
  {
  }

  lemma {:induction false} RestoredAlike(a: CoinMap, b: CoinMap, vin: seq<OutPoint>, coins: seq<Coin>, j: nat,
                                         o: OutPoint)
    requires j <= |vin| == |coins| && forall k :: 0 <= k < |coins| ==> Dated(coins[k])
    ensures WithInputs(a, vin, coins, j).Some? && WithInputs(b, vin, coins, j).Some?
    ensures Alike(a, WithInputs(a, vin, coins, j).value, b, WithInputs(b, vin, coins, j).value, o)
    decreases |vin| - j
  {
    if j < |vin| {
      RestoredAlike(a, b, vin, coins, j + 1, o);
    }
  }

  lemma TxUndoneAlike(a: CoinMap, b: CoinMap, block: Block, undo: Undo, i: nat, o: OutPoint)
    requires AllDated(block, undo) && i < |block.vtx|
    ensures TxUndone(a, block, undo, i).Some? && TxUndone(b, block, undo, i).Some?
    ensures Alike(a, TxUndone(a, block, undo, i).value, b, TxUndone(b, block, undo, i).value, o)
  {
    var tx := block.vtx[i];
    var a1, b1 := WithoutOutputs(a, tx, |tx.vout|), WithoutOutputs(b, tx, |tx.vout|);
    WithoutOutputsAt(a, tx, |tx.vout|, o);
    WithoutOutputsAt(b, tx, |tx.vout|, o);
    if i > 0 {
      assert TxDated(block.vtx[i - 1 + 1], undo[i - 1]);
      RestoredAlike(a1, b1, tx.vin, undo[i - 1], 0, o);
    }
  }

  lemma {:induction false} UndoneAlike(a: CoinMap, b: CoinMap, block: Block, undo: Undo, i: nat, o: OutPoint)
    requires AllDated(block, undo) && i <= |block.vtx|
    ensures Undone(a, block, undo, i).Some? && Undone(b, block, undo, i).Some?
    ensures Alike(a, Undone(a, block, undo, i).value, b, Undone(b, block, undo, i).value, o)
    decreases |block.vtx| - i
  {
    DatedSizes(block, undo);
    hide TxUndone;
    hide AllDated;
    if i < |block.vtx| {
      UndoneAlike(a, b, block, undo, i + 1, o);
      TxUndoneAlike(Undone(a, block, undo, i + 1).value, Undone(b, block, undo, i + 1).value, block, undo, i, o);
    }
  }

  /** A block of the branch that is left, with its undo data. */
  datatype Leaving = Leaving(block: Block, undo: Undo)

  /** The branch taken back, from the old tip on; a genesis block is never disconnected. */
  function RolledBack(view: CoinMap, leaving: seq<Leaving>): Option<CoinMap> {
    if leaving == [] then Some(view) else
      match RolledBack(view, leaving[..|leaving| - 1])
      case None => None
      case Some(v) =>
        var l := leaving[|leaving| - 1];
        if l.block.nHeight > 0 then Disconnected(v, l.block, l.undo) else Some(v)
  }

  ghost predicate BranchDated(leaving: seq<Leaving>) {
    forall i :: 0 <= i < |leaving| ==> AllDated(leaving[i].block, leaving[i].undo)
  }

  lemma {:induction false} RolledBackAlike(a: CoinMap, b: CoinMap, leaving: seq<Leaving>, o: OutPoint)
    requires BranchDated(leaving)
    ensures RolledBack(a, leaving).Some? && RolledBack(b, leaving).Some?
    ensures Alike(a, RolledBack(a, leaving).value, b, RolledBack(b, leaving).value, o)
    decreases |leaving|
  {
    hide Undone;
    hide AllDated;
    if leaving != [] {
      var front, l := leaving[..|leaving| - 1], leaving[|leaving| - 1];
      RolledBackAlike(a, b, front, o);
      DatedSizes(l.block, l.undo);
      UndoneAlike(RolledBack(a, front).value, RolledBack(b, front).value, l.block, l.undo, 0, o);
    }
  }

  /** What the flush was to write: the branch left taken back, the new one applied. */
  function Goal(was: CoinMap, leaving: seq<Leaving>, blocks: seq<Block>): Option<CoinMap> {
    match RolledBack(was, leaving)
    case None => None
    case Some(v) => Some(ChainEffect(v, blocks))
  }

  /** From any mixture of the old and the new coins, going back to the fork and forward again leads to the new ones. */
  lemma ReplayRestores(was: CoinMap, now: CoinMap, leaving: seq<Leaving>, blocks: seq<Block>)
    requires BranchDated(leaving) && Goal(was, leaving, blocks).Some?
             && Between(was, Goal(was, leaving, blocks).value, now)
    ensures Goal(now, leaving, blocks) == Goal(was, leaving, blocks)
  {
    var goal := Goal(was, leaving, blocks).value;
    RolledBackAlike(was, now, leaving, OutPoint(0, 0));
    var a, b := RolledBack(was, leaving).value, RolledBack(now, leaving).value;
    forall o ensures Lookup(ChainEffect(b, blocks), o) == Lookup(goal, o) {
      RolledBackAlike(was, now, leaving, o);
      ChainAlike(a, b, blocks, o);
    }
    SameLookups(ChainEffect(b, blocks), goal);
  }

  /** The branch `leaving`, tip first, was connected to `fork` and left `was`. */
  ghost predicate Grown(fork: CoinMap, leaving: seq<Leaving>, was: CoinMap)
    decreases |leaving|
  {
    if leaving == [] then was == fork else
      exists v :: GrownBy(v, leaving[0], was) && Grown(fork, leaving[1..], v)
  }

  ghost predicate GrownBy(v: CoinMap, l: Leaving, was: CoinMap) {
    l.block.nHeight > 0 && AllRecorded(v, l.block, l.undo) && was == BlockEffect(v, l.block, |l.block.vtx|)
  }

  lemma {:induction false} RolledBackFirst(view: CoinMap, leaving: seq<Leaving>)
    requires leaving != []
    ensures var first := RolledBack(view, leaving[..1]);
      first.Some? ==> RolledBack(view, leaving) == RolledBack(first.value, leaving[1..])
    decreases |leaving|
  {
    if |leaving| == 1 {
      assert leaving[..1] == leaving;
    } else {
      var front := leaving[..|leaving| - 1];
      RolledBackFirst(view, front);
      assert front[..1] == leaving[..1];
      assert front[1..] == leaving[1..][..|leaving| - 2];
    }
  }

  /** Over a fork: a branch that was connected with its undo data is taken back to the fork, so that the goal is the
      new branch connected there. */
  lemma {:induction false} ForkReached(fork: CoinMap, leaving: seq<Leaving>, was: CoinMap, blocks: seq<Block>)
    requires Grown(fork, leaving, was)
    ensures RolledBack(was, leaving) == Some(fork) && Goal(was, leaving, blocks) == Some(ChainEffect(fork, blocks))
    decreases |leaving|
  {
    if leaving != [] {
      var v :| GrownBy(v, leaving[0], was) && Grown(fork, leaving[1..], v);
      DisconnectInverse(v, leaving[0].block, leaving[0].undo);
      assert leaving[..1][..0] == [];
      assert RolledBack(was, leaving[..1]) == Some(v);
      RolledBackFirst(was, leaving);
      ForkReached(fork, leaving[1..], v, blocks);
    }
  }

  /** Being cut short again leaves a mixture of the same two. */
  lemma BetweenAgain(was: CoinMap, goal: CoinMap, now: CoinMap, later: CoinMap)
    requires Between(was, goal, now) && Between(now, goal, later)
    ensures Between(was, goal, later)
  {
    forall o ensures Lookup(later, o) == Lookup(was, o) || Lookup(later, o) == Lookup(goal, o) {
      assert Lookup(now, o) == Lookup(was, o) || Lookup(now, o) == Lookup(goal, o);
    }
  }

  lemma BetweenUnspent(was: CoinMap, goal: CoinMap, now: CoinMap)
    requires Between(was, goal, now) && AllUnspent(was) && AllUnspent(goal)
    ensures AllUnspent(now)
  {
    forall o | o in now ensures !now[o].IsSpent() {
      assert Lookup(now, o) == Lookup(was, o) || Lookup(now, o) == Lookup(goal, o);
    }
  }

  // ---------------------------------------------------------------------
  // The replay
  // ---------------------------------------------------------------------

  method SpendInputs(cache: CoinsViewCache, vin: seq<OutPoint>)
    requires cache.Shape() && cache.Valid()
    modifies cache.Repr
    ensures cache.Valid() && cache.View() == WithoutInputs(old(cache.View()), vin)
            && cache.Names() == old(cache.Names())
    ensures cache.BaseView() == old(cache.BaseView())
  {
    for i := 0 to |vin|
      invariant cache.Valid() && cache.View() == WithoutInputs(old(cache.View()), vin[..i])
                && cache.Names() == old(cache.Names())
      invariant cache.BaseView() == old(cache.BaseView())
    {
      assert vin[..i + 1][..i] == vin[..i];
      var _, _ := cache.SpendCoin(vin[i]);
    }
    assert vin[..|vin|] == vin;
  }

  lemma AnyCoinNext(view: CoinMap, txid: nat, n: nat)
    ensures AnyCoin(view, txid, n) ==
      if n >= MAX_OUTPUTS_PER_BLOCK then None
      else if Lookup(view, OutPoint(txid, n)).Some? then Lookup(view, OutPoint(txid, n))
      else AnyCoin(view, txid, n + 1)
  {
  }

  /** Some unspent coin of the transaction. */
  method AccessByTxid(view: CoinsViewCache, txid: nat) returns (alternate: Option<Coin>)
    requires view.Shape() && view.Valid()
    modifies view.Repr
    ensures view.Valid() && view.View() == old(view.View()) && view.Names() == old(view.Names())
    ensures view.BaseView() == old(view.BaseView()) && alternate == AnyCoin(old(view.View()), txid, 0)
  {
    hide AnyCoin;
    ghost var v := view.View();
    var n := 0;
    while n < MAX_OUTPUTS_PER_BLOCK
      invariant 0 <= n && AnyCoin(v, txid, n) == AnyCoin(v, txid, 0)
      invariant view.Valid() && view.View() == v && view.Names() == old(view.Names())
      invariant view.BaseView() == old(view.BaseView())
    {
      AnyCoinNext(v, txid, n);
      alternate := view.GetCoin(OutPoint(txid, n));
      if alternate.Some? {
        return;
      }
      n := n + 1;
    }
    AnyCoinNext(v, txid, n);
    alternate := None;
  }

  /** UNCLEAN when a coin is overwritten, FAILED when the record lacks a height that no other coin tells. */
  method ApplyTxInUndo(undo: Coin, view: CoinsViewCache, out: OutPoint) returns (res: DisconnectResult)
    requires view.Shape() && view.Valid() && !undo.IsSpent()
    modifies view.Repr
    ensures view.Valid() && view.Names() == old(view.Names()) && view.BaseView() == old(view.BaseView())
    ensures res == DISCONNECT_FAILED <==> Completed(old(view.View()), out, undo).None?
    ensures res != DISCONNECT_FAILED ==>
      && view.View() == WithCoin(old(view.View()), out, Completed(old(view.View()), out, undo).value)
      && (res == DISCONNECT_OK <==> out !in old(view.View()))
  {
    hide AnyCoin;
    var have := view.HaveCoin(out);
    var coin := undo;
    if undo.nHeight == 0 {
      var alternate := AccessByTxid(view, out.hash);
      if alternate.None? {
        return DISCONNECT_FAILED;
      }
      coin := Coin(undo.out, alternate.value.fCoinBase, alternate.value.nHeight);
    }
    var thrown := view.AddCoin(out, coin, have);
    res := if have then DISCONNECT_UNCLEAN else DISCONNECT_OK;
  }

  /** The outputs are spent, and compared with what the block made. */
  method SpendOutputs(tx: Tx, nHeight: nat, view: CoinsViewCache) returns (clean: bool)
    requires view.Shape() && view.Valid() && forall k :: 0 <= k < |tx.vout| ==> tx.vout[k].nValue != -1
    modifies view.Repr
    ensures view.Valid() && view.View() == WithoutOutputs(old(view.View()), tx, |tx.vout|)
            && view.Names() == old(view.Names())
    ensures view.BaseView() == old(view.BaseView())
            && (clean <==> OutputsThere(old(view.View()), tx, nHeight, |tx.vout|))
  {
    hide WithoutOutputs;
    hide OutputsThere;
    clean := true;
    NoOutputs(old(view.View()), tx, nHeight);
    for o := 0 to |tx.vout|
      invariant view.Valid() && view.View() == WithoutOutputs(old(view.View()), tx, o)
                && view.Names() == old(view.Names())
      invariant view.BaseView() == old(view.BaseView()) && (clean <==> OutputsThere(old(view.View()), tx, nHeight, o))
    {
      OneOutput(old(view.View()), tx, nHeight, o);
      if Spendable(tx, o) {
        var found, coin := view.SpendCoin(OutPoint(tx.txid, o));
        if !found || tx.vout[o] != coin.out || nHeight != coin.nHeight || tx.isCoinBase != coin.fCoinBase {
          clean := false;
        }
      }
    }
  }

  lemma NoOutputs(view: CoinMap, tx: Tx, nHeight: nat)
    ensures WithoutOutputs(view, tx, 0) == view && OutputsThere(view, tx, nHeight, 0)
  {
  }

  lemma OneOutput(view: CoinMap, tx: Tx, nHeight: nat, o: nat)
    requires o < |tx.vout|
    ensures var v, out := WithoutOutputs(view, tx, o), OutPoint(tx.txid, o);
      && WithoutOutputs(view, tx, o + 1) == (if Spendable(tx, o) then v - {out} else v)
      && (OutputsThere(view, tx, nHeight, o + 1) <==>
            OutputsThere(view, tx, nHeight, o)
              && (Spendable(tx, o) ==> Lookup(v, out) == Some(Coin(tx.vout[o], tx.isCoinBase, nHeight))))
  {
    WithoutOutputsAt(view, tx, o, OutPoint(tx.txid, o));
  }

  /** The inputs are restored, last one first. */
  method RestoreInputs(vin: seq<OutPoint>, coins: seq<Coin>, view: CoinsViewCache) returns (res: DisconnectResult)
    requires view.Shape() && view.Valid() && |vin| == |coins| && forall k :: 0 <= k < |coins| ==> !coins[k].IsSpent()
    modifies view.Repr
    ensures view.Valid() && view.Names() == old(view.Names()) && view.BaseView() == old(view.BaseView())
    ensures res == DISCONNECT_FAILED <==> WithInputs(old(view.View()), vin, coins, 0).None?
    ensures res != DISCONNECT_FAILED ==>
      && view.View() == WithInputs(old(view.View()), vin, coins, 0).value
      && (res == DISCONNECT_OK <==> InputsGone(old(view.View()), vin, coins, 0))
  {
    hide Completed;
    var clean := true;
    var j := |vin|;
    while j > 0
      invariant 0 <= j <= |vin| && view.Valid() && view.Names() == old(view.Names())
                && view.BaseView() == old(view.BaseView())
      invariant WithInputs(old(view.View()), vin, coins, j) == Some(view.View())
      invariant clean <==> InputsGone(old(view.View()), vin, coins, j)
    {
      j := j - 1;
      res := ApplyTxInUndo(coins[j], view, vin[j]);
      if res == DISCONNECT_FAILED {
        NoInputs(old(view.View()), vin, coins, j, 0);
        return;
      }
      clean := clean && res != DISCONNECT_UNCLEAN;
    }
    res := if clean then DISCONNECT_OK else DISCONNECT_UNCLEAN;
  }

  lemma {:induction false} NoInputs(view: CoinMap, vin: seq<OutPoint>, coins: seq<Coin>, j: nat, n: nat)
    requires n <= j <= |vin| == |coins| && WithInputs(view, vin, coins, j).None?
    ensures WithInputs(view, vin, coins, n).None?
    decreases j - n
  {
    if n < j {
      NoInputs(view, vin, coins, j, n + 1);
    }
  }

  lemma {:induction false} NotUndone(view: CoinMap, block: Block, undo: Undo, i: nat, n: nat)
    requires n <= i <= |block.vtx| == |undo| + 1 && Undone(view, block, undo, i).None?
    ensures Undone(view, block, undo, n).None?
    decreases i - n
  {
    if n < i {
      NotUndone(view, block, undo, i, n + 1);
    }
  }

  /** One round of DisconnectBlock. */
  method DisconnectTx(block: Block, undo: Undo, i: nat, view: CoinsViewCache) returns (res: DisconnectResult)
    requires view.Shape() && view.Valid() && BlockOk(block) && UndoOk(undo) && i < |block.vtx| == |undo| + 1
    modifies view.Repr
    ensures view.Valid() && view.Names() == old(view.Names()) && view.BaseView() == old(view.BaseView())
    ensures res == DISCONNECT_FAILED <==> TxUndone(old(view.View()), block, undo, i).None?
    ensures res != DISCONNECT_FAILED ==>
      && view.View() == TxUndone(old(view.View()), block, undo, i).value
      && (res == DISCONNECT_OK <==> TxClean(old(view.View()), block, undo, i))
  {
    hide WithInputs;
    hide InputsGone;
    hide WithoutOutputs;
    hide OutputsThere;
    var tx := block.vtx[i];
    var clean := SpendOutputs(tx, block.nHeight, view);
    if i > 0 {
      if |undo[i - 1]| != |tx.vin| {
        return DISCONNECT_FAILED;
      }
      res := RestoreInputs(tx.vin, undo[i - 1], view);
      if res == DISCONNECT_FAILED {
        return;
      }
      clean := clean && res != DISCONNECT_UNCLEAN;
    }
    res := if clean then DISCONNECT_OK else DISCONNECT_UNCLEAN;
  }

  /** No record is of a spent coin. */
  ghost predicate UndoOk(undo: Undo) {
    forall i, k :: 0 <= i < |undo| && 0 <= k < |undo[i]| ==> !undo[i][k].IsSpent()
  }

  /** When it fails the coins shown are of no use. */
  method DisconnectBlock(block: Block, undo: Undo, view: CoinsViewCache) returns (res: DisconnectResult)
    requires view.Shape() && view.Valid() && BlockOk(block) && UndoOk(undo)
    modifies view.Repr
    ensures view.Valid() && view.BaseView() == old(view.BaseView())
    ensures res == DISCONNECT_FAILED ==> view.Names() == old(view.Names())
    ensures res == DISCONNECT_FAILED <==> Disconnected(old(view.View()), block, undo).None?
    ensures res != DISCONNECT_FAILED ==>
      && view.View() == Disconnected(old(view.View()), block, undo).value
      && view.Names() == Layer(block.hashPrev, old(view.Names()).below)
      && (res == DISCONNECT_OK <==> Clean(old(view.View()), block, undo, 0))
  {
    hide TxUndone;
    hide TxClean;
    if |undo| + 1 != |block.vtx| {
      return DISCONNECT_FAILED;
    }
    var clean := true;
    var i := |block.vtx|;
    while i > 0
      invariant 0 <= i <= |block.vtx| && view.Valid() && view.Names() == old(view.Names())
                && view.BaseView() == old(view.BaseView())
      invariant Undone(old(view.View()), block, undo, i) == Some(view.View())
      invariant clean <==> Clean(old(view.View()), block, undo, i)
    {
      i := i - 1;
      res := DisconnectTx(block, undo, i, view);
      if res == DISCONNECT_FAILED {
        NotUndone(old(view.View()), block, undo, i, 0);
        return;
      }
      clean := clean && res != DISCONNECT_UNCLEAN;
    }
    view.SetBestBlock(block.hashPrev);
    res := if clean then DISCONNECT_OK else DISCONNECT_UNCLEAN;
  }

  method RollforwardBlock(block: Block, inputs: CoinsViewCache)
    requires inputs.Shape() && inputs.Valid() && BlockOk(block)
    modifies inputs.Repr
    ensures inputs.Valid() && inputs.View() == BlockEffect(old(inputs.View()), block, |block.vtx|)
    ensures inputs.Names() == old(inputs.Names()) && inputs.BaseView() == old(inputs.BaseView())
  {
    for i := 0 to |block.vtx|
      invariant inputs.Valid() && inputs.View() == BlockEffect(old(inputs.View()), block, i)
      invariant inputs.Names() == old(inputs.Names()) && inputs.BaseView() == old(inputs.BaseView())
    {
      if !block.vtx[i].isCoinBase {
        SpendInputs(inputs, block.vtx[i].vin);
      }
      var _ := inputs.AddCoins(block.vtx[i], block.nHeight, true);
    }
  }

  /** What a flush from `was` over the fork, cut short any number of times, leaves on the disk. */
  ghost predicate CutShort(db: CoinsViewDB, heads: seq<BlockHash>, was: CoinMap, leaving: seq<Leaving>,
                           blocks: seq<Block>)
    reads db
  {
    && |heads| == 2 && heads[0] != NULL_HASH && db.bestBlock == NULL_HASH && db.heads == heads && AllUnspent(db.coins)
    && Goal(was, leaving, blocks).Some? && Between(was, Goal(was, leaving, blocks).value, db.coins)
  }

  lemma {:induction false} NotRolledBack(view: CoinMap, leaving: seq<Leaving>, n: nat)
    requires n <= |leaving| && RolledBack(view, leaving[..n]).None?
    ensures RolledBack(view, leaving).None?
    decreases |leaving|
  {
    if n < |leaving| {
      assert leaving[..|leaving| - 1][..n] == leaving[..n];
      NotRolledBack(view, leaving[..|leaving| - 1], n);
    } else {
      assert leaving[..n] == leaving;
    }
  }

  /** Back along the branch that is left. */
  method Rollback(leaving: seq<Leaving>, cache: CoinsViewCache) returns (ok: bool)
    requires cache.Shape() && cache.Valid() && cache.Names().Layer?
    requires forall i :: 0 <= i < |leaving| ==> BlockOk(leaving[i].block) && UndoOk(leaving[i].undo)
    modifies cache.Repr
    ensures cache.Valid() && cache.BaseView() == old(cache.BaseView())
    ensures ok <==> RolledBack(old(cache.View()), leaving).Some?
    ensures ok ==> cache.View() == RolledBack(old(cache.View()), leaving).value
    ensures cache.Names().Layer? && cache.Names().below == old(cache.Names()).below
  {
    hide Disconnected;
    for i := 0 to |leaving|
      invariant cache.Valid() && RolledBack(old(cache.View()), leaving[..i]) == Some(cache.View())
      invariant cache.Names().Layer? && cache.Names().below == old(cache.Names()).below
                && cache.BaseView() == old(cache.BaseView())
    {
      assert leaving[..i + 1][..i] == leaving[..i];
      if leaving[i].block.nHeight > 0 {
        var res := DisconnectBlock(leaving[i].block, leaving[i].undo, cache);
        if res == DISCONNECT_FAILED {
          NotRolledBack(old(cache.View()), leaving, i + 1);
          return false;
        }
      }
    }
    assert leaving[..|leaving|] == leaving;
    ok := true;
  }

  /** Forward along the new branch. */
  method Rollforward(blocks: seq<Block>, cache: CoinsViewCache)
    requires cache.Shape() && cache.Valid() && forall i :: 0 <= i < |blocks| ==> BlockOk(blocks[i])
    modifies cache.Repr
    ensures cache.Valid() && cache.View() == ChainEffect(old(cache.View()), blocks)
            && cache.Names() == old(cache.Names())
    ensures cache.BaseView() == old(cache.BaseView())
  {
    hide BlockEffect;
    for i := 0 to |blocks|
      invariant cache.Valid() && cache.View() == ChainEffect(old(cache.View()), blocks[..i])
                && cache.Names() == old(cache.Names())
      invariant cache.BaseView() == old(cache.BaseView())
    {
      assert blocks[..i + 1][..i] == blocks[..i];
      RollforwardBlock(blocks[i], cache);
    }
    assert blocks[..|blocks|] == blocks;
  }

  /** `leaving` are the blocks from the old tip back to the fork, `blocks` those from there to the new tip; `dies` says
      where the process ends during the final flush. Returns whether the database is consistent, and whether the
      process ended. */
  method ReplayBlocks(db: CoinsViewDB, leaving: seq<Leaving>, blocks: seq<Block>, scriptUsage: Script -> nat,
                      dies: nat -> bool, ghost was: CoinMap)
    returns (ok: bool, died: bool)
    requires scriptUsage([]) == 0 && forall i :: 0 <= i < |blocks| ==> BlockOk(blocks[i])
    requires forall i :: 0 <= i < |leaving| ==> BlockOk(leaving[i].block) && UndoOk(leaving[i].undo)
    requires |db.heads| == 2 ==> db.heads[0] != NULL_HASH && db.bestBlock == NULL_HASH && AllUnspent(db.coins)
    modifies db
    ensures ok && !died <==>
      old(db.heads) == [] || (|old(db.heads)| == 2 && Goal(old(db.coins), leaving, blocks).Some? && !died)
    ensures |old(db.heads)| == 2 && ok && !died ==>
      db.coins == Goal(old(db.coins), leaving, blocks).value && db.bestBlock == old(db.heads)[0] && db.heads == []
    ensures old(CutShort(db, db.heads, was, leaving, blocks)) && BranchDated(leaving) ==>
      && (!died ==> ok && db.coins == Goal(was, leaving, blocks).value)
      && (died ==> CutShort(db, old(db.heads), was, leaving, blocks))
    ensures |old(db.heads)| != 2 ==> unchanged(db)
    ensures !ok && !died ==> db.coins == old(db.coins) && db.bestBlock == old(db.bestBlock) && db.heads == old(db.heads)
    ensures (forall i :: !dies(i)) ==> !died
  {
    hide RolledBack;
    hide ChainEffect;
    hide BranchDated;
    hide Between;
    hide AllUnspent;
    if db.heads == [] {
      return true, false;
    }
    if |db.heads| != 2 {
      return false, false;
    }
    var cache := new CoinsViewCache.OverDB(db, scriptUsage);
    DatedGoal(old(db.coins), was, leaving, blocks);
    var back := Rollback(leaving, cache);
    if !back {
      return false, false;
    }
    Rollforward(blocks, cache);
    cache.ValidImpliesUnspent();
    cache.SetBestBlock(db.heads[0]);
    ghost var goal := cache.View();
    died := db.BatchWrite(cache.cacheCoins, cache.hashBlock, dies);
    ok := !died;
    if died {
      BetweenUnspent(old(db.coins), goal, db.coins);
      StillBetween(was, old(db.coins), db.coins, leaving, blocks);
    }
  }

  lemma DatedGoal(now: CoinMap, was: CoinMap, leaving: seq<Leaving>, blocks: seq<Block>)
    ensures Goal(was, leaving, blocks).Some? && Between(was, Goal(was, leaving, blocks).value, now)
            && BranchDated(leaving) ==>
      Goal(now, leaving, blocks) == Goal(was, leaving, blocks)
  {
    if Goal(was, leaving, blocks).Some? && Between(was, Goal(was, leaving, blocks).value, now) && BranchDated(leaving) {
      ReplayRestores(was, now, leaving, blocks);
    }
  }

  lemma StillBetween(was: CoinMap, now: CoinMap, later: CoinMap, leaving: seq<Leaving>, blocks: seq<Block>)
    requires Goal(now, leaving, blocks).Some? && Between(now, Goal(now, leaving, blocks).value, later)
    ensures Goal(was, leaving, blocks) == Goal(now, leaving, blocks)
            && Between(was, Goal(was, leaving, blocks).value, now) ==>
      Between(was, Goal(was, leaving, blocks).value, later)
  {
    if Goal(was, leaving, blocks) == Goal(now, leaving, blocks) && Between(was, Goal(was, leaving, blocks).value, now) {
      BetweenAgain(was, Goal(was, leaving, blocks).value, now, later);
    }
  }
}
