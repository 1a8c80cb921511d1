/** Stands(s, c): database s satisfies the stored invariant, is complete, and holds
    the blocks of c at their heights with the last one as its tip.

    Unlike Chains.Holds it does not say that connecting the blocks one by one would
    give this very database, so it is kept by every batch that commits, also by one
    in which two blocks spend the same output. */
module Lines {
  import opened Wrappers
  import opened ChainTypes
  import opened Storage
  import opened Connect
  import opened Undo
  import opened Replay
  import opened Chains
  import opened Batches
  import opened Completeness

  /** Height k loads block k of c, whole. */
  ghost predicate Loads(s: Store, c: seq<Block>) {
    forall k: nat | k < |c| :: s.GetBlockByHeight(k) == Some(c[k])
  }

  ghost predicate Stands(s: Store, c: seq<Block>) {
    && c != [] && s.tip == Some(Tip(|c| - 1, c[|c| - 1].hash))
    && WellFormed(s) && Complete(s) && Loads(s, c)
  }

  // ---------------------------------------------------------------- reading it

  lemma StandsGetBlock(s: Store, c: seq<Block>, k: nat)
    requires Stands(s, c) && k < |c|
    ensures s.GetBlockByHeight(k) == s.GetBlock(c[k].hash) == Some(c[k])
    ensures k in s.heightToHash && s.heightToHash[k] == c[k].hash
    ensures c[k].hash in s.hashToHeight && s.hashToHeight[c[k].hash] == k
  {
    hide Complete, TxsAgree, UtxosAgree, HistoryAgrees;
  }

  /** The stored blocks are a single line. */
  lemma StandsSingleLine(s: Store, c: seq<Block>)
    requires Stands(s, c)
    ensures SingleLine(s, c)
  {
    hide SingleLine, HoldsAt, Complete, TxsAgree, UtxosAgree, HistoryAgrees, OneLine;
    forall k | 0 <= k < |c| ensures HoldsAt(s, c, k) {
      StandsGetBlock(s, c, k);
      BlockAt(s, c, k);
    }
    LineOf(s, c);
  }

  lemma StandsLinked(s: Store, c: seq<Block>, k: nat)
    requires Stands(s, c) && 0 < k < |c|
    ensures c[k].prev == c[k - 1].hash
  {
    hide *;
    StandsSingleLine(s, c);
    LineLink(s, c, k);
  }

  lemma StandsTip(s: Store, c: seq<Block>)
    requires Stands(s, c)
    ensures c != [] && WellFormed(s) && Complete(s) && s.tip == Some(Tip(|c| - 1, c[|c| - 1].hash)) && Height(s) == |c| - 1
  {
  }

  // ---------------------------------------------------------------- connecting

  lemma LoadsAppend(refs: Refs, s: Store, c: seq<Block>, b: Block)
    requires Stands(s, c) && Extends(s, b) && Append(refs, s, b).Ok?
    ensures Loads(Append(refs, s, b).value, c + [b])
  {
    hide Append, Complete, TxsAgree, UtxosAgree, HistoryAgrees, Store.GetBlock;
    var r := Append(refs, s, b).value;
    StandsTip(s, c);
    AppendFields(refs, s, b);
    AppendGetBlock(refs, s, b);
    forall k: nat | k < |c| ensures r.GetBlockByHeight(k) == Some(c[k]) {
      StandsGetBlock(s, c, k);
      AppendKeepsBlock(refs, s, b, c[k].hash);
    }
  }

  lemma StandsAppend(refs: Refs, s: Store, c: seq<Block>, b: Block)
    requires Stands(s, c) && Extends(s, b) && Append(refs, s, b).Ok?
    ensures Stands(Append(refs, s, b).value, c + [b])
  {
    hide Append, Complete, WellFormed, Loads, Extends;
    AppendKeeps(refs, s, b);
    AppendComplete(refs, s, b);
    LoadsAppend(refs, s, c, b);
  }

  /** A batch of new blocks that goes through lengthens the line by its blocks, even
      if two of them spend the same output. */
  lemma {:induction false} StandsBatch(refs: Refs, s: Store, c: seq<Block>, blocks: seq<Block>)
    requires Stands(s, c) && ExtendsAll(refs, s, blocks) && AppendAll(refs, s, blocks).Ok?
    ensures Stands(AppendAll(refs, s, blocks).value, c + blocks)
  {
    hide Append, Extends, Stands;
    if blocks == [] {
      assert c + blocks == c;
    } else {
      var front, b := blocks[..|blocks| - 1], blocks[|blocks| - 1];
      StandsBatch(refs, s, c, front);
      StandsAppend(refs, AppendAll(refs, s, front).value, c + front, b);
      assert c + front + [b] == c + blocks;
    }
  }

  // ---------------------------------------------------------------- replayed chains

  lemma GenesisComplete(g: Block)
    requires GoodGenesis(g) && InitGenesis(g).Ok?
    ensures Complete(InitGenesis(g).value)
  {
    var refs, a0, s := EMPTY_STORE.SpendRefs(), StartApply(EMPTY_STORE.utxos), InitGenesis(g).value;
    assert g.txs[..|g.txs|] == g.txs;
    CoinbasesApply(refs, a0, map[], g, 0, |g.txs|);
    ApplyTxsSpent(refs, a0, g.txs, 0);
    IndexTxsSpec(map[], s.txs, g.txs, 0, g.hash, ApplyTxs(refs, a0, g.txs, 0).value.spent);
    assert Linked(map[], a0.utxos);
    hide Linked, HistoryPlaced, ApplyTxs, StoreTxs, IndexTxs, UndoKeys, UtxosAgree;
    LinkedTxs(refs, a0, map[], g, 0, |g.txs|);
    EmptyHistory();
    HistoryStep(map[], s.history, map[], g, 0);
  }

  lemma EmptyHistory()
    ensures HistoryPlaced(map[], map[])
  {
  }

  lemma {:induction false} ReplayStands(c: seq<Block>)
    requires Replayable(c)
    ensures Stands(Replayed(c), c)
  {
    hide *;
    ReplayStep(c);
    if |c| == 1 {
      GenesisWellFormed(c[0]);
      GenesisComplete(c[0]);
      StandsOne(Replayed(c), c);
    } else {
      var front := c[..|c| - 1];
      ReplayStands(front);
      StandsAppend(Replayed(front).SpendRefs(), Replayed(front), front, c[|c| - 1]);
    }
  }

  lemma StandsOne(s: Store, c: seq<Block>)
    requires |c| == 1 && WellFormed(s) && Complete(s) && s.tip == Some(Tip(0, c[0].hash)) && s.GetBlockByHeight(0) == Some(c[0])
    ensures Stands(s, c)
  {
    hide WellFormed, Complete, Store.GetBlock;
  }

  /** Supply entries play no part. */
  lemma StandsSupply(s: Store, t: Store, c: seq<Block>)
    requires Stands(t, c) && s == t.(supply := s.supply)
    ensures Stands(s, c)
  {
    forall k: nat | k < |c| ensures s.GetBlockByHeight(k) == t.GetBlockByHeight(k) {
      SameBlock(s, t, c[k].hash);
    }
    SameParts(s, t);
    hide WellFormed, Complete, Store.GetBlock;
  }

  lemma SameBlock(s: Store, t: Store, x: Hash)
    requires s == t.(supply := s.supply)
    ensures s.GetBlock(x) == t.GetBlock(x)
  {
    if s.GetBlock(x).Some? {
      assert s.LoadTxs(s.blocks[x].txids) == t.LoadTxs(t.blocks[x].txids);
    }
  }

  lemma SameParts(s: Store, t: Store)
    requires s == t.(supply := s.supply)
    ensures WellFormed(s) <==> WellFormed(t)
    ensures Complete(s) <==> Complete(t)
  {
  }

  /** A store that holds a chain stands on it. */
  lemma HoldsStands(s: Store, c: seq<Block>)
    requires Holds(s, c)
    ensures Stands(s, c)
  {
    ReplayStands(c);
    hide Replayable, ReplayChain, Stands;
    assert s == Replayed(c).(supply := s.supply);
    StandsSupply(s, Replayed(c), c);
  }

  // ---------------------------------------------------------------- disconnecting

  lemma StandsOnTop(s: Store, c: seq<Block>)
    requires Stands(s, c)
    ensures OnTop(s, c[|c| - 1])
  {
    StandsGetBlock(s, c, |c| - 1);
    hide WellFormed, Complete;
  }

  /** A block below the top still loads once the top block is gone. */
  lemma BlockBelowKept(s: Store, d: Store, b: Block, x: Hash)
    requires TxsAgree(s) && AtPlace(s.txs, b, Height(s)) && x in s.blocks && x != b.hash
    requires d.blocks == s.blocks - {b.hash} && d.txs == s.txs - TxidSet(b.txs)
    ensures d.GetBlock(x) == s.GetBlock(x)
  {
    TopTxids(s.txs, b, Height(s));
    hide TxidSet, AtPlace;
    assert TxidsIndexed(s.blocks[x].txids, s.txs, x);
    assert d.LoadTxs(s.blocks[x].txids) == s.LoadTxs(s.blocks[x].txids);
  }

  lemma LoadsDisconnect(s: Store, c: seq<Block>)
    requires Stands(s, c) && |c| > 1 && DisconnectBlock(s, c[|c| - 1]).Ok?
    ensures Loads(DisconnectBlock(s, c[|c| - 1]).value, c[..|c| - 1])
  {
    var b := c[|c| - 1];
    StandsTip(s, c);
    StandsOnTop(s, c);
    DisconnectFields(s, b);
    TopAtPlace(s, b);
    hide DisconnectBlock, Complete, WellFormed, OneLine, TxsAgree, Store.GetBlock, Stands, AtPlace, OnTop, UnspendAll;
    var d := DisconnectBlock(s, b).value;
    forall k: nat | k < |c| - 1 ensures d.GetBlockByHeight(k) == Some(c[..|c| - 1][k]) {
      StandsGetBlock(s, c, k);
      StandsGetBlock(s, c, |c| - 1);
      StandsAgree(s, c);
      BlockBelowKept(s, d, b, c[k].hash);
    }
  }

  lemma StandsAgree(s: Store, c: seq<Block>)
    requires Stands(s, c)
    ensures OneLine(s) && TxsAgree(s) && s.blocks.Keys == s.hashToHeight.Keys
  {
  }

  /** Disconnecting the last block always succeeds, and the line without it stands. */
  lemma StandsDisconnect(s: Store, c: seq<Block>)
    requires Stands(s, c) && |c| > 1
    ensures DisconnectBlock(s, c[|c| - 1]).Ok?
    ensures Stands(DisconnectBlock(s, c[|c| - 1]).value, c[..|c| - 1])
  {
    hide DisconnectBlock, WellFormed, Complete, Loads, OnTop;
    StandsTip(s, c);
    StandsOnTop(s, c);
    StandsLinked(s, c, |c| - 1);
    DisconnectKeeps(s, c[|c| - 1]);
    LoadsDisconnect(s, c);
  }

  // ---------------------------------------------------------------- undoing the last block of a batch

  /** Once the top block is gone, none of its inputs from outside it is marked. */
  lemma InputsCleared(w: Store, c: seq<Block>, op: Outpoint)
    requires Stands(w, c) && |c| > 1
    requires var b := c[|c| - 1]; op in w.utxos && op in InputsOf(b.txs) && op !in CreatedBy(b.txs)
    ensures var d := DisconnectBlock(w, c[|c| - 1]); d.Ok? && op in d.value.utxos && !d.value.utxos[op].IsSpent()
  {
    var b := c[|c| - 1];
    StandsTip(w, c);
    StandsOnTop(w, c);
    StandsAgree(w, c);
    CompleteLinked(w);
    hide DisconnectBlock, Complete, WellFormed, OneLine, TxsAgree, Stands, OnTop, Linked;
    DisconnectFields(w, b);
  }

  lemma CompleteLinked(s: Store)
    requires Complete(s)
    ensures Linked(s.txs, s.utxos)
  {
  }

  lemma CreatedOutside(v: Store, b: Block, op: Outpoint)
    requires WellFormed(v) && Extends(v, b) && op in v.utxos
    ensures op !in CreatedBy(b.txs)
  {
    CreatedFresh(v, b);
  }

  /** Disconnecting the last block of a committed batch restores the state before
      that block, apart from the supply entry, exactly if the block spends nothing
      that earlier blocks of the batch spent.  Otherwise it frees an output that one
      of them spent. */
  lemma BatchUndoneIff(s: Store, c: seq<Block>, front: seq<Block>, b: Block, v: Store, w: Store)
    requires Stands(s, c) && ExtendsAll(s.SpendRefs(), s, front) && AppendAll(s.SpendRefs(), s, front) == Ok(v)
    requires Extends(v, b) && Append(s.SpendRefs(), v, b) == Ok(w)
    ensures DisconnectBlock(w, b).Ok?
    ensures DisconnectBlock(w, b).value == v.(supply := w.supply) <==> InputsOf(b.txs) !! SpentBy(front)
    ensures forall op | op in InputsOf(b.txs) && op in SpentBy(front) ::
      && op in v.utxos && v.utxos[op].IsSpent()
      && op in DisconnectBlock(w, b).value.utxos && !DisconnectBlock(w, b).value.utxos[op].IsSpent()
  {
    hide *;
    StandsTip(s, c);
    StandsBatch(s.SpendRefs(), s, c, front);
    StandsTip(v, c + front);
    StandsAppend(s.SpendRefs(), v, c + front, b);
    var d := c + front + [b];
    assert d[|d| - 1] == b && |d| > 1;
    StandsDisconnect(w, d);
    BatchIsSequential(s, front);
    forall op | op in InputsOf(b.txs) && op in SpentBy(front)
      ensures op in v.utxos && v.utxos[op].IsSpent()
      ensures op in DisconnectBlock(w, b).value.utxos && !DisconnectBlock(w, b).value.utxos[op].IsSpent()
    {
      ViewMarked(s, v, front);
      SpentStays(s.SpendRefs(), v, b, op);
      CreatedOutside(v, b, op);
      InputsCleared(w, d, op);
    }
    if InputsOf(b.txs) !! SpentBy(front) {
      BatchedThenAlone(s, v, front, b);
      StepAgrees(s, v, front, b);
      DisconnectUndoesAppend(v, b);
    }
  }
}
