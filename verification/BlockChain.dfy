/** The chain-state machine: connecting blocks singly and in batches, and
    disconnecting the tip, with the in-memory views kept in step. */
module BlockChains {
  import opened Wrappers
  import opened ChainTypes
  import opened Storage
  import opened Connect
  import Undo
  import opened AddressHistory
  import opened Replay
  import opened Chains
  import opened Batches
  import opened Lines
  import opened Chunks
  import opened Outcomes
  import opened Unwinding
  import opened Ledger
  import opened Totals
  import opened Drifts
  import opened Database
  import opened BlockTree
  import opened Checkpoints

  // ---------------------------------------------------------------- errors stop the folds

  lemma {:induction false} SpendInputsStops(refs: Refs, a: Applied, inputs: seq<Outpoint>, h: nat, txid: Hash, n: nat)
    requires n <= |inputs| && SpendInputs(refs, a, inputs[..n], h, txid).Err?
    ensures SpendInputs(refs, a, inputs, h, txid) == SpendInputs(refs, a, inputs[..n], h, txid)
  {
    if n < |inputs| {
      var front := inputs[..|inputs| - 1];
      assert front[..n] == inputs[..n];
      SpendInputsStops(refs, a, front, h, txid, n);
    } else {
      assert inputs[..n] == inputs;
    }
  }

  lemma {:induction false} ApplyTxsStops(refs: Refs, a: Applied, txs: seq<Transaction>, h: nat, n: nat)
    requires n <= |txs| && ApplyTxs(refs, a, txs[..n], h).Err?
    ensures ApplyTxs(refs, a, txs, h) == ApplyTxs(refs, a, txs[..n], h)
  {
    if n < |txs| {
      var front := txs[..|txs| - 1];
      assert front[..n] == txs[..n];
      ApplyTxsStops(refs, a, front, h, n);
    } else {
      assert txs[..n] == txs;
    }
  }

  lemma NewUtxosNone(u: UtxoSet, tx: Transaction, h: nat)
    ensures u + NewUtxosUpTo(tx, h, 0) == u
  {
  }

  lemma NewUtxoFields(tx: Transaction, i: nat, h: nat)
    requires i < |tx.outputs|
    ensures NewUtxo(tx, i, h) == Utxo(tx.outputs[i], h, tx.IsCoinbase() || tx.IsCoinStake(), 0, ZERO_HASH)
  {
  }

  // ---------------------------------------------------------------- the class

  /** The in-memory views: the tip, the known-blocks cache and the block tree. */
  datatype InMemory = InMemory(
    bestBlock: Option<Block>, bestHeight: nat, bestHash: Hash, knownBlocks: map<Hash, nat>, blockIndex: map<Hash, BlockNode>)

  class BlockChain {
    const storage: BinaryStorage
    const tree: Tree
    const checkpoints: CheckpointManager
    const maxReorgDepth: nat
    const accepts: (Block, nat, bool) -> bool  // consensus validation of a block at a height, alone or in a batch

    var bestBlock: Option<Block>
    var bestHeight: nat
    var bestHash: Hash
    var knownBlocks: map<Hash, nat>
    var orphans: set<Hash>
    var batchHeights: Option<map<Hash, nat>>
    var batchMoneySupply: Option<map<nat, int>>

    ghost var chain: seq<Block>

    ghost function Memory(): InMemory
      reads this`bestBlock, this`bestHeight, this`bestHash, this`knownBlocks, tree`blockIndex
    {
      InMemory(bestBlock, bestHeight, bestHash, knownBlocks, tree.blockIndex)
    }

    /** knownBlocks agrees with a stored index wherever it answers. */
    ghost predicate CacheAgreesWith(s: Store)
      reads this`knownBlocks
    {
      forall x | x in knownBlocks :: x in s.hashToHeight && knownBlocks[x] == s.hashToHeight[x]
    }

    /** The tree knows stored blocks only, at their stored heights. */
    ghost predicate TreeAgreesWith(s: Store)
      reads tree
    {
      && tree.Good()
      && forall x | x in tree.blockIndex ::
           x in s.hashToHeight && tree.blockIndex[x].height == s.hashToHeight[x]
    }

    ghost predicate CacheAgrees()
      reads this`knownBlocks, storage
    {
      CacheAgreesWith(storage.db)
    }

    ghost predicate TreeAgrees()
      reads storage, tree
    {
      TreeAgreesWith(storage.db)
    }

    /** Between operations: the database stands on the chain with its totals recorded,
        the tip in memory is its last block, caches agree, and genesis is pinned by a
        checkpoint. */
    ghost predicate Valid()
      reads this, storage, tree, checkpoints
    {
      && Stands(storage.db, chain) && Recorded(storage.db, chain)
      && bestHeight == |chain| - 1
      && bestHash == chain[|chain| - 1].hash
      && bestBlock == Some(chain[|chain| - 1])
      && CacheAgrees()
      && TreeAgrees()
      && batchHeights.None? && batchMoneySupply.None?
      && 0 in checkpoints.checkpoints && checkpoints.checkpoints[0] == chain[0].hash
    }

    /** The database is what connecting the blocks of the chain one by one leads to. */
    ghost predicate Exact()
      reads this`chain, storage
    {
      Holds(storage.db, chain)
    }

    /** Starts from a database that stands on a chain, with its tip block loaded. */
    constructor (storage: BinaryStorage, tree: Tree, checkpoints: CheckpointManager, maxReorgDepth: nat,
                 accepts: (Block, nat, bool) -> bool, ghost c: seq<Block>)
      requires Stands(storage.db, c) && Recorded(storage.db, c) && tree.blockIndex == map[]
      requires 0 in checkpoints.checkpoints && checkpoints.checkpoints[0] == c[0].hash
      modifies tree
      ensures Valid() && chain == c && this.storage == storage && this.tree == tree
      ensures knownBlocks == storage.db.hashToHeight
    {
      hide Stands, Recorded, WellFormed;
      StandsTip(storage.db, c);
      StandsGetBlock(storage.db, c, |c| - 1);
      var tip := storage.db.tip.value;
      this.storage, this.tree, this.checkpoints := storage, tree, checkpoints;
      this.maxReorgDepth, this.accepts := maxReorgDepth, accepts;
      bestBlock, bestHeight, bestHash := storage.db.GetBlock(tip.hash), tip.height, tip.hash;
      knownBlocks, orphans, batchHeights, batchMoneySupply := map[], {}, None, None;
      chain := c;
      new;
      BuildBlockIndex();
    }

    /** Enters the tip node and fills the known-blocks cache from the stored index. */
    method BuildBlockIndex()
      modifies this`knownBlocks, tree
      ensures knownBlocks == old(knownBlocks) + storage.db.hashToHeight
      ensures bestBlock.Some? ==>
        && bestHash in tree.blockIndex && tree.blockIndex == old(tree.blockIndex)[bestHash := tree.blockIndex[bestHash]]
        && var n := tree.blockIndex[bestHash];
             fresh(n) && n.hash == bestHash && n.height == n.work == bestHeight && n.parent == null && n.status == Connected
      ensures bestBlock.None? ==> tree.blockIndex == old(tree.blockIndex)
      ensures tree.invalidBlocks == old(tree.invalidBlocks)
    {
      if bestBlock.Some? {
        var node := new BlockNode(bestHash, bestHeight, bestHeight, null, Connected);
        tree.blockIndex := tree.blockIndex[bestHash := node];
      }
      var keys, heights := storage.db.hashToHeight.Keys, storage.db.hashToHeight;
      while keys != {}
        invariant keys <= heights.Keys
        invariant knownBlocks == old(knownBlocks) + (heights - keys)
        decreases keys
        modifies this`knownBlocks
      {
        var hash :| hash in keys;
        knownBlocks := knownBlocks[hash := heights[hash]];
        keys := keys - {hash};
      }
    }

    // -------------------------------------------------------------- lookups

    /** Answers as the database would, unless the cache lists a block that is not stored. */
    method HasBlock(hash: Hash) returns (r: bool)
      ensures (r <==> hash in storage.db.blocks) <==> (hash in knownBlocks ==> hash in storage.db.blocks)
      ensures CacheAgrees() && storage.db.hashToHeight.Keys <= storage.db.blocks.Keys ==> (r <==> hash in storage.db.blocks)
      ensures Valid() ==> (r <==> hash in storage.db.blocks)
    {
      if Valid() { StandsTip(storage.db, chain); }
      if hash in knownBlocks {
        return true;
      }
      return hash in storage.db.blocks;
    }

    /** With a cache that agrees, answers as the database would when no batch is open. */
    method GetBlockHeight(hash: Hash) returns (r: Option<nat>)
      ensures hash in knownBlocks ==> r == Some(knownBlocks[hash])
      ensures CacheAgrees() ==>
        r == if hash !in knownBlocks && batchHeights.Some? && hash in batchHeights.value then Some(batchHeights.value[hash])
             else if hash in storage.db.hashToHeight then Some(storage.db.hashToHeight[hash])
             else None
    {
      if hash in knownBlocks {
        return Some(knownBlocks[hash]);
      }
      if batchHeights.Some? && hash in batchHeights.value {
        return Some(batchHeights.value[hash]);
      }
      return if hash in storage.db.hashToHeight then Some(storage.db.hashToHeight[hash]) else None;
    }

    /** The check used while processing: the tree first, then the database. */
    predicate HasStoredBlock(hash: Hash)
      reads this, storage, tree
    {
      hash in tree.blockIndex || hash in storage.db.blocks
    }

    /** Drops cache entries above a height. */
    method CleanKnownBlocksAboveHeight(maxValidHeight: nat)
      modifies this`knownBlocks
      ensures knownBlocks == map x | x in old(knownBlocks) && old(knownBlocks)[x] <= maxValidHeight :: old(knownBlocks)[x]
    {
      var keys := knownBlocks.Keys;
      while keys != {}
        invariant keys <= old(knownBlocks).Keys
        invariant knownBlocks
          == map x | x in old(knownBlocks) && (x in keys || old(knownBlocks)[x] <= maxValidHeight) :: old(knownBlocks)[x]
        decreases keys
      {
        var hash :| hash in keys;
        if knownBlocks[hash] > maxValidHeight {
          knownBlocks := knownBlocks - {hash};
        }
        keys := keys - {hash};
      }
    }

    // -------------------------------------------------------------- applying one block to a batch

    method SpendTxInputs(batch: BinaryBatch, tx: Transaction, height: nat,
                         spent: map<Outpoint, TxOutput>, valueIn: int, ghost valueOut: int)
      returns (r: Result<(map<Outpoint, TxOutput>, int), ChainError>)
      requires batch.storage == storage
      modifies batch
      ensures var p := SpendInputs(storage.db.SpendRefs(), Applied(old(batch.view).utxos, spent, valueIn, valueOut), tx.Spends(), height, tx.txid);
        && (p.Err? ==> r == Err(p.error))
        && (p.Ok? ==>
              && r.Ok? && p.value == Applied(batch.view.utxos, r.value.0, r.value.1, valueOut)
              && batch.view == old(batch.view).(utxos := p.value.utxos))
    {
      var outputs, total := spent, valueIn;
      if !tx.IsCoinbase() {
        ghost var refs, a := storage.db.SpendRefs(), Applied(batch.view.utxos, spent, valueIn, valueOut);
        for i := 0 to |tx.inputs|
          invariant storage.db.SpendRefs() == refs
          invariant batch.view == old(batch.view).(utxos := batch.view.utxos)
          invariant SpendInputs(refs, a, tx.inputs[..i], height, tx.txid)
                 == Ok(Applied(batch.view.utxos, outputs, total, valueOut))
        {
          assert tx.inputs[..i + 1][..i] == tx.inputs[..i];
          var utxo := batch.MarkUTXOSpent(tx.inputs[i], height, tx.txid);
          if utxo.Err? {
            SpendInputsStops(refs, a, tx.inputs, height, tx.txid, i + 1);
            return Err(utxo.error);
          }
          total := total + utxo.value.output.value;
          outputs := outputs[tx.inputs[i] := utxo.value.output];
        }
        assert tx.inputs[..|tx.inputs|] == tx.inputs;
      }
      return Ok((outputs, total));
    }

    method CreateTxOutputs(batch: BinaryBatch, tx: Transaction, height: nat, valueOut: int) returns (total: int)
      modifies batch
      ensures batch.view == old(batch.view).(utxos := old(batch.view).utxos + NewUtxos(tx, height))
      ensures total == valueOut + OutValue(Anyone, tx.outputs)
    {
      hide NewUtxosUpTo, NewUtxo;
      total := valueOut;
      NewUtxosNone(batch.view.utxos, tx, height);
      for i := 0 to |tx.outputs|
        invariant batch.view == old(batch.view).(utxos := old(batch.view).utxos + NewUtxosUpTo(tx, height, i))
        invariant total == valueOut + OutValue(Anyone, tx.outputs[..i])
      {
        assert tx.outputs[..i + 1][..i] == tx.outputs[..i];
        NewUtxosStep(old(batch.view).utxos, tx, height, i + 1);
        NewUtxoFields(tx, i, height);
        var op, isCoinbase := Outpoint(tx.txid, i), tx.IsCoinbase() || tx.IsCoinStake();
        total := total + tx.outputs[i].value;
        batch.StoreUTXO(op, tx.outputs[i], height, isCoinbase);
      }
      assert tx.outputs[..|tx.outputs|] == tx.outputs;
    }

    /** The supply cache of the open batch agrees with the view where it is read. */
    ghost predicate SupplyCacheAgrees(view: Store, height: nat)
      reads this, storage
    {
      height > 0 ==>
        view.GetMoneySupply(height - 1)
          == if batchMoneySupply.Some? && height - 1 in batchMoneySupply.value then batchMoneySupply.value[height - 1]
             else storage.db.GetMoneySupply(height - 1)
    }

    /** Applies the transactions of a block to the UTXO set of the batch. */
    method ApplyBlockTxs(block: Block, height: nat, batch: BinaryBatch) returns (r: Result<Applied, ChainError>)
      requires batch.storage == storage
      modifies batch
      ensures r == ApplyTxs(storage.db.SpendRefs(), StartApply(old(batch.view).utxos), block.txs, height)
      ensures r.Ok? ==> batch.view == old(batch.view).(utxos := r.value.utxos)
    {
      hide SpendInputs, NewUtxos;
      ghost var refs, a := storage.db.SpendRefs(), StartApply(batch.view.utxos);
      var totalValueIn, totalValueOut := 0, 0;
      var spentOutputs: map<Outpoint, TxOutput> := map[];
      for n := 0 to |block.txs|
        modifies batch
        invariant storage.db.SpendRefs() == refs
        invariant batch.view == old(batch.view).(utxos := batch.view.utxos)
        invariant ApplyTxs(refs, a, block.txs[..n], height)
               == Ok(Applied(batch.view.utxos, spentOutputs, totalValueIn, totalValueOut))
      {
        assert block.txs[..n + 1][..n] == block.txs[..n];
        var tx := block.txs[n];
        var s := SpendTxInputs(batch, tx, height, spentOutputs, totalValueIn, totalValueOut);
        if s.Err? {
          ApplyTxsStops(refs, a, block.txs, height, n + 1);
          return Err(s.error);
        }
        spentOutputs, totalValueIn := s.value.0, s.value.1;
        totalValueOut := CreateTxOutputs(batch, tx, height, totalValueOut);
      }
      assert block.txs[..|block.txs|] == block.txs;
      return Ok(Applied(batch.view.utxos, spentOutputs, totalValueIn, totalValueOut));
    }

    /** Applies a block's UTXO changes to the batch, stores the block and its money
        supply, and moves the tip if the block lies above the best height. */
    method ApplyBlockToBatch(block: Block, height: nat, batch: BinaryBatch)
      returns (r: Result<map<Outpoint, TxOutput>, ChainError>)
      requires batch.storage == storage && SupplyCacheAgrees(batch.view, height)
      modifies batch, this`batchMoneySupply
      ensures var a := ApplyTxs(storage.db.SpendRefs(), StartApply(old(batch.view).utxos), block.txs, height);
        && (a.Err? ==> r == Err(a.error))
        && (a.Ok? ==>
              && r == Ok(a.value.spent)
              && batch.view == ConnectBlock(storage.db.SpendRefs(), old(batch.view), block, height, bestHeight).value.(history := old(batch.view).history)
              && height in batch.view.supply
              && batch.view.supply[height]
                 == (if height > 0 && height - 1 in old(batch.view).supply then old(batch.view).supply[height - 1] else 0)
                    + a.value.valueOut - a.value.valueIn
              && batchMoneySupply == match old(batchMoneySupply)
                   case None => None
                   case Some(m) => Some(m[height := batch.view.supply[height]]))
    {
      hide ApplyTxs, StoreTxs, IndexTxs;
      batch.StoreBlockIndex(block.hash, height);
      batch.StoreBlockWithHeight(block, height);
      var applied := ApplyBlockTxs(block, height, batch);
      if applied.Err? {
        return Err(applied.error);
      }
      var prevSupply := 0;
      if height > 0 {
        if batchMoneySupply.Some? && height - 1 in batchMoneySupply.value {
          prevSupply := batchMoneySupply.value[height - 1];
        } else {
          prevSupply := storage.db.GetMoneySupply(height - 1);
        }
      }
      var moneySupply := prevSupply + applied.value.valueOut - applied.value.valueIn;
      if batchMoneySupply.Some? {
        batchMoneySupply := Some(batchMoneySupply.value[height := moneySupply]);
      }
      batch.StoreMoneySupply(height, moneySupply);
      if height > bestHeight {
        batch.SetChainState(height, block.hash);
      }
      return Ok(applied.value.spent);
    }

    // -------------------------------------------------------------- address history

    /** The outputs a transaction spends, in the order of its inputs. */
    method GetSpentOutputsForTx(tx: Transaction, spent: map<Outpoint, TxOutput>) returns (outputs: seq<TxOutput>)
      requires forall i | 0 <= i < |tx.Spends()| :: tx.Spends()[i] in spent
      ensures |outputs| == |tx.Spends()|
      ensures forall i | 0 <= i < |outputs| :: outputs[i] == spent[tx.Spends()[i]]
    {
      outputs := [];
      if tx.IsCoinbase() {
        return;
      }
      assert tx.Spends() == tx.inputs;
      assert forall i | 0 <= i < |tx.inputs| :: tx.Spends()[i] in spent;
      for i := 0 to |tx.inputs|
        invariant |outputs| == i
        invariant forall j | 0 <= j < i :: outputs[j] == spent[tx.inputs[j]]
      {
        outputs := outputs + [spent[tx.inputs[i]]];
      }
    }

    method IndexTransactionAddresses(
        tx: Transaction, height: nat, batch: BinaryBatch, blockHash: Hash, spent: map<Outpoint, TxOutput>)
      requires forall i | 0 <= i < |tx.Spends()| :: tx.Spends()[i] in spent
      modifies batch
      ensures batch.view == old(batch.view).(history := IndexTx(old(batch.view).history, tx, height, blockHash, spent))
    {
      ghost var hist := batch.view.history;
      var outputs := GetSpentOutputsForTx(tx, spent);
      for i := 0 to |outputs|
        invariant batch.view == old(batch.view).(history := IndexInputs(hist, tx, height, blockHash, spent, i))
      {
        var a := AddressOf(outputs[i].script);
        if a.Some? && i <= INDEX_IO_MASK {
          var _ := batch.IndexTransactionByAddress(a.value, tx.txid, height, i, outputs[i].value, true, blockHash);
        }
      }
      ghost var afterInputs := batch.view.history;
      for i := 0 to |tx.outputs|
        invariant batch.view == old(batch.view).(history := IndexOutputs(afterInputs, tx, height, blockHash, i))
      {
        var a := AddressOf(tx.outputs[i].script);
        if a.Some? && i <= INDEX_IO_MASK {
          var _ := batch.IndexTransactionByAddress(a.value, tx.txid, height, i, tx.outputs[i].value, false, blockHash);
        }
      }
    }

    /** Writes exactly the history entries the block calls for: one for each output that
        pays an address, and one for each input that spends such an output. */
    method IndexBlockTransactions(block: Block, height: nat, batch: BinaryBatch, spent: map<Outpoint, TxOutput>)
      requires Covers(spent, block.txs)
      modifies batch
      ensures batch.view == old(batch.view).(history := IndexTxs(old(batch.view).history, block.txs, height, block.hash, spent))
      ensures Undo.DistinctTxids(block.txs) ==>
        Writes(old(batch.view).history, batch.view.history, block.txs, height, block.hash, spent)
    {
      hide IndexTx, Writes;
      ghost var before := batch.view.history;
      for n := 0 to |block.txs|
        invariant Covers(spent, block.txs[..n])
        invariant batch.view == old(batch.view).(history := IndexTxs(old(batch.view).history, block.txs[..n], height, block.hash, spent))
      {
        assert block.txs[..n + 1][..n] == block.txs[..n];
        IndexTransactionAddresses(block.txs[n], height, batch, block.hash, spent);
      }
      assert block.txs[..|block.txs|] == block.txs;
      if Undo.DistinctTxids(block.txs) { BlockWritten(before, block.txs, height, block.hash, spent); }
    }

    // -------------------------------------------------------------- connecting a batch

    /** Structural checks on a batch, before any block is applied. */
    method PreValidateBatch(blocks: seq<Block>) returns (ok: bool)
      ensures ok <==> blocks == [] || ((blocks[0].prev != ZERO_HASH ==> HasStoredBlock(blocks[0].prev)) && Sound(blocks))
    {
      if blocks == [] {
        return true;
      }
      if blocks[0].prev != ZERO_HASH && !HasStoredBlock(blocks[0].prev) {
        return false;
      }
      for i := 1 to |blocks|
        invariant forall j | 0 < j < i :: blocks[j].prev == blocks[j - 1].hash
      {
        if blocks[i].prev != blocks[i - 1].hash {
          return false;
        }
      }
      var seen: set<Hash> := {};
      for i := 0 to |blocks|
        invariant seen == HashesOf(blocks[..i])
        invariant DistinctHashes(blocks[..i])
      {
        assert blocks[..i + 1][..i] == blocks[..i];
        if blocks[i].hash in seen {
          Prefixes(0, EMPTY_STORE, blocks, i + 1);
          return false;
        }
        seen := seen + {blocks[i].hash};
      }
      assert blocks[..|blocks|] == blocks;
      for i := 0 to |blocks|
        invariant forall j | 0 <= j < i :: StartsRight(blocks[j])
      {
        if blocks[i].txs == [] || !(blocks[i].txs[0].IsCoinbase() || blocks[i].txs[0].IsCoinStake()) {
          assert !StartsRight(blocks[i]);
          return false;
        }
      }
      return true;
    }

    /** The state a batch starts from or leads to. */
    ghost function Now(): State
      reads this`bestBlock, this`bestHeight, this`bestHash, this`knownBlocks, storage, tree`blockIndex
    {
      State(storage.db, storage.log, bestBlock, bestHeight, bestHash, knownBlocks, tree.blockIndex.Keys)
    }

    ghost function RulesNow(): Rules
      reads checkpoints
    {
      Rules(checkpoints.checkpoints, checkpoints.badBlocks, accepts)
    }

    /** Height of the first block of a batch, from its stored parent. */
    function CalculateBlockHeight(block: Block): Result<nat, ChainError>
      reads storage
    {
      FirstHeight(storage.db, block)
    }

    /** Checkpoints and consensus validation let the block pass at this height. */
    predicate AcceptedAt(block: Block, height: nat, alone: bool)
      reads checkpoints
    {
      checkpoints.ValidateCheckpoint(height, block.hash) && accepts(block, height, alone)
    }

    /** Every block passes at its height above the tip. */
    ghost predicate Acceptable(blocks: seq<Block>)
      reads this`bestHeight, checkpoints
    {
      forall i | 0 <= i < |blocks| :: AcceptedAt(blocks[i], bestHeight + 1 + i, |blocks| == 1)
    }

    /** What it takes for new blocks to be connected on the tip: they are a sound batch
        on it, every block passes, and every input can be spent. */
    ghost predicate Connectable(blocks: seq<Block>)
      reads this`bestHeight, this`bestHash, checkpoints, storage`db
    {
      && blocks != [] && blocks[0].prev == bestHash && Sound(blocks) && Acceptable(blocks)
      && AppendAll(storage.db.SpendRefs(), storage.db, blocks).Ok?
    }

    /** New blocks that can be connected to a stored block below the tip. */
    ghost predicate Branching(blocks: seq<Block>)
      reads this`bestHeight, this`bestHash, checkpoints, storage`db
    {
      && blocks != [] && blocks[0].prev != bestHash && blocks[0].prev != ZERO_HASH && Sound(blocks)
      && blocks[0].prev in storage.db.hashToHeight
      && Filled(RulesNow(), storage.db, blocks, storage.db.hashToHeight[blocks[0].prev] + 1, bestHeight, |blocks| == 1).Ok?
    }

    /** Checks one block and adds everything it changes to the batch. */
    method AddToBatch(block: Block, height: nat, alone: bool, batch: BinaryBatch) returns (r: Result<(), ChainError>)
      requires batch.storage == storage && SupplyCacheAgrees(batch.view, height)
      requires batchHeights.Some? && batchMoneySupply.Some?
      modifies batch, this`batchHeights, this`batchMoneySupply
      ensures batchHeights == Some(old(batchHeights).value[block.hash := height])
      ensures
        var next :=
          if !RulesNow().Permits(height, block.hash) then Err(CheckpointFailed)
          else if !accepts(block, height, alone) then Err(InvalidBlock)
          else ConnectBlock(storage.db.SpendRefs(), old(batch.view), block, height, bestHeight);
        if next.Err? then r == Err(next.error)
        else
          && r.Ok? && batch.view == next.value
          && batchMoneySupply == Some(old(batchMoneySupply).value[height := batch.view.GetMoneySupply(height)])
    {
      hide ApplyTxs, IndexTxs;
      batchHeights := Some(batchHeights.value[block.hash := height]);
      if !checkpoints.ValidateCheckpoint(height, block.hash) {
        return Err(CheckpointFailed);
      }
      if !accepts(block, height, alone) {
        return Err(InvalidBlock);
      }
      ghost var refs, view := storage.db.SpendRefs(), batch.view;
      var spent := ApplyBlockToBatch(block, height, batch);
      if spent.Err? {
        return Err(spent.error);
      }
      ApplyTxsSpent(refs, StartApply(view.utxos), block.txs, height);
      IndexBlockTransactions(block, height, batch, spent.value);
      return Ok(());
    }

    /** Fills the batch with blocks that follow each other from the parent of the first. */
    method FillBatch(blocks: seq<Block>, batch: BinaryBatch) returns (r: Result<(), ChainError>)
      requires batch.storage == storage && batch.view == storage.db && blocks != []
      requires batchHeights == Some(map[]) && batchMoneySupply == Some(map[])
      modifies batch, this`batchHeights, this`batchMoneySupply
      ensures
        var h := FirstHeight(storage.db, blocks[0]);
        if h.Err? then r == Err(h.error)
        else
          var w := Filled(RulesNow(), storage.db, blocks, h.value, bestHeight, |blocks| == 1);
          if w.Err? then r == Err(w.error)
          else r.Ok? && batch.view == w.value && batchHeights == Some(HeightsFrom(blocks, h.value))
    {
      hide ConnectBlock, Filled, HeightsFrom;
      ghost var rules, s, alone := RulesNow(), storage.db, |blocks| == 1;
      var first := CalculateBlockHeight(blocks[0]);
      if first.Err? {
        return Err(first.error);
      }
      ghost var h := first.value;
      var height := 0;
      FilledNone(rules, s, blocks, h, bestHeight, alone);
      for i := 0 to |blocks|
        modifies batch, this`batchHeights, this`batchMoneySupply
        invariant RulesNow() == rules && batchMoneySupply.Some?
        invariant i > 0 ==> height == h + i - 1
        invariant Filled(rules, s, blocks[..i], h, bestHeight, alone) == Ok(batch.view)
        invariant batchHeights == Some(HeightsFrom(blocks[..i], h))
        invariant if i == 0 then batchMoneySupply == Some(map[])
                  else height in batchMoneySupply.value && batchMoneySupply.value[height] == batch.view.GetMoneySupply(height)
      {
        var block := blocks[i];
        if i == 0 {
          height := first.value;
        } else {
          height := height + 1;
        }
        FilledNext(rules, s, blocks, h, bestHeight, alone, i, batch.view);
        var added := AddToBatch(block, height, |blocks| == 1, batch);
        if added.Err? {
          FilledStops(rules, s, blocks, h, bestHeight, alone, i + 1);
          return added;
        }
      }
      assert blocks[..|blocks|] == blocks;
      return Ok(());
    }

    /** Enters one connected block into the tree and the cache. */
    method NoteConnected(block: Block, height: nat, ghost s: Store)
      modifies this`knownBlocks, tree`blockIndex
      ensures knownBlocks == old(knownBlocks)[block.hash := height]
      ensures tree.blockIndex.Keys == old(tree.blockIndex).Keys + {block.hash}
      ensures old(TreeAgreesWith(s))
        && (block.prev != ZERO_HASH && block.prev in s.hashToHeight ==> s.hashToHeight[block.prev] + 1 == height)
        ==> TreeAgreesWith(s.(hashToHeight := s.hashToHeight[block.hash := height]))
    {
      tree.UpdateBlockIndex(block, height, Connected);
      knownBlocks := knownBlocks[block.hash := height];
    }

    /** Enters all blocks of a committed batch. */
    method NoteAll(blocks: seq<Block>, ghost h: nat, ghost s: Store)
      requires InLine(blocks) && batchHeights == Some(HeightsFrom(blocks, h))
      modifies this`knownBlocks, tree`blockIndex
      ensures knownBlocks == old(knownBlocks) + HeightsFrom(blocks, h)
      ensures tree.blockIndex.Keys == old(tree.blockIndex).Keys + HashesOf(blocks)
      ensures old(TreeAgreesWith(s)) && (blocks != [] ==> FirstHeight(s, blocks[0]) == Ok(h)) ==>
        TreeAgreesWith(s.(hashToHeight := s.hashToHeight + HeightsFrom(blocks, h)))
    {
      hide *;
      HeightsOf(blocks, h);
      ghost var fine := TreeAgreesWith(s) && (blocks != [] ==> FirstHeight(s, blocks[0]) == Ok(h));
      NothingNoted(s, blocks, h, knownBlocks);
      for i := 0 to |blocks|
        modifies this`knownBlocks, tree`blockIndex
        invariant knownBlocks == old(knownBlocks) + HeightsFrom(blocks[..i], h)
        invariant tree.blockIndex.Keys == old(tree.blockIndex).Keys + HashesOf(blocks[..i])
        invariant fine ==> TreeAgreesWith(s.(hashToHeight := s.hashToHeight + HeightsFrom(blocks[..i], h)))
      {
        ghost var t := s.(hashToHeight := s.hashToHeight + HeightsFrom(blocks[..i], h));
        NextNoted(s, blocks, h, i, old(knownBlocks));
        NoteConnected(blocks[i], batchHeights.value[blocks[i].hash], t);
      }
      assert blocks[..|blocks|] == blocks;
    }

    /** Moves the tip in memory, if the last block lies above it. */
    method AdvanceTip(last: Block, lastHeight: nat)
      modifies this`bestBlock, this`bestHeight, this`bestHash
      ensures bestHeight == (if lastHeight > old(bestHeight) then lastHeight else old(bestHeight))
      ensures bestBlock == (if lastHeight > old(bestHeight) then Some(last) else old(bestBlock))
      ensures bestHash == (if lastHeight > old(bestHeight) then last.hash else old(bestHash))
    {
      if lastHeight > bestHeight {
        bestBlock, bestHash, bestHeight := Some(last), last.hash, lastHeight;
      }
    }

    /** Moves the in-memory views after a batch was committed. */
    method AdvanceMemory(blocks: seq<Block>, ghost h: nat, ghost s: Store)
      requires blocks != [] && InLine(blocks) && batchHeights == Some(HeightsFrom(blocks, h))
      requires storage.db.hashToHeight == s.hashToHeight + HeightsFrom(blocks, h)
      modifies this`bestBlock, this`bestHeight, this`bestHash, this`knownBlocks, tree`blockIndex
      ensures
        var last, top := blocks[|blocks| - 1], h + |blocks| - 1;
        && bestHeight == (if top > old(bestHeight) then top else old(bestHeight))
        && bestBlock == (if top > old(bestHeight) then Some(last) else old(bestBlock))
        && bestHash == (if top > old(bestHeight) then last.hash else old(bestHash))
      ensures knownBlocks == old(knownBlocks) + HeightsFrom(blocks, h)
      ensures tree.blockIndex.Keys == old(tree.blockIndex).Keys + HashesOf(blocks)
      ensures old(CacheAgreesWith(s)) ==> CacheAgrees()
      ensures old(TreeAgreesWith(s)) && FirstHeight(s, blocks[0]) == Ok(h) ==> TreeAgrees()
    {
      hide *;
      HeightsOf(blocks, h);
      CacheJoins(s, blocks, h);
      var last := blocks[|blocks| - 1];
      AdvanceTip(last, batchHeights.value[last.hash]);
      NoteAll(blocks, h, s);
      ghost var t := s.(hashToHeight := s.hashToHeight + HeightsFrom(blocks, h));
      SameTree(storage.db, t);
      CacheIs(t, knownBlocks);
      AgreesMeans(storage.db);
    }

    /** Old and new entries of the cache and of the stored index agree alike. */
    lemma CacheJoins(s: Store, blocks: seq<Block>, h: nat)
      ensures CacheAgreesWith(s) ==> AgreesAll(knownBlocks + HeightsFrom(blocks, h), s.hashToHeight + HeightsFrom(blocks, h))
    {
      hide HeightsFrom;
    }

    lemma CacheIs(s: Store, known: map<Hash, nat>)
      requires knownBlocks == known && storage.db.hashToHeight == s.hashToHeight
      ensures CacheAgrees() <==> AgreesAll(known, s.hashToHeight)
    {
    }

    lemma SameTree(s: Store, t: Store)
      requires s.hashToHeight == t.hashToHeight
      ensures TreeAgreesWith(s) <==> TreeAgreesWith(t)
    {
    }

    /** Duplicates are expected at the start of a batch only. */
    method SkipStored(blocks: seq<Block>) returns (added: seq<Block>)
      ensures added == Unknown(Now(), blocks)
      ensures |added| <= |blocks| && added == blocks[|blocks| - |added|..]
      ensures forall i | 0 <= i < |blocks| - |added| ::
        blocks[i].hash in tree.blockIndex || blocks[i].hash in storage.db.blocks
      ensures added != [] ==> added[0].hash !in tree.blockIndex && added[0].hash !in storage.db.blocks
    {
      var skipped := 0;
      while skipped < |blocks| && HasStoredBlock(blocks[skipped].hash)
        invariant 0 <= skipped <= |blocks|
        invariant forall i | 0 <= i < skipped :: HasStoredBlock(blocks[i].hash)
        invariant Unknown(Now(), blocks) == Unknown(Now(), blocks[skipped..])
      {
        UnknownNext(Now(), blocks, skipped);
        skipped := skipped + 1;
      }
      added := blocks[skipped..];
    }

    /** A single block needs a known parent and must land above the tip. */
    method CheckSingle(block: Block) returns (r: Result<(), ChainError>)
      ensures r == SingleCheck(Now(), block)
      ensures Valid() ==> (r.Ok? <==> block.prev == bestHash || block.prev == ZERO_HASH)
      ensures Valid() && r.Err? ==> r.error == (if block.prev in storage.db.blocks then HeightNotAdvancing else ParentNotFound)
    {
      if Valid() { SingleMeans(block); }
      hide Valid;
      if block.prev != ZERO_HASH {
        if !HasStoredBlock(block.prev) {
          return Err(ParentNotFound);
        }
        if block.prev in storage.db.hashToHeight && storage.db.hashToHeight[block.prev] + 1 <= bestHeight {
          return Err(HeightNotAdvancing);
        }
      }
      return Ok(());
    }

    lemma SingleMeans(block: Block)
      requires Valid()
      ensures var r := SingleCheck(Now(), block);
        && (r.Ok? <==> block.prev == bestHash || block.prev == ZERO_HASH)
        && (r.Err? ==> r.error == (if block.prev in storage.db.blocks then HeightNotAdvancing else ParentNotFound))
    {
      hide Stands, Recorded, WellFormed;
      TipHeight(storage.db, chain);
      StoredAreIndexed(storage.db);
      if block.prev in storage.db.hashToHeight && storage.db.hashToHeight[block.prev] >= |chain| - 1 {
        HighestIsTip(storage.db, chain, block.prev);
      }
    }

    /** What is taken for granted about new blocks: if they are in order and their
        parent is stored, their hashes and transaction ids are genuine. */
    ghost predicate Trusted(added: seq<Block>)
      reads storage`db
    {
      added != [] && Sound(added) && added[0].prev in storage.db.hashToHeight ==> Genuine(storage.db, added)
    }

    /** Checks new blocks and fills a batch with them, leaving the batch caches open;
        on failure nothing has changed. */
    method PrepareBatch(added: seq<Block>) returns (r: Result<BinaryBatch, ChainError>)
      requires added != []
      modifies this`batchHeights, this`batchMoneySupply
      ensures
        var p := Prepared(RulesNow(), Now(), added);
        if p.Err? then r == Err(p.error)
        else
          && r.Ok? && fresh(r.value) && r.value.storage == storage && r.value.view == p.value.1
          && batchHeights == Some(HeightsFrom(added, p.value.0))
      ensures r.Err? && old(batchHeights.None? && batchMoneySupply.None?) ==> batchHeights.None? && batchMoneySupply.None?
    {
      hide Filled, HeightsFrom, Sound;
      var sound := PreValidateBatch(added);
      if !sound {
        return Err(PreValidationFailed);
      }
      batchHeights, batchMoneySupply := Some(map[]), Some(map[]);
      var batch := new BinaryBatch(storage);
      var filled := FillBatch(added, batch);
      if filled.Err? {
        batchHeights, batchMoneySupply := None, None;
        return Err(filled.error);
      }
      return Ok(batch);
    }

    /** The state is valid for this chain and is this one. */
    ghost predicate Unmoved(v: State, c: seq<Block>)
      reads this, storage, tree, checkpoints
    {
      Valid() && chain == c && Now() == v
    }

    /** From state v, valid for chain c, these blocks were connected on the tip in one durable
        step.  The database is still what its chain leads to one block at a time exactly if
        no outpoint is spent by two of the blocks. */
    ghost predicate Lengthened(v: State, c: seq<Block>, added: seq<Block>)
      reads this, storage, tree, checkpoints
    {
      && LinkedFrom(v.bestHash, added)
      && AppendAll(v.db.SpendRefs(), v.db, added) == Ok(storage.db) && storage.log == v.log + [storage.db]
      && Valid() && chain == c + added
      && (Holds(v.db, c) ==> (Exact() <==> NoCrossSpend(added)))
      && SameExact(v.db, c, storage.db, chain)
    }

    /** From state v these blocks were connected below the tip: the stored blocks are no single line any more. */
    ghost predicate Branched(v: State, c: seq<Block>, added: seq<Block>)
      reads this, storage, tree, checkpoints
    {
      && chain == c && !OneLine(storage.db) && CacheAgrees() && TreeAgrees()
      && added != [] && added[0].prev != v.bestHash && added[0].prev in v.db.hashToHeight
      && Ok(storage.db) == Filled(RulesNow(), v.db, added, v.db.hashToHeight[added[0].prev] + 1, v.bestHeight, |added| == 1)
    }

    /** Commits a filled batch in one durable step and moves the in-memory views. */
    method FinishBatch(batch: BinaryBatch, added: seq<Block>, ghost h: nat)
      requires batch.storage == storage && added != [] && InLine(added) && FirstHeight(storage.db, added[0]) == Ok(h)
      requires batchHeights == Some(HeightsFrom(added, h))
      requires batch.view.hashToHeight == storage.db.hashToHeight + HeightsFrom(added, h)
      modifies this`bestBlock, this`bestHeight, this`bestHash, this`knownBlocks, this`batchHeights, this`batchMoneySupply
      modifies storage, tree`blockIndex
      ensures Now() == old(Now()).After(added, h, old(batch.view))
      ensures batchHeights.None? && batchMoneySupply.None?
      ensures old(CacheAgrees()) ==> CacheAgrees()
      ensures old(TreeAgrees()) ==> TreeAgrees()
    {
      hide *;
      ghost var v := Now();
      NowIs();
      AgreesMeans(storage.db);
      batch.Commit();
      AdvanceMemory(added, h, v.db);
      batchHeights, batchMoneySupply := None, None;
      NowIs();
      AfterIs(v, added, h, storage.db);
    }

    /** Connects new blocks in one batch and one durable step, or commits nothing. */
    method CommitBatch(added: seq<Block>) returns (r: Result<(), ChainError>)
      requires added != []
      modifies this, storage, tree`blockIndex
      ensures
        var w := Committed(RulesNow(), old(Now()), added);
        if w.Err? then r == Err(w.error) && Now() == old(Now()) else r.Ok? && Now() == w.value
      ensures old(CacheAgrees()) ==> CacheAgrees()
      ensures old(TreeAgrees()) ==> TreeAgrees()
      ensures old(Valid() && Trusted(added) && added[0].hash !in storage.db.blocks) ==>
        && (r.Ok? <==> old(Connectable(added) || Branching(added)))
        && (if r.Err? then Unmoved(old(Now()), old(chain))
            else if added[0].prev == old(bestHash) then Lengthened(old(Now()), old(chain), added)
            else Branched(old(Now()), old(chain), added))
      ensures orphans == old(orphans)
    {
      hide *;
      ghost var v, c, fine := Now(), chain, Valid() && Trusted(added) && added[0].hash !in storage.db.blocks;
      AgreesMeans(storage.db);
      CommittedParts(RulesNow(), v, added);
      NowIs();
      if fine { CommittedMeans(added); ValidParts(); ValidTip(); }
      var batch := PrepareBatch(added);
      if batch.Err? {
        if fine { ValidAgain(); UnmovedIs(v, c); }
        return Err(batch.error);
      }
      ghost var h, w := FirstHeight(v.db, added[0]).value, batch.value.view;
      FinishBatch(batch.value, added, h);
      AfterIs(v, added, h, w);
      NowIs();
      if fine && added[0].prev == v.bestHash {
        chain := chain + added;
        OnTipDone(v, c, added);
      } else if fine {
        BranchedIs(v, c, added);
      }
      return Ok(());
    }

    /** The new blocks are on the tip of a chain the state was valid for. */
    lemma OnTipDone(v: State, c: seq<Block>, added: seq<Block>)
      requires Stands(v.db, c) && Recorded(v.db, c) && added != [] && v.bestHeight == |c| - 1 && v.bestHash == c[|c| - 1].hash
      requires LinkedFrom(v.bestHash, added) && ExtendsAll(v.db.SpendRefs(), v.db, added)
      requires AppendAll(v.db.SpendRefs(), v.db, added) == Ok(storage.db) && Now() == v.After(added, v.bestHeight + 1, storage.db)
      requires chain == c + added && CacheAgrees() && TreeAgrees() && batchHeights.None? && batchMoneySupply.None?
      requires 0 in checkpoints.checkpoints && checkpoints.checkpoints[0] == c[0].hash
      ensures Lengthened(v, c, added)
    {
      hide *;
      NowIs();
      AfterIs(v, added, v.bestHeight + 1, storage.db);
      BatchCommitted(v.db, c, added, storage.db);
      ValidAgain();
      ExactMeans();
      LengthenedIs(v, c, added);
    }

    lemma NowIs()
      ensures Now() == State(storage.db, storage.log, bestBlock, bestHeight, bestHash, knownBlocks, tree.blockIndex.Keys)
    {
    }

    lemma UnmovedIs(v: State, c: seq<Block>)
      requires Valid() && chain == c && Now() == v
      ensures Unmoved(v, c)
    {
      hide Valid, Now;
    }

    lemma LengthenedIs(v: State, c: seq<Block>, added: seq<Block>)
      requires LinkedFrom(v.bestHash, added) && AppendAll(v.db.SpendRefs(), v.db, added) == Ok(storage.db)
      requires storage.log == v.log + [storage.db] && Valid() && chain == c + added
      requires Holds(v.db, c) ==> (Exact() <==> NoCrossSpend(added))
      requires SameExact(v.db, c, storage.db, chain)
      ensures Lengthened(v, c, added)
    {
      hide LinkedFrom, AppendAll, Valid, Holds, Exact, NoCrossSpend, SameExact;
    }

    lemma BranchedIs(v: State, c: seq<Block>, added: seq<Block>)
      requires chain == c && !OneLine(storage.db) && CacheAgrees() && TreeAgrees()
      requires added != [] && added[0].prev != v.bestHash && added[0].prev in v.db.hashToHeight
      requires Ok(storage.db) == Filled(RulesNow(), v.db, added, v.db.hashToHeight[added[0].prev] + 1, v.bestHeight, |added| == 1)
      ensures Branched(v, c, added)
    {
      hide OneLine, CacheAgrees, TreeAgrees, Filled;
    }

    /** In a valid state new blocks are committed exactly if they can be connected on
        the tip or branch off below it. */
    lemma CommittedMeans(added: seq<Block>)
      requires Valid() && Trusted(added) && added != [] && added[0].hash !in storage.db.blocks
      ensures var r := Committed(RulesNow(), Now(), added);
        && (r.Ok? <==> Connectable(added) || Branching(added))
        && (r.Ok? ==> added[0].prev in storage.db.hashToHeight)
        && (r.Ok? && added[0].prev == bestHash ==>
              && LinkedFrom(bestHash, added) && ExtendsAll(storage.db.SpendRefs(), storage.db, added)
              && AppendAll(storage.db.SpendRefs(), storage.db, added) == Ok(r.value.db)
              && FirstHeight(storage.db, added[0]) == Ok(bestHeight + 1))
        && (r.Ok? && added[0].prev != bestHash ==>
              && !OneLine(r.value.db)
              && Ok(r.value.db)
              == Filled(RulesNow(), storage.db, added, storage.db.hashToHeight[added[0].prev] + 1, bestHeight, |added| == 1))
    {
      hide Stands, Recorded, WellFormed, Genuine, Filled, LinkedFrom, ExtendsAll, AppendAll, OneLine, InLine, CacheAgrees, Committed, AcceptedAt;
      ghost var s, rules := storage.db, RulesNow();
      ValidTip();
      TipHeight(s, chain);
      TreeKnows();
      CommittedInLine(rules, Now(), added);
      FilledOnTip(rules, s, added, |added| == 1);
      PassesIs(added);
      if added[0].prev == bestHash && Sound(added) {
        LinesUp(bestHash, added);
        GenuineExtends(s.SpendRefs(), s, added);
      }
    }

    lemma PassesIs(added: seq<Block>)
      ensures Acceptable(added) <==> forall i | 0 <= i < |added| :: RulesNow().Passes(added[i], bestHeight + 1 + i, |added| == 1)
    {
      assert forall b: Block, h: nat, alone: bool :: AcceptedAt(b, h, alone) <==> RulesNow().Passes(b, h, alone);
    }

    /** In a valid state the tree lists stored blocks only. */
    lemma TreeKnows()
      requires Valid()
      ensures Now().indexed <= storage.db.blocks.Keys
      ensures forall blocks :: Unknown(Now(), blocks) == NewPart(storage.db, blocks)
    {
      hide Stands, Recorded, WellFormed, CacheAgrees;
      ValidTip();
      forall blocks ensures Unknown(Now(), blocks) == NewPart(storage.db, blocks) {
        UnknownIsNew(Now(), blocks);
      }
    }

    /** Connects the blocks of one batch that are not stored yet, in one durable step
        or not at all.  In a valid state whose tip they hang on they lengthen its
        chain; a batch of several that hangs on a block below the tip goes in as well
        and breaks the single line; anything else is refused. */
    method ProcessBatchInternal(blocks: seq<Block>) returns (r: Result<(), ChainError>)
      modifies this, storage, tree`blockIndex
      ensures
        var w := Outcome(RulesNow(), orphans, old(Now()), blocks);
        if w.Err? then r == Err(w.error) && Now() == old(Now()) else r.Ok? && Now() == w.value
      ensures old(CacheAgrees()) ==> CacheAgrees()
      ensures old(TreeAgrees()) ==> TreeAgrees()
      ensures old(Valid() && Trusted(NewPart(storage.db, blocks))) ==>
        var added := NewPart(old(storage.db), blocks);
        var waits := blocks == [] || (|added| == 1 && added[0].hash in orphans);
        && (r == Err(AllBlocksExist) <==> blocks != [] && added == [])
        && (r.Ok? <==> waits || old(Connectable(added)) || (|added| > 1 && old(Branching(added))))
        && (if r.Err? || waits then Unmoved(old(Now()), old(chain))
            else if added[0].prev == old(bestHash) then Lengthened(old(Now()), old(chain), added)
            else |added| > 1 && Branched(old(Now()), old(chain), added))
      ensures orphans == old(orphans)
    {
      hide *;
      ghost var v, c, fine := Now(), chain, Valid() && Trusted(NewPart(storage.db, blocks));
      OutcomeIs(RulesNow(), orphans, v, blocks);
      OutcomeKnown(RulesNow(), orphans, v, blocks);
      NowIs();
      if fine { TreeKnows(); UnmovedIs(v, c); NewPartFits(storage.db, blocks); }
      if blocks == [] {
        return Ok(());
      }
      var added := SkipStored(blocks);
      ConnectableOnTip(added);
      if added == [] {
        return Err(AllBlocksExist);
      }
      if |added| == 1 {
        if added[0].hash in orphans {
          return Ok(());
        }
        var single := CheckSingle(added[0]);
        if single.Err? {
          return single;
        }
      }
      r := CommitBatch(added);
    }

    lemma ConnectableOnTip(added: seq<Block>)
      ensures Connectable(added) ==> added != [] && added[0].prev == bestHash
      ensures Branching(added) ==> added != [] && added[0].prev != bestHash && added[0].prev != ZERO_HASH
    {
    }


    lemma ValidParts()
      requires Valid()
      ensures Stands(storage.db, chain) && Recorded(storage.db, chain) && chain != [] && CacheAgrees() && TreeAgrees()
      ensures CacheAgreesWith(storage.db) && TreeAgreesWith(storage.db)
      ensures bestBlock == Some(chain[|chain| - 1])
      ensures batchHeights.None? && batchMoneySupply.None?
      ensures 0 in checkpoints.checkpoints && checkpoints.checkpoints[0] == chain[0].hash
    {
      hide Stands, Recorded, WellFormed, CacheAgreesWith, TreeAgreesWith;
      ValidTip();
    }

    /** Between operations, whatever was connected or rolled back before: the stored
        blocks are a single line ending in the tip, and the stored supply is the total
        of the unspent outputs exactly if the value of all inputs the blocks list is
        the value of the outputs marked as spent; and so, if every transaction fits the
        index field, for received minus sent of every address. */
    lemma ValidMeans()
      requires Valid()
      ensures SingleLine(storage.db, chain)
      ensures SupplyMatches(storage.db) <==> Ins(Anyone, storage.db.txs, chain) == Marked(Anyone, storage.db.utxos)
      ensures AllWithinMask(chain) ==>
        (BalancesMatch(storage.db) <==>
           forall a: nat :: Ins(Address(a), storage.db.txs, chain) == Marked(Address(a), storage.db.utxos))
    {
      hide *;
      ValidParts();
      StandsSingleLine(storage.db, chain);
      RecordedMatches(storage.db, chain);
    }

    /** If besides the database is exactly what its chain leads to and no block lists
        an input twice, the stored supply and all address balances are right. */
    lemma ExactTotals()
      requires Exact() && Countable(chain)
      ensures SupplyMatches(storage.db) && BalancesMatch(storage.db)
    {
      hide *;
      ExactMeans();
      HoldsTotals(storage.db, chain);
    }

    lemma ExactMeans()
      ensures Exact() <==> Holds(storage.db, chain)
    {
    }

    lemma AgreesMeans(s: Store)
      requires storage.db == s
      ensures CacheAgrees() <==> CacheAgreesWith(s)
      ensures TreeAgrees() <==> TreeAgreesWith(s)
    {
    }

    /** After a block left the database, the cache agrees exactly if it did not list the block. */
    lemma LeftInCache(before: Store, hash: Hash)
      requires storage.db.hashToHeight == before.hashToHeight - {hash}
      ensures CacheAgreesWith(before) ==> (CacheAgrees() <==> hash !in knownBlocks)
    {
    }

    lemma MemoryFields()
      ensures Memory() == InMemory(bestBlock, bestHeight, bestHash, knownBlocks, tree.blockIndex)
    {
    }

    lemma ValidAgain()
      requires Stands(storage.db, chain) && Recorded(storage.db, chain) && chain != [] && CacheAgrees() && TreeAgrees()
      requires bestBlock == Some(chain[|chain| - 1]) && bestHeight == |chain| - 1 && bestHash == chain[|chain| - 1].hash
      requires batchHeights.None? && batchMoneySupply.None?
      requires 0 in checkpoints.checkpoints && checkpoints.checkpoints[0] == chain[0].hash
      ensures Valid()
    {
      hide Stands, Recorded, WellFormed, CacheAgreesWith, TreeAgreesWith;
    }

    lemma ValidTip()
      requires Valid()
      ensures WellFormed(storage.db) && storage.db.tip == Some(Tip(bestHeight, bestHash))
      ensures chain != [] && bestHeight == |chain| - 1 && bestHash == chain[|chain| - 1].hash
      ensures bestHash in storage.db.blocks && storage.db.blocks.Keys == storage.db.hashToHeight.Keys
    {
      TipHeight(storage.db, chain);
      StoredAreIndexed(storage.db);
      hide Stands, Recorded, WellFormed, CacheAgrees, TreeAgrees;
    }

    /** Chunk n of a long batch cannot be connected here, or it is the first and stored already. */
    ghost predicate FailsAt(blocks: seq<Block>, added: seq<Block>, parts: seq<seq<Block>>, n: nat)
      reads this`bestHeight, this`bestHash, checkpoints, storage`db
    {
      var lo, hi := Cut(blocks, added, n), Cut(blocks, added, n + 1);
      && |parts| <= n && Bound(blocks, n) < |blocks| && Cut(blocks, added, |parts|) <= lo <= hi <= |added|
      && (if lo == hi then n == 0 else !Connectable(added[lo..hi]))
    }

    /** The first n chunks of a long batch are dealt with: those in parts are
        connected, and the new blocks of later ones wait in the orphan pool. */
    ghost predicate Reached(blocks: seq<Block>, added: seq<Block>, parts: seq<seq<Block>>, n: nat)
      reads this`orphans
    {
      && |parts| <= n && (|parts| == n || Cut(blocks, added, |parts|) < Cut(blocks, added, n))
      && LeftOut(orphans, added, Cut(blocks, added, |parts|), Cut(blocks, added, n))
    }

    lemma ReachedNext(blocks: seq<Block>, added: seq<Block>, parts: seq<seq<Block>>, n: nat, part: seq<Block>)
      requires Reached(blocks, added, parts, n) && |added| <= |blocks|
      ensures var done, lo, hi := Cut(blocks, added, |parts|), Cut(blocks, added, n), Cut(blocks, added, n + 1);
        && |parts| <= n && done <= lo <= hi <= |added| && (|parts| == n || done < lo)
        && (|parts| == n ==> Reached(blocks, added, parts + [part], n + 1))
        && (hi == lo + 1 && added[lo].hash in orphans ==> Reached(blocks, added, parts, n + 1))
    {
      CutBounds(blocks, added, n);
      LeftOutNext(orphans, added, Cut(blocks, added, |parts|), Cut(blocks, added, n), Cut(blocks, added, n + 1));
      hide Cut;
    }

    lemma StoppedAt(blocks: seq<Block>, added: seq<Block>, parts: seq<seq<Block>>, n: nat)
      requires Reached(blocks, added, parts, n) && Bound(blocks, n) < |blocks| && |added| <= |blocks|
      requires var lo, hi := Cut(blocks, added, n), Cut(blocks, added, n + 1);
        lo <= hi <= |added| && if lo == hi then n == 0 else !Connectable(added[lo..hi])
      ensures FailsAt(blocks, added, parts, n)
    {
      hide Cut, Bound;
    }

    /** From state v, valid for chain c, n chunks of a long batch are dealt with, of
        which parts were connected, each in one durable step and nothing else. */
    ghost predicate Along(v: State, c: seq<Block>, blocks: seq<Block>, n: nat, parts: seq<seq<Block>>)
      reads this, storage, tree, checkpoints
    {
      var added := NewPart(v.db, blocks);
      && Valid() && chain == c + Flat(parts) && SameExact(v.db, c, storage.db, chain)
      && Underway(v.db, blocks, added, parts, v.log, storage.db, storage.log) && Reached(blocks, added, parts, n)
      && (if n == 0 then storage.db == v.db else |added| + Bound(blocks, n) >= |blocks| && Cut(blocks, added, 1) != 0)
    }

    /** A state to start from and a batch whose first chunks are good ones. */
    ghost predicate CanStart(v: State, c: seq<Block>, blocks: seq<Block>, good: nat) {
      && c != [] && v.db.tip.Some? && v.db.tip.value.hash == c[|c| - 1].hash
      && GoodChunks(v.db, blocks, NewPart(v.db, blocks), good)
    }

    /** Chunk n of a long batch of which parts are connected. */
    method ProcessChunk(blocks: seq<Block>, i: nat, end: nat, ghost fine: bool, ghost n: nat, ghost good: nat,
                        ghost v: State, ghost c: seq<Block>, ghost parts: seq<seq<Block>>)
      returns (r: Result<(), ChainError>, ghost next: seq<seq<Block>>)
      requires i == Bound(blocks, n) < |blocks| && end == Bound(blocks, n + 1)
      requires fine ==> n <= good && CanStart(v, c, blocks, good) && Along(v, c, blocks, n, parts)
      modifies this, storage, tree`blockIndex
      ensures
        var w := Outcome(RulesNow(), orphans, old(Now()), blocks[i..end]);
        if w.Err? then r == Err(w.error) && Now() == old(Now()) else r.Ok? && Now() == w.value
      ensures orphans == old(orphans)
      ensures old(CacheAgrees()) ==> CacheAgrees()
      ensures old(TreeAgrees()) ==> TreeAgrees()
      ensures fine && r.Ok? ==> Along(v, c, blocks, n + 1, next) && (n == good ==> next == parts && end == |blocks|)
      ensures fine && r.Err? ==> Along(v, c, blocks, n, parts) && next == parts && FailsAt(blocks, NewPart(v.db, blocks), parts, n)
      ensures fine ==> (r == Err(AllBlocksExist) <==> n == 0 && Cut(blocks, NewPart(v.db, blocks), 1) == 0)
    {
      hide *;
      ghost var mid, before, added := Now(), chain, NewPart(v.db, blocks);
      ghost var lo, hi := Cut(blocks, added, n), Cut(blocks, added, n + 1);
      BoundNext(blocks, n);
      NowIs();
      if fine { ChunkTaken(blocks, i, end, n, good, v, c, parts); }
      r := ProcessBatchInternal(blocks[i..end]);
      NowIs();
      next := parts;
      if fine && r.Err? {
        UnmovedParts(mid, before);
        StoppedAt(blocks, added, parts, n);
        AlongAgain(v, c, blocks, n, parts);
      } else if fine && hi == lo + 1 && added[lo].hash in orphans {
        UnmovedParts(mid, before);
        ReachedNext(blocks, added, parts, n, added[lo..hi]);
        AlongAgain(v, c, blocks, n + 1, parts);
      } else if fine {
        LengthenedParts(mid, before, added[lo..hi]);
        ChunkCommitted(v.db, blocks, added, parts, v.log, mid.db, mid.log, n, storage.db);
        ReachedNext(blocks, added, parts, n, added[lo..hi]);
        SameExactTrans(v.db, c, mid.db, before, storage.db, chain);
        next := parts + [added[lo..hi]];
        assert c + Flat(parts) + added[lo..hi] == c + Flat(next);
        AlongAgain(v, c, blocks, n + 1, next);
      }
    }

    lemma UnmovedParts(v: State, c: seq<Block>)
      requires Unmoved(v, c)
      ensures Valid() && chain == c && Now() == v
    {
      hide Valid, Now;
    }

    lemma AlongParts(v: State, c: seq<Block>, blocks: seq<Block>, n: nat, parts: seq<seq<Block>>)
      requires Along(v, c, blocks, n, parts)
      ensures var added := NewPart(v.db, blocks);
        && Valid() && chain == c + Flat(parts) && SameExact(v.db, c, storage.db, chain)
        && Underway(v.db, blocks, added, parts, v.log, storage.db, storage.log) && Reached(blocks, added, parts, n)
        && (if n == 0 then storage.db == v.db else |added| + Bound(blocks, n) >= |blocks| && Cut(blocks, added, 1) != 0)
    {
      hide Valid, SameExact, Underway, Reached, Cut, Bound, Flat, NewPart;
    }

    lemma AlongAgain(v: State, c: seq<Block>, blocks: seq<Block>, n: nat, parts: seq<seq<Block>>)
      requires var added := NewPart(v.db, blocks);
        && Valid() && chain == c + Flat(parts) && SameExact(v.db, c, storage.db, chain)
        && Underway(v.db, blocks, added, parts, v.log, storage.db, storage.log) && Reached(blocks, added, parts, n)
        && (if n == 0 then storage.db == v.db else |added| + Bound(blocks, n) >= |blocks| && Cut(blocks, added, 1) != 0)
      ensures Along(v, c, blocks, n, parts)
    {
      hide Valid, SameExact, Underway, Reached, Cut, Bound, Flat, NewPart;
    }

    /** What chunk n is for the state it finds. */
    lemma ChunkTaken(blocks: seq<Block>, i: nat, end: nat, n: nat, good: nat, v: State, c: seq<Block>, parts: seq<seq<Block>>)
      requires i == Bound(blocks, n) < |blocks| && end == Bound(blocks, n + 1)
      requires n <= good && CanStart(v, c, blocks, good) && Along(v, c, blocks, n, parts)
      ensures var added := NewPart(v.db, blocks);
        && Valid() && chain == c + Flat(parts) && SameExact(v.db, c, storage.db, chain)
        && Underway(v.db, blocks, added, parts, v.log, storage.db, storage.log) && Reached(blocks, added, parts, n)
        && (if n == 0 then storage.db == v.db else |added| + Bound(blocks, n) >= |blocks| && Cut(blocks, added, 1) != 0)
      ensures var added := NewPart(v.db, blocks);
        var done, lo, hi := Cut(blocks, added, |parts|), Cut(blocks, added, n), Cut(blocks, added, n + 1);
        && |added| <= |blocks| && |parts| <= n && done <= lo <= hi <= |added| && (|parts| == n || done < lo)
        && i < end <= |blocks| && NewPart(storage.db, blocks[i..end]) == added[lo..hi] && blocks[i..end] != []
        && Trusted(added[lo..hi]) && !Branching(added[lo..hi])
        && (lo == hi <==> n == 0 && Cut(blocks, added, 1) == 0)
        && (lo < hi ==> |added| + end >= |blocks|)
        && (Connectable(added[lo..hi]) ==> lo == done && lo < hi && added[lo].prev == bestHash)
        && (n == good && lo < hi ==> !Connectable(added[lo..hi]) && (hi == lo + 1 ==> end == |blocks|))
        && Flat(parts) == added[..done] && bestHash in storage.db.blocks && storage.db.tip.Some? && storage.db.tip.value.hash == bestHash
    {
      hide *;
      AlongParts(v, c, blocks, n, parts);
      var s, added := v.db, NewPart(v.db, blocks);
      var done, lo, hi := Cut(blocks, added, |parts|), Cut(blocks, added, n), Cut(blocks, added, n + 1);
      StartParts(v, c, blocks, good);
      UnderwayStart(s, blocks, v.log);
      CutIs(blocks, added, n);
      CutIs(blocks, added, n + 1);
      CutBounds(blocks, added, n);
      GoodChunksMean(s, blocks, added, good, n);
      ReachedNext(blocks, added, parts, n, added[lo..hi]);
      CutGrows(blocks, added, |parts|, good);
      UnderwayParts(s, blocks, added, parts, v.log, storage.db, storage.log, Cut(blocks, added, good));
      ValidTip();
      BoundNext(blocks, n);
      CutBounds(blocks, added, 0);
      ConnectableOnTip(added[lo..hi]);
      if n < good {
        ChunkReady(s, storage.db, blocks, done, i, end, Cut(blocks, added, good));
      } else {
        StrayReady(s, storage.db, blocks, done, i, end, end == |blocks|);
      }
      ChunkTip(c, s.tip.value.hash, added[..done]);
      TrustedChunk(added[lo..hi]);
      assert lo < hi ==> added[lo..hi][0] == added[lo];
    }

    lemma StartParts(v: State, c: seq<Block>, blocks: seq<Block>, good: nat)
      requires CanStart(v, c, blocks, good)
      ensures c != [] && v.db.tip.Some? && v.db.tip.value.hash == c[|c| - 1].hash
      ensures GoodChunks(v.db, blocks, NewPart(v.db, blocks), good)
    {
      hide GoodChunks, NewPart;
    }

    lemma LengthenedParts(v: State, c: seq<Block>, added: seq<Block>)
      requires Lengthened(v, c, added)
      ensures LinkedFrom(v.bestHash, added) && AppendAll(v.db.SpendRefs(), v.db, added) == Ok(storage.db)
      ensures storage.log == v.log + [storage.db] && Valid() && chain == c + added
      ensures Holds(v.db, c) ==> (Exact() <==> NoCrossSpend(added))
      ensures SameExact(v.db, c, storage.db, chain)
    {
      hide LinkedFrom, AppendAll, Valid, Holds, Exact, NoCrossSpend, SameExact;
    }

    /** A chunk that is genuine, out of line, or hangs on an unknown block is one that can be trusted. */
    lemma TrustedChunk(added: seq<Block>)
      requires storage.db.hashToHeight.Keys == storage.db.blocks.Keys && bestHash in storage.db.blocks
      ensures Trusted([]) && !Branching([])
      ensures Genuine(storage.db, added) ==> Trusted(added)
      ensures added != [] && (added[0].prev == bestHash || added[0].prev !in storage.db.blocks) ==> !Branching(added)
      ensures added != [] && (InLine(added) ==> added[0].prev !in storage.db.blocks) ==>
        Trusted(added) && !Connectable(added) && !Branching(added)
    {
      hide Genuine, InLine, Filled, AppendAll;
    }

    /** What a long batch that ended with r leaves, from state v that was valid for chain
        c: parts are the chunks that went in, each in one durable step and nothing else,
        so a chunk that fails changes nothing, and the chain grew by exactly the blocks
        of these chunks.  The database is still what its chain leads to one block at a
        time exactly if no outpoint was spent by two blocks of one chunk.  Only a batch
        whose whole first chunk is stored is refused with the error for known blocks. */
    ghost predicate InChunks(
        v: State, c: seq<Block>, blocks: seq<Block>, parts: seq<seq<Block>>, r: Result<(), ChainError>)
      reads this, storage, tree, checkpoints
    {
      var added := NewPart(v.db, blocks);
      && Valid() && chain == c + Flat(parts) && SameExact(v.db, c, storage.db, chain)
      && Underway(v.db, blocks, added, parts, v.log, storage.db, storage.log)
      && (Holds(v.db, c) ==> (Exact() <==> CleanParts(parts)))
      && (r.Ok? ==> LeftOut(orphans, added, Cut(blocks, added, |parts|), |added|))
      && (r.Err? ==> exists n: nat :: FailsAt(blocks, added, parts, n))
      && (r == Err(AllBlocksExist) <==> blocks != [] && Cut(blocks, added, 1) == 0)
    }

    /** Connects a long batch chunk by chunk, up to the first chunk that is refused. */
    method ProcessInChunks(blocks: seq<Block>, ghost good: nat) returns (r: Result<(), ChainError>, ghost parts: seq<seq<Block>>)
      modifies this, storage, tree`blockIndex
      ensures (Now(), r) == RunChunks(RulesNow(), orphans, old(Now()), blocks, 0)
      ensures orphans == old(orphans)
      ensures old(CacheAgrees()) ==> CacheAgrees()
      ensures old(TreeAgrees()) ==> TreeAgrees()
      ensures old(Valid() && GoodChunks(storage.db, blocks, NewPart(storage.db, blocks), good)) ==>
        |parts| <= good && InChunks(old(Now()), old(chain), blocks, parts, r)
    {
      BoundSteps(blocks);
      hide *;
      ghost var v, c, n := Now(), chain, 0;
      ghost var fine := Valid() && GoodChunks(storage.db, blocks, NewPart(storage.db, blocks), good);
      NowIs();
      if fine { AtStart(v, c, blocks, good); }
      r, parts := Ok(()), [];
      var i := 0;
      while i < |blocks|
        invariant 0 <= i == Bound(blocks, n) <= |blocks| && orphans == old(orphans) && r == Ok(())
        invariant RunChunks(RulesNow(), orphans, v, blocks, 0) == RunChunks(RulesNow(), orphans, Now(), blocks, i)
        invariant old(CacheAgrees()) ==> CacheAgrees()
        invariant old(TreeAgrees()) ==> TreeAgrees()
        invariant fine ==> Along(v, c, blocks, n, parts) && |parts| <= good && (n <= good || i == |blocks|)
        decreases |blocks| - i
      {
        var end := if i + MAX_BATCH_SIZE > |blocks| then |blocks| else i + MAX_BATCH_SIZE;
        ghost var before := Now();
        RunStep(RulesNow(), orphans, before, blocks, i, end);
        r, parts := ProcessChunk(blocks, i, end, fine, n, good, v, c, parts);
        if r.Err? {
          break;
        }
        assert r.value == ();
        if fine { AlongCount(v, c, blocks, n + 1, parts); }
        n, i := n + 1, end;
      }
      RunEnd(RulesNow(), orphans, Now(), blocks);
      if fine { AtEnd(v, c, blocks, good, n, parts, r); }
    }

    lemma AlongCount(v: State, c: seq<Block>, blocks: seq<Block>, n: nat, parts: seq<seq<Block>>)
      requires Along(v, c, blocks, n, parts)
      ensures |parts| <= n
    {
      hide *;
      AlongParts(v, c, blocks, n, parts);
      ReachedParts(blocks, NewPart(v.db, blocks), parts, n);
    }

    lemma ReachedParts(blocks: seq<Block>, added: seq<Block>, parts: seq<seq<Block>>, n: nat)
      requires Reached(blocks, added, parts, n)
      ensures |parts| <= n
    {
    }

    lemma AtStart(v: State, c: seq<Block>, blocks: seq<Block>, good: nat)
      requires Valid() && v == Now() && c == chain && GoodChunks(storage.db, blocks, NewPart(storage.db, blocks), good)
      ensures CanStart(v, c, blocks, good) && Along(v, c, blocks, 0, [])
    {
      hide *;
      NowIs();
      var s, added := storage.db, NewPart(storage.db, blocks);
      ValidTip();
      UnderwayStart(s, blocks, storage.log);
      SameExactStart(s, c);
      ReachedNone(blocks, added);
      assert c + [] == c;
      AlongAgain(v, c, blocks, 0, []);
      StartIs(v, c, blocks, good);
    }

    lemma StartIs(v: State, c: seq<Block>, blocks: seq<Block>, good: nat)
      requires c != [] && v.db.tip.Some? && v.db.tip.value.hash == c[|c| - 1].hash
      requires GoodChunks(v.db, blocks, NewPart(v.db, blocks), good)
      ensures CanStart(v, c, blocks, good)
    {
      hide GoodChunks, NewPart;
    }

    /** The run is over. */
    lemma AtEnd(v: State, c: seq<Block>, blocks: seq<Block>, good: nat, n: nat, parts: seq<seq<Block>>, r: Result<(), ChainError>)
      requires CanStart(v, c, blocks, good) && Along(v, c, blocks, n, parts) && |parts| <= good
      requires r.Ok? ==> Bound(blocks, n) == |blocks|
      requires r.Err? ==> FailsAt(blocks, NewPart(v.db, blocks), parts, n)
      requires r == Err(AllBlocksExist) <==> n == 0 && blocks != [] && Cut(blocks, NewPart(v.db, blocks), 1) == 0
      ensures InChunks(v, c, blocks, parts, r)
    {
      hide *;
      var s, added := v.db, NewPart(v.db, blocks);
      AlongParts(v, c, blocks, n, parts);
      StartParts(v, c, blocks, good);
      UnderwayStart(s, blocks, v.log);
      CutGrows(blocks, added, |parts|, good);
      GoodChunksMean(s, blocks, added, good, good);
      UnderwayParts(s, blocks, added, parts, v.log, storage.db, storage.log, Cut(blocks, added, good));
      UnderwayRun(s, blocks, added, parts, v.log, storage.db, storage.log);
      ExactMeans();
      if Holds(s, c) { HoldsChunksIff(s, c, parts); }
      if r.Ok? { AllReached(blocks, added, parts, n); }
      InChunksIs(v, c, blocks, parts, r);
    }

    lemma InChunksIs(v: State, c: seq<Block>, blocks: seq<Block>, parts: seq<seq<Block>>, r: Result<(), ChainError>)
      requires var added := NewPart(v.db, blocks);
        && Valid() && chain == c + Flat(parts) && SameExact(v.db, c, storage.db, chain)
        && Underway(v.db, blocks, added, parts, v.log, storage.db, storage.log)
        && (Holds(v.db, c) ==> (Exact() <==> CleanParts(parts)))
        && (r.Ok? ==> LeftOut(orphans, added, Cut(blocks, added, |parts|), |added|))
        && (r.Err? ==> exists n: nat :: FailsAt(blocks, added, parts, n))
        && (r == Err(AllBlocksExist) <==> blocks != [] && Cut(blocks, added, 1) == 0)
      ensures InChunks(v, c, blocks, parts, r)
    {
      hide Valid, SameExact, Underway, Holds, Exact, CleanParts, LeftOut, FailsAt, Cut, Flat, NewPart;
    }

    lemma ReachedNone(blocks: seq<Block>, added: seq<Block>)
      requires |added| <= |blocks|
      ensures Reached(blocks, added, [], 0)
    {
    }

    lemma AllReached(blocks: seq<Block>, added: seq<Block>, parts: seq<seq<Block>>, n: nat)
      requires Reached(blocks, added, parts, n) && |added| <= |blocks| == Bound(blocks, n)
      ensures LeftOut(orphans, added, Cut(blocks, added, |parts|), |added|)
    {
    }

    /** The entry point: short batches go through in one step, longer ones in chunks.
        A long batch whose first chunk is stored already is refused as a whole. */
    method ProcessBatchUnifiedLocked(blocks: seq<Block>, ghost good: nat) returns (r: Result<(), ChainError>, ghost parts: seq<seq<Block>>)
      modifies this, storage, tree`blockIndex
      ensures |blocks| > MAX_BATCH_SIZE ==> (Now(), r) == RunChunks(RulesNow(), orphans, old(Now()), blocks, 0)
      ensures |blocks| <= MAX_BATCH_SIZE ==>
        var w := Outcome(RulesNow(), orphans, old(Now()), blocks);
        if w.Err? then r == Err(w.error) && Now() == old(Now()) else r.Ok? && Now() == w.value
      ensures orphans == old(orphans)
      ensures old(CacheAgrees()) ==> CacheAgrees()
      ensures old(TreeAgrees()) ==> TreeAgrees()
      ensures |blocks| > MAX_BATCH_SIZE && old(Valid() && GoodChunks(storage.db, blocks, NewPart(storage.db, blocks), good)) ==>
        InChunks(old(Now()), old(chain), blocks, parts, r)
      ensures |blocks| <= MAX_BATCH_SIZE && old(Valid() && Trusted(NewPart(storage.db, blocks))) ==>
        var added := NewPart(old(storage.db), blocks);
        var waits := blocks == [] || (|added| == 1 && added[0].hash in orphans);
        && (r == Err(AllBlocksExist) <==> blocks != [] && added == [])
        && (r.Ok? <==> waits || old(Connectable(added)) || (|added| > 1 && old(Branching(added))))
        && (if r.Err? || waits then Unmoved(old(Now()), old(chain))
            else if added[0].prev == old(bestHash) then Lengthened(old(Now()), old(chain), added)
            else |added| > 1 && Branched(old(Now()), old(chain), added))
    {
      assert MAX_BATCH_SIZE == 500;
      hide *;
      parts := [];
      if |blocks| > MAX_BATCH_SIZE {
        r, parts := ProcessInChunks(blocks, good);
      } else {
        r := ProcessBatchInternal(blocks);
      }
    }

    // -------------------------------------------------------------- disconnecting a block

    /** Deletes the outputs of one transaction, restores its inputs and removes it
        from the transaction index. */
    method UndoTxInBatch(tx: Transaction, height: nat, batch: BinaryBatch) returns (r: Result<(), ChainError>)
      requires batch.storage == storage
      modifies batch
      ensures var u := UndoTx(storage.db.txs, Undone(old(batch.view).utxos, old(batch.view).txs, old(batch.view).history), tx, height);
        && (u.Err? ==> r == Err(u.error))
        && (u.Ok? ==>
              && r == Ok(())
              && batch.view == old(batch.view).(utxos := u.value.utxos, txs := u.value.txs, history := u.value.history))
    {
      hide OutputKeysUpTo, InputKeysUpTo;
      ghost var view := batch.view;
      CreatedNone(view.utxos, tx);
      for i := 0 to |tx.outputs|
        invariant batch.view == view.(utxos := view.utxos - CreatedUpTo(tx, i))
      {
        CreatedStep(view.utxos, tx, i);
        batch.DeleteUTXOWithData(Outpoint(tx.txid, i));
      }
      ghost var rest := batch.view.utxos;
      if !tx.IsCoinbase() {
        for i := 0 to |tx.inputs|
          invariant UnspendInputs(rest, tx.inputs[..i]) == Ok(batch.view.utxos)
          invariant batch.view == view.(utxos := batch.view.utxos)
        {
          assert tx.inputs[..i + 1][..i] == tx.inputs[..i];
          var unspent := batch.UnspendUTXO(tx.inputs[i]);
          if unspent.Err? {
            UnspendStops(rest, tx.inputs, i + 1);
            return unspent;
          }
        }
        assert tx.inputs[..|tx.inputs|] == tx.inputs;
      }
      batch.DeleteTransaction(tx.txid, height);
      return Ok(());
    }

    /** Undoes the transactions of a block from the last to the first. */
    method UndoBlockTxs(block: Block, height: nat, batch: BinaryBatch) returns (r: Result<(), ChainError>)
      requires batch.storage == storage
      modifies batch
      ensures var u := UndoTxs(storage.db.txs, Undone(old(batch.view).utxos, old(batch.view).txs, old(batch.view).history), block.txs, height);
        && (u.Err? ==> r == Err(u.error))
        && (u.Ok? ==>
              && r == Ok(())
              && batch.view == old(batch.view).(utxos := u.value.utxos, txs := u.value.txs, history := u.value.history))
    {
      hide UndoTx;
      ghost var view := batch.view;
      var i := |block.txs|;
      assert block.txs[..i] == block.txs;
      while i > 0
        invariant 0 <= i <= |block.txs|
        invariant batch.view == view.(utxos := batch.view.utxos, txs := batch.view.txs, history := batch.view.history)
        invariant UndoTxs(storage.db.txs, Undone(view.utxos, view.txs, view.history), block.txs, height)
               == UndoTxs(storage.db.txs, Undone(batch.view.utxos, batch.view.txs, batch.view.history), block.txs[..i], height)
      {
        i := i - 1;
        assert block.txs[..i + 1][..i] == block.txs[..i];
        var undone := UndoTxInBatch(block.txs[i], height, batch);
        if undone.Err? {
          return undone;
        }
      }
      return Ok(());
    }

    /** The durable part of a disconnect: one batch, or nothing. */
    method CommitDisconnect(block: Block) returns (r: Result<nat, ChainError>)
      modifies storage
      ensures var d := Connect.DisconnectBlock(old(storage.db), block);
        && (d.Err? ==> r == Err(d.error) && storage.db == old(storage.db) && storage.log == old(storage.log))
        && (d.Ok? ==>
              && block.hash in old(storage.db).hashToHeight && r == Ok(old(storage.db).hashToHeight[block.hash])
              && storage.db == d.value && storage.log == old(storage.log) + [d.value])
    {
      hide UndoTxs;
      if block.hash !in storage.db.hashToHeight {
        return Err(BlockNotFound);
      }
      var height := storage.db.hashToHeight[block.hash];
      var batch := new BinaryBatch(storage);
      var undone := UndoBlockTxs(block, height, batch);
      if undone.Err? {
        return Err(undone.error);
      }
      batch.DeleteBlockDisconnect(block.hash, height);
      batch.SetChainState(PredHeight(height), block.prev);
      batch.Commit();
      return Ok(height);
    }

    /** Moves the in-memory views back over a block that left the database. */
    method RetreatMemory(block: Block, parentBlock: Option<Block>, height: nat, ghost before: Store)
      modifies this`bestBlock, this`bestHeight, this`bestHash, this`knownBlocks, tree`blockIndex
      ensures Memory() == InMemory(
        parentBlock, PredHeight(height), block.prev, old(knownBlocks) - {block.hash}, old(tree.blockIndex) - {block.hash})
      ensures storage.db.hashToHeight == before.hashToHeight - {block.hash} ==>
        && (old(CacheAgreesWith(before)) ==> CacheAgrees())
        && (old(TreeAgreesWith(before)) ==> TreeAgrees())
    {
      bestBlock, bestHeight, bestHash := parentBlock, PredHeight(height), block.prev;
      tree.Remove(block.hash);
      knownBlocks := knownBlocks - {block.hash};
    }

    /** Disconnects a stored block in one durable step and moves the tip to its
        parent.  The step is committed before the parent is loaded, so a missing
        parent is reported with the database already changed and memory as it was:
        the cache then still lists the block, if it did before. */
    method DisconnectBlock(block: Block) returns (r: Result<(), ChainError>)
      modifies this`bestBlock, this`bestHeight, this`bestHash, this`knownBlocks, this`chain, storage, tree`blockIndex
      ensures var d := Connect.DisconnectBlock(old(storage.db), block);
        && (d.Err? ==>
              && r == Err(d.error) && Memory() == old(Memory()) && chain == old(chain)
              && storage.db == old(storage.db) && storage.log == old(storage.log))
        && (d.Ok? ==>
              && storage.db == d.value && storage.log == old(storage.log) + [d.value]
              && r == if d.value.GetBlock(block.prev).Some? then Ok(()) else Err(BlockNotFound))
      ensures r.Ok? ==>
        && block.hash in old(storage.db).hashToHeight
        && Memory() == InMemory(
             storage.db.GetBlock(block.prev), PredHeight(old(storage.db).hashToHeight[block.hash]), block.prev,
             old(knownBlocks) - {block.hash}, old(tree.blockIndex) - {block.hash})
      ensures r.Ok? ==>
        var h := old(storage.db).hashToHeight[block.hash];
        bestHeight == (if h == 0 then 0xffff_ffff else h - 1) && storage.db.tip == Some(Tip(bestHeight, block.prev))
      ensures r.Err? ==> Memory() == old(Memory()) && chain == old(chain)
      ensures old(CacheAgrees()) ==>
        (CacheAgrees() <==> r.Ok? || storage.db == old(storage.db) || block.hash !in old(knownBlocks))
      ensures r.Ok? && old(TreeAgrees()) ==> TreeAgrees()
      ensures old(Valid()) && |old(chain)| > 1 && block == old(chain)[|old(chain)| - 1] ==>
        && r.Ok? && Valid() && chain == old(chain)[..|old(chain)| - 1]
        && (old(Exact()) ==> Exact())
        && SameExact(old(storage.db), old(chain), storage.db, chain)
        && MatchesKept(old(storage.db), old(chain), storage.db)
    {
      hide *;
      ghost var s, c, tip := storage.db, chain, Valid() && |chain| > 1 && block == chain[|chain| - 1];
      AgreesMeans(s);
      if tip {
        ValidParts();
        ExactMeans();
        ParentAfterDisconnect(s, c);
        SameExactDisconnect(s, c, Connect.DisconnectBlock(s, block).value);
        DisconnectMatches(s, c, Connect.DisconnectBlock(s, block).value);
        if Exact() { HoldsDisconnect(s, c); }
      }
      var height := CommitDisconnect(block);
      if height.Err? {
        AgreesMeans(s);
        return Err(height.error);
      }
      var parentBlock := storage.db.GetBlock(block.prev);
      DisconnectIndex(s, block);
      DisconnectTip(s, block);
      if parentBlock.None? {
        LeftInCache(s, block.hash);
        return Err(BlockNotFound);
      }
      RetreatMemory(block, parentBlock, height.value, s);
      if |chain| > 1 {
        chain := chain[..|chain| - 1];
      }
      MemoryFields();
      if tip {
        ValidAgain();
        ExactMeans();
      }
      return Ok(());
    }
  }


  // ---------------------------------------------------------------- facts used while a batch is filled

  lemma TipHeight(s: Store, c: seq<Block>)
    requires Stands(s, c)
    ensures WellFormed(s) && c != [] && s.tip == Some(Tip(|c| - 1, c[|c| - 1].hash))
    ensures c[0].hash in s.blocks && c[|c| - 1].hash != ZERO_HASH
    ensures c[|c| - 1].hash in s.hashToHeight && s.hashToHeight[c[|c| - 1].hash] == |c| - 1
  {
    StandsTip(s, c);
    StandsGetBlock(s, c, 0);
    StandsGetBlock(s, c, |c| - 1);
    hide Stands;
  }

  lemma StoredAreIndexed(s: Store)
    requires WellFormed(s)
    ensures s.blocks.Keys == s.hashToHeight.Keys
  {
  }

  /** No stored block lies above the tip, and at its height there is only the tip. */
  lemma HighestIsTip(s: Store, c: seq<Block>, x: Hash)
    requires Stands(s, c) && x in s.hashToHeight && s.hashToHeight[x] >= |c| - 1
    ensures x == c[|c| - 1].hash
  {
    TipHeight(s, c);
    hide Stands;
  }

  lemma ChunkTip(c: seq<Block>, h: Hash, added: seq<Block>)
    requires c != [] && h == c[|c| - 1].hash
    ensures LastHash(h, added) == (c + added)[|c + added| - 1].hash
  {
  }

  // ---------------------------------------------------------------- facts used while a block is disconnected

  lemma CreatedNone(u: UtxoSet, tx: Transaction)
    ensures u - CreatedUpTo(tx, 0) == u
  {
  }

  lemma CreatedStep(u: UtxoSet, tx: Transaction, i: nat)
    requires i < |tx.outputs|
    ensures u - CreatedUpTo(tx, i) - {Outpoint(tx.txid, i)} == u - CreatedUpTo(tx, i + 1)
  {
  }

  lemma {:induction false} UnspendStops(u: UtxoSet, inputs: seq<Outpoint>, n: nat)
    requires n <= |inputs| && UnspendInputs(u, inputs[..n]).Err?
    ensures UnspendInputs(u, inputs) == UnspendInputs(u, inputs[..n])
  {
    if n < |inputs| {
      var front := inputs[..|inputs| - 1];
      assert front[..n] == inputs[..n];
      UnspendStops(u, front, n);
    } else {
      assert inputs[..n] == inputs;
    }
  }

  /** Disconnecting the last block leaves its parent stored, as the new tip. */
  lemma ParentAfterDisconnect(s: Store, c: seq<Block>)
    requires Stands(s, c) && Recorded(s, c) && |c| > 1
    ensures var front, d := c[..|c| - 1], Connect.DisconnectBlock(s, c[|c| - 1]);
      && d.Ok? && Stands(d.value, front) && Recorded(d.value, front)
      && d.value.GetBlock(c[|c| - 1].prev) == Some(front[|front| - 1])
      && c[|c| - 1].prev == front[|front| - 1].hash
      && c[|c| - 1].hash in s.hashToHeight && PredHeight(s.hashToHeight[c[|c| - 1].hash]) == |front| - 1
  {
    hide *;
    PredOfNext(|c| - 2);
    StandsDisconnect(s, c);
    RecordedDisconnect(s, c);
    var front, d := c[..|c| - 1], Connect.DisconnectBlock(s, c[|c| - 1]).value;
    StandsGetBlock(d, front, |front| - 1);
    StandsGetBlock(s, c, |c| - 1);
    StandsLinked(s, c, |c| - 1);
  }

  lemma DisconnectIndex(s: Store, b: Block)
    requires Connect.DisconnectBlock(s, b).Ok?
    ensures Connect.DisconnectBlock(s, b).value.hashToHeight == s.hashToHeight - {b.hash}
  {
  }

  /** The tip moves to the parent, one height lower; below height 0 the counter wraps. */
  lemma DisconnectTip(s: Store, b: Block)
    requires Connect.DisconnectBlock(s, b).Ok?
    ensures b.hash in s.hashToHeight
    ensures var h := s.hashToHeight[b.hash];
      && PredHeight(h) == (if h == 0 then 0xffff_ffff else h - 1)
      && Connect.DisconnectBlock(s, b).value.tip == Some(Tip(PredHeight(h), b.prev))
  {
  }

  lemma PredOfNext(h: nat)
    ensures PredHeight(h + 1) == h
  {
  }

  /** What a batch that fills leaves in the database. */
  lemma BatchCommitted(s: Store, c: seq<Block>, added: seq<Block>, v: Store)
    requires Stands(s, c) && Recorded(s, c) && added != [] && LinkedFrom(c[|c| - 1].hash, added)
    requires ExtendsAll(s.SpendRefs(), s, added) && AppendAll(s.SpendRefs(), s, added) == Ok(v)
    ensures Stands(v, c + added) && Recorded(v, c + added)
    ensures Holds(s, c) ==> (Holds(v, c + added) <==> NoCrossSpend(added))
    ensures SameExact(s, c, v, c + added)
  {
    hide SameExact, Stands, Recorded, Holds, WellFormed, ExtendsAll, AppendAll, NoCrossSpend;
    SameExactBatch(s, c, added, v);
    RecordedBatch(s.SpendRefs(), s, c, added);
    StandsBatch(s.SpendRefs(), s, c, added);
    if Holds(s, c) { HoldsBatchIff(s, c, added); }
  }

  lemma {:induction false} HashesHave(blocks: seq<Block>, x: Hash)
    ensures x in HashesOf(blocks) <==> exists i :: 0 <= i < |blocks| && blocks[i].hash == x
  {
    if blocks != [] {
      var front, last := blocks[..|blocks| - 1], blocks[|blocks| - 1];
      HashesHave(front, x);
      assert forall i | 0 <= i < |front| :: front[i] == blocks[i];
      assert last == blocks[|blocks| - 1];
    }
  }

  lemma {:induction false} HashesDiffer(blocks: seq<Block>)
    ensures DistinctHashes(blocks) <==> forall i, j | 0 <= i < j < |blocks| :: blocks[i].hash != blocks[j].hash
  {
    hide HashesOf;
    if blocks != [] {
      var front, last := blocks[..|blocks| - 1], blocks[|blocks| - 1];
      HashesDiffer(front);
      HashesHave(front, last.hash);
      assert forall i | 0 <= i < |front| :: front[i] == blocks[i];
    }
  }

  /** A sound batch, in terms of its blocks. */
  lemma SoundMeans(blocks: seq<Block>)
    ensures Sound(blocks) <==>
      && (forall i | 0 < i < |blocks| :: blocks[i].prev == blocks[i - 1].hash)
      && (forall i, j | 0 <= i < j < |blocks| :: blocks[i].hash != blocks[j].hash)
      && (forall i | 0 <= i < |blocks| :: blocks[i].txs != [] && Minted(blocks[i].txs[0]))
  {
    HashesDiffer(blocks);
    hide DistinctHashes;
    assert forall i | 0 <= i < |blocks| :: StartsRight(blocks[i]) <==> blocks[i].txs != [] && Minted(blocks[i].txs[0]);
  }

  /** One map answers as the other wherever it answers. */
  ghost predicate AgreesAll(m: map<Hash, nat>, n: map<Hash, nat>) {
    forall x | x in m :: x in n && m[x] == n[x]
  }

  lemma NothingNoted(s: Store, blocks: seq<Block>, h: nat, known: map<Hash, nat>)
    ensures HeightsFrom(blocks[..0], h) == map[] && HashesOf(blocks[..0]) == {}
    ensures s.(hashToHeight := s.hashToHeight + HeightsFrom(blocks[..0], h)) == s
    ensures known + HeightsFrom(blocks[..0], h) == known
  {
    assert s.hashToHeight + map[] == s.hashToHeight && known + map[] == known;
  }

  /** The next block of a batch in order hangs on the one before, which is noted by then. */
  lemma NextNoted(s: Store, blocks: seq<Block>, h: nat, i: nat, known: map<Hash, nat>)
    requires i < |blocks| && InLine(blocks)
    ensures var b, m := blocks[i], s.hashToHeight + HeightsFrom(blocks[..i], h);
      && (FirstHeight(s, blocks[0]) == Ok(h) && b.prev != ZERO_HASH && b.prev in m ==> m[b.prev] + 1 == h + i)
      && m[b.hash := h + i] == s.hashToHeight + HeightsFrom(blocks[..i + 1], h)
      && (known + HeightsFrom(blocks[..i], h))[b.hash := h + i] == known + HeightsFrom(blocks[..i + 1], h)
      && HashesOf(blocks[..i + 1]) == HashesOf(blocks[..i]) + {b.hash}
  {
    hide *;
    var front := blocks[..i];
    assert front + [blocks[i]] == blocks[..i + 1];
    HeightsSnoc(front, blocks[i], h);
    JoinUpdate(s.hashToHeight, HeightsFrom(front, h), blocks[i].hash, h + i);
    JoinUpdate(known, HeightsFrom(front, h), blocks[i].hash, h + i);
    ParentNoted(s, blocks, h, i);
  }

  lemma ParentNoted(s: Store, blocks: seq<Block>, h: nat, i: nat)
    requires i < |blocks| && InLine(blocks)
    ensures var b, m := blocks[i], s.hashToHeight + HeightsFrom(blocks[..i], h);
      FirstHeight(s, blocks[0]) == Ok(h) && b.prev != ZERO_HASH && b.prev in m ==> m[b.prev] + 1 == h + i
  {
    var front := blocks[..i];
    Prefixes(0, EMPTY_STORE, blocks, i);
    HeightsFromIs(front, h);
    if i > 0 {
      hide HeightsFrom, HashesOf, DistinctHashes;
      assert front[i - 1] == blocks[i - 1] && blocks[i].prev == front[i - 1].hash;
    }
  }

  lemma LinesUp(h: Hash, blocks: seq<Block>)
    requires blocks != [] && blocks[0].prev == h && InLine(blocks)
    ensures LinkedFrom(h, blocks) && DistinctHashes(blocks)
  {
    hide DistinctHashes;
    LinkFlat(h, blocks);
  }

  lemma {:induction false} NewPartFits(s: Store, blocks: seq<Block>)
    ensures |NewPart(s, blocks)| <= |blocks|
    ensures NewPart(s, blocks) != [] ==> NewPart(s, blocks)[0].hash !in s.blocks
  {
    if blocks != [] { NewPartFits(s, blocks[1..]); }
  }

  lemma BoundNext(blocks: seq<Block>, n: nat)
    requires Bound(blocks, n) < |blocks|
    ensures Bound(blocks, n) < Bound(blocks, n + 1) <= |blocks|
    ensures Bound(blocks, n) == 0 <==> n == 0
  {
  }
}
