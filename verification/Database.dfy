/** The database and its write batch.

    BinaryStorage.db is the committed state; log records every committed state
    in order, so a statement about log is a statement about what a crash can
    leave behind.  BinaryBatch.view is the state its commit would produce. */
module Database {
  import opened Wrappers
  import opened ChainTypes
  import opened Storage
  import opened Orphans

  class BinaryStorage {
    var db: Store
    ghost var log: seq<Store>

    constructor (db: Store)
      ensures this.db == db && log == []
    {
      this.db := db;
      log := [];
    }

    /** Writes the tip directly, outside any batch. */
    method SetChainState(height: nat, hash: Hash)
      modifies this
      ensures db == old(db).(tip := Some(Tip(height, hash)))
      ensures log == old(log) + [db]
    {
      db := db.(tip := Some(Tip(height, hash)));
      log := log + [db];
    }

    /** Deletes a block that can be loaded. */
    method DeleteBlock(hash: Hash) returns (r: Result<(), ChainError>)
      modifies this
      ensures var d := Orphans.DeleteBlock(old(db), hash);
        && (d.Ok? ==> r == Ok(()) && db == d.value && log == old(log) + [db])
        && (d.Err? ==> r == Err(d.error) && db == old(db) && log == old(log))
      ensures r == if hash in old(db).hashToHeight && old(db).GetBlock(hash).Some? then Ok(()) else Err(BlockNotFound)
      ensures r.Ok? ==>
        && db.blocks == old(db).blocks - {hash} && db.hashToHeight == old(db).hashToHeight - {hash}
        && db.heightToHash == old(db).heightToHash - {old(db).hashToHeight[hash]}
        && (forall t :: t in db.txs <==> t in old(db).txs && !Lists(old(db), hash, t))
        && (forall t | t in db.txs :: db.txs[t] == old(db).txs[t])
        && (forall k :: k in db.history <==> k in old(db).history && k.height != old(db).hashToHeight[hash])
        && (forall k | k in db.history :: db.history[k] == old(db).history[k])
        && db.utxos == old(db).utxos && db.tip == old(db).tip && db.supply == old(db).supply
    {
      hide Lists, Store.GetBlock;
      if hash !in db.hashToHeight {
        return Err(BlockNotFound);
      }
      var height := db.hashToHeight[hash];
      var block := db.GetBlock(hash);
      if block.None? {
        return Err(BlockNotFound);
      }
      var txs := db.txs;
      for i := 0 to |block.value.txs|
        invariant txs == db.txs - TxidsUpTo(block.value.txs, i)
      {
        txs := txs - {block.value.txs[i].txid};
      }
      db := db.(blocks := db.blocks - {hash},
                txs := txs,
                hashToHeight := db.hashToHeight - {hash},
                heightToHash := db.heightToHash - {height},
                history := HistoryWithout(db.history, height));
      log := log + [db];
      BlockDeleted(old(db), hash);
      return Ok(());
    }

    /** Cleans up one orphaned block in one durable step. */
    method DeleteOrphanedBlock(hash: Hash, height: nat)
      modifies this
      ensures db == DeleteOrphan(old(db), hash, height) && log == old(log) + [db]
      ensures BlockCleaned(old(db), db, hash, height)
    {
      hide BlockCleaned;
      OrphanCleaned(db, hash, height);
      var txs, utxos, heightToHash := db.txs, db.utxos, db.heightToHash;
      if height in heightToHash && heightToHash[height] == hash {
        heightToHash := heightToHash - {height};
      }
      var block := db.GetBlock(hash);
      if block.Some? {
        for n := 0 to |block.value.txs|
          invariant txs == db.txs - TxidsUpTo(block.value.txs, n)
          invariant utxos == RollBackTxs(db.utxos, block.value.txs, height, n)
        {
          var tx := block.value.txs[n];
          txs := txs - {tx.txid};
          utxos := utxos - Created(tx);
          ghost var pending := utxos;
          for i := 0 to |tx.inputs|
            invariant utxos == RestoreInputs(db.utxos, pending, tx, height, i)
          {
            var op := tx.inputs[i];
            if op != Outpoint(ZERO_HASH, MAX_UINT32) && op in db.utxos && MarkedBy(db.utxos[op], tx.txid, height) {
              utxos := utxos[op := db.utxos[op].(spentHeight := 0, spentBy := ZERO_HASH)];
            }
          }
        }
      }
      db := db.(blocks := db.blocks - {hash},
                txs := txs,
                hashToHeight := db.hashToHeight - {hash},
                heightToHash := heightToHash,
                utxos := utxos,
                history := HistoryWithout(db.history, height));
      log := log + [db];
    }

    /** Removes every block whose hash→height entry lies above maxValidHeight, each
        in a durable step of its own, in the order of the index.  Heights at or below
        it are not touched. */
    method CleanOrphanedBlocks(maxValidHeight: nat) returns (cleaned: nat)
      modifies this
      ensures cleaned == |Above(old(db), maxValidHeight)|
      ensures db == CleanAll(old(db), old(db).hashToHeight, Above(old(db), maxValidHeight))
      ensures log == old(log) + CleanLog(old(db), old(db).hashToHeight, Above(old(db), maxValidHeight))
      ensures cleaned == 0 ==> db == old(db) && log == old(log)
      ensures db.hashToHeight == old(db).hashToHeight - Above(old(db), maxValidHeight)
      ensures forall k | k in old(db).heightToHash && k <= maxValidHeight ::
        k in db.heightToHash && db.heightToHash[k] == old(db).heightToHash[k]
      ensures forall k | k in db.heightToHash :: k in old(db).heightToHash && db.heightToHash[k] == old(db).heightToHash[k]
      ensures db.tip == old(db).tip && db.supply == old(db).supply
      ensures exists loaded ::
        AllCleaned(old(db), db, old(db).hashToHeight, Above(old(db), maxValidHeight), loaded)
      ensures db.blocks == old(db).blocks - Above(old(db), maxValidHeight)
      ensures forall x :: x in db.hashToHeight <==> x in old(db).hashToHeight && old(db).hashToHeight[x] <= maxValidHeight
    {
      hide DeleteOrphan, CleanAll, CleanLog, IsLeast, BlockCleaned, LoadInTurn, Lists;
      var orphans := Above(db, maxValidHeight);
      ghost var all := orphans;
      var heights := db.hashToHeight;
      cleaned := 0;
      while orphans != {}
        invariant orphans <= all && cleaned == |all| - |orphans|
        invariant CleanAll(old(db), heights, all) == CleanAll(db, heights, orphans)
        invariant old(log) + CleanLog(old(db), heights, all) == log + CleanLog(db, heights, orphans)
        decreases orphans
      {
        LeastExists(orphans);
        LeastIn(orphans);
        var hash :| hash in orphans && IsLeast(orphans, hash);
        CleanStep(db, heights, orphans, hash);
        DeleteOrphanedBlock(hash, heights[hash]);
        orphans := orphans - {hash};
        cleaned := cleaned + 1;
      }
      CleanNone(db, heights);
      CleanNone(old(db), heights);
      CleanIndexes(old(db), heights, all, maxValidHeight);
      ghost var loaded := AllCleanedUp(old(db), heights, all);
    }
  }

  class BinaryBatch {
    const storage: BinaryStorage
    var view: Store

    constructor (storage: BinaryStorage)
      ensures this.storage == storage && view == storage.db
    {
      this.storage := storage;
      view := storage.db;
    }

    method StoreBlockIndex(hash: Hash, height: nat)
      modifies this
      ensures view == old(view).(hashToHeight := old(view).hashToHeight[hash := height],
                                 heightToHash := old(view).heightToHash[height := hash])
    {
      view := view.(heightToHash := view.heightToHash[height := hash]);
      view := view.(hashToHeight := view.hashToHeight[hash := height]);
    }

    method StoreBlockWithHeight(block: Block, height: nat)
      modifies this
      ensures view == old(view).(blocks := old(view).blocks[block.hash := CompactBlock(height, block.prev, Txids(block))],
                                 txs := StoreTxs(old(view).txs, block, height, |block.txs|))
    {
      var txids: seq<Hash> := [];
      for i := 0 to |block.txs|
        invariant txids == Txids(block)[..i]
      {
        txids := txids + [block.txs[i].txid];
      }
      assert txids == Txids(block);
      view := view.(blocks := view.blocks[block.hash := CompactBlock(height, block.prev, txids)]);
      ghost var stored := view;
      for i := 0 to |block.txs|
        invariant view == stored.(txs := StoreTxs(old(view).txs, block, height, i))
      {
        view := view.(txs := view.txs[block.txs[i].txid := TxRecord(block.hash, height, i, block.txs[i])]);
      }
    }

    method StoreUTXO(op: Outpoint, output: TxOutput, height: nat, isCoinbase: bool)
      modifies this
      ensures view == old(view).(utxos := old(view).utxos[op := Utxo(output, height, isCoinbase, 0, ZERO_HASH)])
    {
      view := view.(utxos := view.utxos[op := Utxo(output, height, isCoinbase, 0, ZERO_HASH)]);
    }

    /** Marks an output as spent.  The batch never deletes an output it may still
        spend, so an output missing from the view is missing altogether. */
    method MarkUTXOSpent(op: Outpoint, height: nat, txid: Hash) returns (r: Result<Utxo, ChainError>)
      modifies this
      ensures var m := MarkSpent(storage.db.SpendRefs(), old(view).utxos, op, height, txid);
        && (m.Ok? ==> view == old(view).(utxos := m.value) && r == Ok(m.value[op]))
        && (m.Err? ==> view == old(view) && r == Err(m.error))
      ensures op !in old(view).utxos ==> r == Err(UtxoNotFound)
      ensures op in old(view).utxos ==>
        var u, db := old(view).utxos[op], storage.db;
        var again := u.spentHeight != 0 && u.spentHeight == height && u.spentBy == txid;
        var held :=
          && u.spentHeight != 0 && u.spentHeight in db.heightToHash && u.spentBy in db.txs
          && db.txs[u.spentBy].blockHash == db.heightToHash[u.spentHeight];
        if again || !held then r == Ok(u.(spentHeight := height, spentBy := txid))
        else r == Err(if u.spentBy == txid then ForkDuplicateSpend(u.spentHeight) else AlreadySpent)
    {
      if op !in view.utxos {
        return Err(UtxoNotFound);
      }
      var u := view.utxos[op];
      if u.IsSpent() {
        if u.spentHeight == height && u.spentBy == txid {
          return Ok(u);
        }
        var refs := storage.db.SpendRefs();
        var orphanedRef := false;
        if u.spentHeight !in refs.heightToHash || u.spentBy !in refs.txs {
          orphanedRef := true;
        } else if refs.txs[u.spentBy].blockHash != refs.heightToHash[u.spentHeight] {
          orphanedRef := true;
        }
        if orphanedRef {
          u := u.(spentHeight := 0, spentBy := ZERO_HASH);
        } else if u.spentBy == txid && u.spentHeight != height {
          return Err(ForkDuplicateSpend(u.spentHeight));
        } else {
          return Err(AlreadySpent);
        }
      }
      u := u.(spentHeight := height, spentBy := txid);
      view := view.(utxos := view.utxos[op := u]);
      return Ok(u);
    }

    /** Clears the spending marker; an output that is not spent is left alone. */
    method UnspendUTXO(op: Outpoint) returns (r: Result<(), ChainError>)
      modifies this
      ensures r == if op in old(view).utxos then Ok(()) else Err(UtxoNotFound)
      ensures view == if op in old(view).utxos
                      then old(view).(utxos := old(view).utxos[op := old(view).utxos[op].Unspend()])
                      else old(view)
    {
      if op !in view.utxos {
        return Err(UtxoNotFound);
      }
      var u := view.utxos[op];
      if !u.IsSpent() {
        assert view.utxos[op := u] == view.utxos;
        return Ok(());
      }
      u := u.(spentHeight := 0, spentBy := ZERO_HASH);
      view := view.(utxos := view.utxos[op := u]);
      return Ok(());
    }

    method DeleteUTXOWithData(op: Outpoint)
      modifies this
      ensures view == old(view).(utxos := old(view).utxos - {op})
    {
      view := view.(utxos := view.utxos - {op});
    }

    /** Refuses a position that does not fit the index field. */
    method IndexTransactionByAddress(
        scriptHash: nat, txid: Hash, height: nat, ioIdx: nat, value: int, isInput: bool, blockHash: Hash)
      returns (ok: bool)
      modifies this
      ensures ok <==> ioIdx <= INDEX_IO_MASK
      ensures view == if ok
        then old(view).(history := old(view).history[
               KeyFor(scriptHash, height, txid, ioIdx, isInput) := HistoryEntry(isInput, value, blockHash)])
        else old(view)
    {
      if ioIdx > INDEX_IO_MASK {
        return false;
      }
      view := view.(history := view.history[
        KeyFor(scriptHash, height, txid, ioIdx, isInput) := HistoryEntry(isInput, value, blockHash)]);
      return true;
    }

    method StoreMoneySupply(height: nat, supply: int)
      modifies this
      ensures view == old(view).(supply := old(view).supply[height := supply])
    {
      view := view.(supply := view.supply[height := supply]);
    }

    method SetChainState(height: nat, hash: Hash)
      modifies this
      ensures view == old(view).(tip := Some(Tip(height, hash)))
    {
      view := view.(tip := Some(Tip(height, hash)));
    }

    /** Removes a transaction and the history entries of its outputs and inputs.
        Transactions are looked up in the committed database. */
    method DeleteTransaction(txid: Hash, height: nat)
      modifies this
      ensures var index := storage.db.txs;
        view == if txid in index
          then old(view).(txs := old(view).txs - {txid},
                          history := old(view).history - OutputKeys(index[txid].tx, height) - InputKeys(index, index[txid].tx, height))
          else old(view)
    {
      var index := storage.db.txs;
      if txid !in index {
        return;
      }
      view := view.(txs := view.txs - {txid});
      DeleteOutputHistory(index[txid].tx, height);
      DeleteInputHistory(index, index[txid].tx, height);
    }

    method DeleteOutputHistory(tx: Transaction, height: nat)
      modifies this
      ensures view == old(view).(history := old(view).history - OutputKeys(tx, height))
    {
      for i := 0 to |tx.outputs|
        invariant view == old(view).(history := old(view).history - OutputKeysUpTo(tx, height, i))
      {
        OutputKeysStep(tx, height, i);
        var a := AddressOf(tx.outputs[i].script);
        if a.Some? && i <= INDEX_IO_MASK {
          view := view.(history := view.history - {KeyFor(a.value, height, tx.txid, i, false)});
        }
      }
    }

    method DeleteInputHistory(index: TxIndex, tx: Transaction, height: nat)
      modifies this
      ensures view == old(view).(history := old(view).history - InputKeys(index, tx, height))
    {
      if tx.IsCoinbase() {
        return;
      }
      for i := 0 to |tx.inputs|
        invariant view == old(view).(history := old(view).history - InputKeysUpTo(index, tx, height, i))
      {
        InputKeysStep(index, tx, height, i);
        var prev := PrevOutput(index, tx.inputs[i]);
        if prev.Some? {
          var a := AddressOf(prev.value.script);
          if a.Some? && i <= INDEX_IO_MASK {
            view := view.(history := view.history - {KeyFor(a.value, height, tx.txid, i, true)});
          }
        }
      }
    }

    /** Removes the block and both its index entries. */
    method DeleteBlockDisconnect(hash: Hash, height: nat)
      modifies this
      ensures view == old(view).(blocks := old(view).blocks - {hash},
                                 hashToHeight := old(view).hashToHeight - {hash},
                                 heightToHash := old(view).heightToHash - {height})
    {
      view := view.(blocks := view.blocks - {hash});
      view := view.(hashToHeight := view.hashToHeight - {hash});
      view := view.(heightToHash := view.heightToHash - {height});
    }

    /** Makes the batch durable in one step. */
    method Commit()
      modifies storage
      ensures storage.db == view && storage.log == old(storage.log) + [view]
    {
      storage.db := view;
      storage.log := storage.log + [view];
    }
  }

  // ---------------------------------------------------------------- history keys, one position at a time

  lemma OutputKeysStep(tx: Transaction, h: nat, n: nat)
    requires n < |tx.outputs|
    ensures var a := AddressOf(tx.outputs[n].script);
      OutputKeysUpTo(tx, h, n + 1) == OutputKeysUpTo(tx, h, n)
        + if a.Some? && n <= INDEX_IO_MASK then {KeyFor(a.value, h, tx.txid, n, false)} else {}
  {
  }

  lemma InputKeysStep(index: TxIndex, tx: Transaction, h: nat, n: nat)
    requires n < |tx.Spends()|
    ensures var prev := PrevOutput(index, tx.Spends()[n]);
      InputKeysUpTo(index, tx, h, n + 1) == InputKeysUpTo(index, tx, h, n)
        + if prev.Some? && AddressOf(prev.value.script).Some? && n <= INDEX_IO_MASK
          then {KeyFor(AddressOf(prev.value.script).value, h, tx.txid, n, true)} else {}
  {
  }
}
