/** Removing a block outside the normal disconnect path: the cleanup of blocks
    left above a rollback target, and plain block deletion. */
module Orphans {
  import opened Wrappers
  import opened ChainTypes
  import opened Storage

  /** A spending marker set by this transaction at this height. */
  predicate MarkedBy(u: Utxo, txid: Hash, h: nat) {
    u.IsSpent() && u.spentBy == txid && u.spentHeight == h
  }

  /** Pending UTXO writes after the first n inputs of tx are rolled back.  Outputs
      are read from the committed set, not from the pending writes. */
  function RestoreInputs(committed: UtxoSet, pending: UtxoSet, tx: Transaction, h: nat, n: nat): UtxoSet
    requires n <= |tx.inputs|
  {
    if n == 0 then pending
    else
      var v, op := RestoreInputs(committed, pending, tx, h, n - 1), tx.inputs[n - 1];
      if op != Outpoint(ZERO_HASH, MAX_UINT32) && op in committed && MarkedBy(committed[op], tx.txid, h) then
        v[op := committed[op].Unspend()]
      else v
  }

  /** Pending UTXO writes after the first n transactions are rolled back, first to last. */
  function RollBackTxs(committed: UtxoSet, txs: seq<Transaction>, h: nat, n: nat): UtxoSet
    requires n <= |txs|
  {
    if n == 0 then committed
    else
      var tx := txs[n - 1];
      RestoreInputs(committed, RollBackTxs(committed, txs, h, n - 1) - Created(tx), tx, h, |tx.inputs|)
  }

  function TxidsUpTo(txs: seq<Transaction>, n: nat): set<Hash>
    requires n <= |txs|
  {
    set i | 0 <= i < n :: txs[i].txid
  }

  function HistoryWithout(hist: History, h: nat): History {
    map k | k in hist && k.height != h :: hist[k]
  }

  /** The store after one orphaned block is cleaned up.  height→hash is only
      removed if it points to this block. */
  function DeleteOrphan(s: Store, hash: Hash, h: nat): Store {
    var heightToHash := if h in s.heightToHash && s.heightToHash[h] == hash then s.heightToHash - {h} else s.heightToHash;
    var block := s.GetBlock(hash);
    s.(blocks := s.blocks - {hash},
       txs := if block.Some? then s.txs - TxidsUpTo(block.value.txs, |block.value.txs|) else s.txs,
       hashToHeight := s.hashToHeight - {hash},
       heightToHash := heightToHash,
       utxos := if block.Some? then RollBackTxs(s.utxos, block.value.txs, h, |block.value.txs|) else s.utxos,
       history := HistoryWithout(s.history, h))
  }

  /** Plain deletion: UTXOs are left alone, both index entries go. */
  function DeleteBlock(s: Store, hash: Hash): Result<Store, ChainError> {
    if hash !in s.hashToHeight || s.GetBlock(hash).None? then Err(BlockNotFound)
    else
      var h, txs := s.hashToHeight[hash], s.GetBlock(hash).value.txs;
      Ok(s.(blocks := s.blocks - {hash},
            txs := s.txs - TxidsUpTo(txs, |txs|),
            hashToHeight := s.hashToHeight - {hash},
            heightToHash := s.heightToHash - {h},
            history := HistoryWithout(s.history, h)))
  }

  /** Hash entries of s above height h. */
  function Above(s: Store, h: nat): set<Hash> {
    set x | x in s.hashToHeight && s.hashToHeight[x] > h
  }

  // ---------------------------------------------------------------- cleaning up several orphans

  /** m is the first of these keys. */
  predicate IsLeast(hashes: set<Hash>, m: Hash) {
    m in hashes && forall x | x in hashes :: m <= x
  }

  lemma {:induction false} LeastExists(hashes: set<Hash>)
    requires hashes != {}
    ensures exists m :: IsLeast(hashes, m)
  {
    var y :| y in hashes;
    var rest := hashes - {y};
    assert hashes == rest + {y};
    if rest == {} {
      assert IsLeast(hashes, y);
    } else {
      LeastExists(rest);
      var m :| IsLeast(rest, m);
      assert IsLeast(hashes, if y <= m then y else m);
    }
  }

  lemma LeastIn(hashes: set<Hash>)
    ensures forall m | IsLeast(hashes, m) :: m in hashes
  {
  }

  /** The next key of the hash index. */
  ghost function Least(hashes: set<Hash>): (m: Hash)
    requires hashes != {}
    ensures IsLeast(hashes, m)
  {
    LeastExists(hashes);
    var m :| IsLeast(hashes, m);
    m
  }

  /** The store after these orphans are cleaned up one by one in the order of their
      keys, each at the height it was entered at before. */
  ghost function CleanAll(s: Store, heights: map<Hash, nat>, orphans: set<Hash>): Store
    requires orphans <= heights.Keys
    decreases orphans
  {
    if orphans == {} then s
    else
      var m := Least(orphans);
      CleanAll(DeleteOrphan(s, m, heights[m]), heights, orphans - {m})
  }

  /** The states on the way. */
  ghost function CleanLog(s: Store, heights: map<Hash, nat>, orphans: set<Hash>): seq<Store>
    requires orphans <= heights.Keys
    decreases orphans
  {
    if orphans == {} then []
    else
      var m := Least(orphans);
      var v := DeleteOrphan(s, m, heights[m]);
      [v] + CleanLog(v, heights, orphans - {m})
  }

  lemma CleanNone(s: Store, heights: map<Hash, nat>)
    ensures CleanAll(s, heights, {}) == s && CleanLog(s, heights, {}) == []
  {
  }

  lemma CleanStep(s: Store, heights: map<Hash, nat>, orphans: set<Hash>, m: Hash)
    requires orphans <= heights.Keys && IsLeast(orphans, m)
    ensures var v := DeleteOrphan(s, m, heights[m]);
      && CleanAll(s, heights, orphans) == CleanAll(v, heights, orphans - {m})
      && CleanLog(s, heights, orphans) == [v] + CleanLog(v, heights, orphans - {m})
  {
    assert Least(orphans) == m;
    hide DeleteOrphan;
  }

  /** What cleaning up one orphan does to the indexes. */
  lemma OrphanIndexes(s: Store, hash: Hash, h: nat)
    ensures var v := DeleteOrphan(s, hash, h);
      && v.hashToHeight == s.hashToHeight - {hash} && v.tip == s.tip && v.supply == s.supply
      && (forall k | k in v.heightToHash :: k in s.heightToHash && v.heightToHash[k] == s.heightToHash[k])
      && (forall k | k in s.heightToHash && k != h :: k in v.heightToHash)
  {
    hide RollBackTxs, HistoryWithout, Store.GetBlock;
  }

  /** And what cleaning up several does, if all were entered above height h. */
  lemma {:induction false} CleanIndexes(s: Store, heights: map<Hash, nat>, orphans: set<Hash>, h: nat)
    requires orphans <= heights.Keys && forall x | x in orphans :: heights[x] > h
    ensures var v := CleanAll(s, heights, orphans);
      && v.hashToHeight == s.hashToHeight - orphans && v.tip == s.tip && v.supply == s.supply
      && (forall k | k in v.heightToHash :: k in s.heightToHash && v.heightToHash[k] == s.heightToHash[k])
      && (forall k | k in s.heightToHash && k <= h :: k in v.heightToHash)
    decreases orphans
  {
    hide DeleteOrphan;
    if orphans != {} {
      var m := Least(orphans);
      OrphanIndexes(s, m, heights[m]);
      CleanIndexes(DeleteOrphan(s, m, heights[m]), heights, orphans - {m}, h);
      assert s.hashToHeight - {m} - (orphans - {m}) == s.hashToHeight - orphans;
    }
  }

  // ---------------------------------------------------------------- what a cleanup leaves

  /** This transaction has an output at this outpoint. */
  predicate Makes(tx: Transaction, op: Outpoint) {
    op.hash == tx.txid && op.index < |tx.outputs|
  }

  /** The committed marker of this output was set by this transaction at this height. */
  predicate Frees(u: UtxoSet, tx: Transaction, h: nat, op: Outpoint) {
    && op in tx.inputs && op != Outpoint(0, 0xffff_ffff)
    && op in u && u[op].spentHeight == h != 0 && u[op].spentBy == tx.txid
  }

  /** Transaction j frees the output, and no later one is its creator. */
  ghost predicate FreedFor(u: UtxoSet, txs: seq<Transaction>, h: nat, op: Outpoint, j: nat) {
    j < |txs| && Frees(u, txs[j], h, op) && forall k | j < k < |txs| :: !Makes(txs[k], op)
  }

  /** The UTXO set after a list of transactions is rolled back: what they made is gone,
      except outputs that one of them spent at or after the place where they were
      made, and what they spent is unspent; nothing else changes. */
  ghost predicate RolledBack(u: UtxoSet, v: UtxoSet, txs: seq<Transaction>, h: nat) {
    forall op ::
      && (op in v <==> op in u && ((forall k | 0 <= k < |txs| :: !Makes(txs[k], op)) || exists j: nat :: FreedFor(u, txs, h, op, j)))
      && (op in v ==> v[op] == if exists j: nat :: FreedFor(u, txs, h, op, j) then u[op].(spentHeight := 0, spentBy := 0) else u[op])
  }

  lemma {:induction false} InputsRestored(u: UtxoSet, pending: UtxoSet, tx: Transaction, h: nat, n: nat)
    requires n <= |tx.inputs|
    ensures var v := RestoreInputs(u, pending, tx, h, n);
      forall op ::
        if Frees(u, tx, h, op) && op in tx.inputs[..n] then op in v && v[op] == u[op].(spentHeight := 0, spentBy := 0)
        else (op in v <==> op in pending) && (op in v ==> v[op] == pending[op])
  {
    if n > 0 {
      InputsRestored(u, pending, tx, h, n - 1);
      assert tx.inputs[..n] == tx.inputs[..n - 1] + [tx.inputs[n - 1]];
    }
  }

  lemma FreedSnoc(u: UtxoSet, front: seq<Transaction>, last: Transaction, h: nat, op: Outpoint)
    ensures (exists j: nat :: FreedFor(u, front + [last], h, op, j))
       <==> Frees(u, last, h, op) || (!Makes(last, op) && exists j: nat :: FreedFor(u, front, h, op, j))
    ensures (forall k | 0 <= k < |front + [last]| :: !Makes((front + [last])[k], op))
       <==> !Makes(last, op) && forall k | 0 <= k < |front| :: !Makes(front[k], op)
  {
    var txs := front + [last];
    hide Frees, Makes;
    if Frees(u, last, h, op) { assert FreedFor(u, txs, h, op, |front|); }
    if !Makes(last, op) && exists j: nat :: FreedFor(u, front, h, op, j) {
      var j: nat :| FreedFor(u, front, h, op, j);
      assert FreedFor(u, txs, h, op, j);
    }
    if exists j: nat :: FreedFor(u, txs, h, op, j) {
      var j: nat :| FreedFor(u, txs, h, op, j);
      if j < |front| {
        assert !Makes(txs[|front|], op);
        forall k | j < k < |front| ensures !Makes(front[k], op) { assert !Makes(txs[k], op); }
        assert FreedFor(u, front, h, op, j);
      }
    }
    if forall k | 0 <= k < |txs| :: !Makes(txs[k], op) {
      assert !Makes(txs[|front|], op);
      forall k | 0 <= k < |front| ensures !Makes(front[k], op) { assert !Makes(txs[k], op); }
    }
  }

  lemma RollBackStep(u: UtxoSet, v: UtxoSet, w: UtxoSet, front: seq<Transaction>, last: Transaction, h: nat)
    requires RolledBack(u, v, front, h) && w == RestoreInputs(u, v - Created(last), last, h, |last.inputs|)
    ensures RolledBack(u, w, front + [last], h)
  {
    InputsRestored(u, v - Created(last), last, h, |last.inputs|);
    assert last.inputs[..|last.inputs|] == last.inputs;
    assert forall op :: op in Created(last) <==> Makes(last, op);
    hide FreedFor, Makes, RestoreInputs, Created;
    forall op ensures
      && (op in w <==> op in u && ((forall k | 0 <= k < |front + [last]| :: !Makes((front + [last])[k], op))
                                   || exists j: nat :: FreedFor(u, front + [last], h, op, j)))
      && (op in w ==> w[op] == if exists j: nat :: FreedFor(u, front + [last], h, op, j) then u[op].(spentHeight := 0, spentBy := 0) else u[op])
    {
      FreedSnoc(u, front, last, h, op);
    }
  }

  lemma {:induction false} RollBackMeans(u: UtxoSet, txs: seq<Transaction>, h: nat, n: nat)
    requires n <= |txs|
    ensures RolledBack(u, RollBackTxs(u, txs, h, n), txs[..n], h)
  {
    hide RolledBack, RestoreInputs, Created;
    if n == 0 {
      NothingRolledBack(u, h);
    } else {
      RollBackMeans(u, txs, h, n - 1);
      RollBackStep(u, RollBackTxs(u, txs, h, n - 1), RollBackTxs(u, txs, h, n), txs[..n - 1], txs[n - 1], h);
      assert txs[..n - 1] + [txs[n - 1]] == txs[..n];
    }
  }

  lemma NothingRolledBack(u: UtxoSet, h: nat)
    ensures RolledBack(u, u, [], h)
  {
  }

  /** The block loads, and one of its transactions has this id. */
  ghost predicate Lists(s: Store, hash: Hash, t: Hash) {
    s.GetBlock(hash).Some? && exists i | 0 <= i < |s.GetBlock(hash).value.txs| :: s.GetBlock(hash).value.txs[i].txid == t
  }

  /** v is s without this block, entered at height h: its transactions are gone if it
      loads, its height entry if that names it, and the history of the height. */
  ghost predicate BlockCleaned(s: Store, v: Store, hash: Hash, h: nat) {
    && v.blocks == s.blocks - {hash} && v.hashToHeight == s.hashToHeight - {hash}
    && v.heightToHash == (if h in s.heightToHash && s.heightToHash[h] == hash then s.heightToHash - {h} else s.heightToHash)
    && (forall t :: t in v.txs <==> t in s.txs && !Lists(s, hash, t))
    && (forall t | t in v.txs :: v.txs[t] == s.txs[t])
    && (forall k :: k in v.history <==> k in s.history && k.height != h)
    && (forall k | k in v.history :: v.history[k] == s.history[k])
    && (if s.GetBlock(hash).Some? then RolledBack(s.utxos, v.utxos, s.GetBlock(hash).value.txs, h) else v.utxos == s.utxos)
    && v.tip == s.tip && v.supply == s.supply
  }

  lemma OrphanCleaned(s: Store, hash: Hash, h: nat)
    ensures BlockCleaned(s, DeleteOrphan(s, hash, h), hash, h)
  {
    if s.GetBlock(hash).Some? {
      var txs := s.GetBlock(hash).value.txs;
      RollBackMeans(s.utxos, txs, h, |txs|);
      assert txs[..|txs|] == txs;
    }
    hide RollBackTxs, RolledBack, Store.GetBlock;
  }

  /** A transaction that block x names is one of block y, which loads. */
  ghost predicate Shares(s: Store, x: Hash, y: Hash) {
    x in s.blocks && exists t | t in s.blocks[x].txids :: Lists(s, y, t)
  }

  /** The orphans that load when their turn comes: those that load, and name no
      transaction that left with one before them. */
  ghost predicate LoadInTurn(s: Store, orphans: set<Hash>, loaded: set<Hash>) {
    forall x :: x in loaded <==> x in orphans && s.GetBlock(x).Some? && forall y | y in loaded && y < x :: !Shares(s, x, y)
  }

  /** v is s without these orphans, entered at these heights, of which some load in turn. */
  ghost predicate AllCleaned(s: Store, v: Store, heights: map<Hash, nat>, orphans: set<Hash>, loaded: set<Hash>)
    requires orphans <= heights.Keys
  {
    && LoadInTurn(s, orphans, loaded)
    && v.blocks == s.blocks - orphans && v.hashToHeight == s.hashToHeight - orphans
    && (forall k :: k in v.heightToHash <==>
          k in s.heightToHash && !(s.heightToHash[k] in orphans && heights[s.heightToHash[k]] == k))
    && (forall k | k in v.heightToHash :: v.heightToHash[k] == s.heightToHash[k])
    && (forall t :: t in v.txs <==> t in s.txs && forall x | x in loaded :: !Lists(s, x, t))
    && (forall t | t in v.txs :: v.txs[t] == s.txs[t])
    && (forall k :: k in v.history <==> k in s.history && forall x | x in orphans :: heights[x] != k.height)
    && (forall k | k in v.history :: v.history[k] == s.history[k])
    && v.tip == s.tip && v.supply == s.supply
  }

  /** Loading a block after another one was cleaned up. */
  lemma LoadsAfter(s: Store, v: Store, hash: Hash, h: nat, x: Hash)
    requires BlockCleaned(s, v, hash, h) && x != hash
    ensures v.GetBlock(x).Some? <==> s.GetBlock(x).Some? && !(s.GetBlock(hash).Some? && Shares(s, x, hash))
    ensures v.GetBlock(x).Some? ==> v.GetBlock(x) == s.GetBlock(x)
  {
    hide RolledBack, Lists;
    if x in s.blocks {
      var ids := s.blocks[x].txids;
      if v.GetBlock(x).Some? { assert v.LoadTxs(ids) == s.LoadTxs(ids); }
      if s.GetBlock(x).Some? && v.GetBlock(x).None? {
        var i :| 0 <= i < |ids| && ids[i] !in v.txs;
        assert ids[i] in s.txs && Lists(s, hash, ids[i]) && ids[i] in ids;
        ListsLoads(s, hash, ids[i]);
      }
      if s.GetBlock(hash).Some? && Shares(s, x, hash) {
        var t :| t in ids && Lists(s, hash, t);
        var i :| 0 <= i < |ids| && ids[i] == t;
      }
    }
  }

  lemma ListsLoads(s: Store, x: Hash, t: Hash)
    requires Lists(s, x, t)
    ensures s.GetBlock(x).Some?
  {
  }

  lemma SameShares(s: Store, v: Store, x: Hash, y: Hash)
    requires x in s.blocks && x in v.blocks && v.blocks[x] == s.blocks[x] && v.GetBlock(y) == s.GetBlock(y)
    ensures Shares(v, x, y) <==> Shares(s, x, y)
  {
  }

  lemma TurnsAfter(s: Store, v: Store, m: Hash, h: nat, rest: set<Hash>, later: set<Hash>)
    requires BlockCleaned(s, v, m, h) && LoadInTurn(v, rest, later) && forall x | x in rest :: m < x
    ensures LoadInTurn(s, rest + {m}, if s.GetBlock(m).Some? then later + {m} else later)
    ensures forall x, t | x in later :: Lists(v, x, t) <==> Lists(s, x, t)
  {
    hide *;
    var loaded := if s.GetBlock(m).Some? then later + {m} else later;
    CleanedIs(s, v, m, h);
    TurnsAre(v, rest, later);
    forall x | x in later ensures v.GetBlock(x) == s.GetBlock(x) {
      LoadsAfter(s, v, m, h, x);
    }
    forall x, t | x in later ensures Lists(v, x, t) <==> Lists(s, x, t) {
      SameLists(s, v, x, t);
    }
    forall x | x in rest + {m}
      ensures x in loaded <==> s.GetBlock(x).Some? && forall y | y in loaded && y < x :: !Shares(s, x, y)
    {
      if x != m {
        LoadsAfter(s, v, m, h, x);
        LoadedStored(s, x);
        if s.GetBlock(x).Some? {
          forall y | y in later ensures Shares(v, x, y) <==> Shares(s, x, y) { SameShares(s, v, x, y); }
        }
      }
    }
    TurnsIs(s, rest + {m}, loaded);
  }

  lemma CleanedIs(s: Store, v: Store, m: Hash, h: nat)
    requires BlockCleaned(s, v, m, h)
    ensures v.blocks == s.blocks - {m}
  {
    hide RolledBack, Lists, Store.GetBlock;
  }

  lemma TurnsAre(s: Store, orphans: set<Hash>, loaded: set<Hash>)
    requires LoadInTurn(s, orphans, loaded)
    ensures loaded <= orphans
    ensures forall x | x in orphans :: x in loaded <==> s.GetBlock(x).Some? && forall y | y in loaded && y < x :: !Shares(s, x, y)
  {
    hide Shares, Store.GetBlock;
  }

  lemma TurnsIs(s: Store, orphans: set<Hash>, loaded: set<Hash>)
    requires loaded <= orphans
    requires forall x | x in orphans :: x in loaded <==> s.GetBlock(x).Some? && forall y | y in loaded && y < x :: !Shares(s, x, y)
    ensures LoadInTurn(s, orphans, loaded)
  {
    hide Shares, Store.GetBlock;
  }

  lemma SameLists(s: Store, v: Store, x: Hash, t: Hash)
    requires v.GetBlock(x) == s.GetBlock(x)
    ensures Lists(v, x, t) <==> Lists(s, x, t)
  {
  }

  lemma LoadedStored(s: Store, x: Hash)
    ensures s.GetBlock(x).Some? ==> x in s.blocks
  {
  }

  lemma CleanedStep(s: Store, v: Store, w: Store, heights: map<Hash, nat>, m: Hash, rest: set<Hash>, later: set<Hash>)
    requires m in heights && rest <= heights.Keys && m !in rest && forall x | x in rest :: m < x
    requires BlockCleaned(s, v, m, heights[m]) && AllCleaned(v, w, heights, rest, later)
    ensures AllCleaned(s, w, heights, rest + {m}, if s.GetBlock(m).Some? then later + {m} else later)
  {
    hide RolledBack, Lists, LoadInTurn, Store.GetBlock;
    TurnsAfter(s, v, m, heights[m], rest, later);
    forall t | Lists(s, m, t) ensures s.GetBlock(m).Some? { ListsLoads(s, m, t); }
  }

  lemma NothingCleaned(s: Store, heights: map<Hash, nat>)
    ensures AllCleaned(s, s, heights, {}, {})
  {
  }

  /** What cleaning up several orphans leaves. */
  lemma {:induction false} AllCleanedUp(s: Store, heights: map<Hash, nat>, orphans: set<Hash>) returns (loaded: set<Hash>)
    requires orphans <= heights.Keys
    ensures AllCleaned(s, CleanAll(s, heights, orphans), heights, orphans, loaded)
    decreases orphans
  {
    hide AllCleaned, DeleteOrphan, BlockCleaned;
    if orphans == {} {
      NothingCleaned(s, heights);
      loaded := {};
    } else {
      var m := Least(orphans);
      var v := DeleteOrphan(s, m, heights[m]);
      OrphanCleaned(s, m, heights[m]);
      var later := AllCleanedUp(v, heights, orphans - {m});
      CleanedStep(s, v, CleanAll(s, heights, orphans), heights, m, orphans - {m}, later);
      assert orphans - {m} + {m} == orphans;
      loaded := if s.GetBlock(m).Some? then later + {m} else later;
    }
  }

  lemma CleanedParts(s: Store, v: Store, heights: map<Hash, nat>, orphans: set<Hash>, loaded: set<Hash>)
    requires orphans <= heights.Keys && AllCleaned(s, v, heights, orphans, loaded)
    ensures v.tip == s.tip && v.blocks == s.blocks - orphans
  {
    hide LoadInTurn, Lists;
  }

  /** If no two orphans that load name a transaction of the other, all that load do so in turn. */
  lemma AllLoadInTurn(s: Store, orphans: set<Hash>, loaded: set<Hash>)
    requires LoadInTurn(s, orphans, loaded)
    requires forall x, y | x in orphans && y in orphans && x != y && s.GetBlock(x).Some? && s.GetBlock(y).Some? :: !Shares(s, x, y)
    ensures forall x :: x in loaded <==> x in orphans && s.GetBlock(x).Some?
  {
    hide Shares, Store.GetBlock;
  }

  lemma BlockDeleted(s: Store, hash: Hash)
    requires DeleteBlock(s, hash).Ok?
    ensures var v := DeleteBlock(s, hash).value;
      && (forall t :: t in v.txs <==> t in s.txs && !Lists(s, hash, t))
      && (forall t | t in v.txs :: v.txs[t] == s.txs[t])
      && (forall k :: k in v.history <==> k in s.history && k.height != s.hashToHeight[hash])
      && (forall k | k in v.history :: v.history[k] == s.history[k])
  {
  }
}
