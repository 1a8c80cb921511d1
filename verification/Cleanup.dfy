/** The cleanup of an orphaned block against a proper disconnect.

    The cleanup goes through the transactions from the first to the last and reads
    outputs from the database as it was before.  An output that is created and
    spent inside the block is deleted first and then written back. */
module Cleanup {
  import opened ChainTypes
  import opened Storage
  import opened Connect
  import opened Undo
  import opened Replay
  import opened Orphans

  const COINBASE_INPUT: Outpoint := Outpoint(ZERO_HASH, MAX_UINT32)

  /** The outputs the cleanup writes back for a transaction. */
  function Restored(committed: UtxoSet, tx: Transaction, h: nat): set<Outpoint> {
    set op | op in tx.inputs && op != COINBASE_INPUT && op in committed && MarkedBy(committed[op], tx.txid, h)
  }

  function Unspent(committed: UtxoSet, ops: set<Outpoint>): UtxoSet
    requires ops <= committed.Keys
  {
    map op | op in ops :: committed[op].Unspend()
  }

  function RestoredUpTo(committed: UtxoSet, tx: Transaction, h: nat, n: nat): set<Outpoint>
    requires n <= |tx.inputs|
  {
    set op | op in tx.inputs[..n] && op != COINBASE_INPUT && op in committed && MarkedBy(committed[op], tx.txid, h)
  }

  lemma RestoredStep(committed: UtxoSet, tx: Transaction, h: nat, n: nat)
    requires 0 < n <= |tx.inputs|
    ensures var op, rest, ops := tx.inputs[n - 1], RestoredUpTo(committed, tx, h, n - 1), RestoredUpTo(committed, tx, h, n);
      && rest <= committed.Keys
      && (if op != COINBASE_INPUT && op in committed && MarkedBy(committed[op], tx.txid, h)
          then op in ops && ops == rest + {op} else op !in ops && ops == rest)
  {
    hide MarkedBy;
    assert tx.inputs[..n] == tx.inputs[..n - 1] + [tx.inputs[n - 1]];
  }

  lemma OneMore(committed: UtxoSet, pending: UtxoSet, ops: set<Outpoint>, op: Outpoint)
    requires ops <= committed.Keys && op in committed
    ensures (pending + Unspent(committed, ops))[op := committed[op].Unspend()] == pending + Unspent(committed, ops + {op})
  {
  }

  lemma {:induction false} RestoreInputsSpec(committed: UtxoSet, pending: UtxoSet, tx: Transaction, h: nat, n: nat)
    requires n <= |tx.inputs|
    ensures RestoreInputs(committed, pending, tx, h, n) == pending + Unspent(committed, RestoredUpTo(committed, tx, h, n))
  {
    if n == 0 {
      assert RestoredUpTo(committed, tx, h, 0) == {};
      assert pending + Unspent(committed, {}) == pending;
    } else {
      RestoreInputsSpec(committed, pending, tx, h, n - 1);
      RestoredStep(committed, tx, h, n);
      hide MarkedBy, Unspent, RestoredUpTo;
      if tx.inputs[n - 1] in RestoredUpTo(committed, tx, h, n) {
        OneMore(committed, pending, RestoredUpTo(committed, tx, h, n - 1), tx.inputs[n - 1]);
      }
    }
  }

  /** One transaction further: its outputs go, then what it spent comes back. */
  lemma RollBackStep(committed: UtxoSet, txs: seq<Transaction>, h: nat, n: nat)
    requires n < |txs|
    ensures RollBackTxs(committed, txs, h, n + 1)
         == RollBackTxs(committed, txs, h, n) - Created(txs[n]) + Unspent(committed, Restored(committed, txs[n], h))
  {
    var tx := txs[n];
    RestoreInputsSpec(committed, RollBackTxs(committed, txs, h, n) - Created(tx), tx, h, |tx.inputs|);
    assert tx.inputs[..|tx.inputs|] == tx.inputs;
  }

  ghost predicate RestoredBy(committed: UtxoSet, txs: seq<Transaction>, h: nat, lo: nat, hi: nat, op: Outpoint) {
    exists j :: lo <= j < hi <= |txs| && op in Restored(committed, txs[j], h)
  }

  /** Outputs from outside the block stay, with their marker cleared if the block set it. */
  lemma {:induction false} RollBackOld(committed: UtxoSet, txs: seq<Transaction>, h: nat, n: nat, op: Outpoint)
    requires n <= |txs| && op in committed && forall i | 0 <= i < |txs| :: op !in Created(txs[i])
    ensures op in RollBackTxs(committed, txs, h, n)
    ensures RollBackTxs(committed, txs, h, n)[op]
         == if RestoredBy(committed, txs, h, 0, n, op) then committed[op].Unspend() else committed[op]
  {
    hide Restored, Created;
    if n > 0 {
      RollBackOld(committed, txs, h, n - 1, op);
      RollBackStep(committed, txs, h, n - 1);
    }
  }

  /** An output created in the block goes, unless a later transaction marked it. */
  lemma {:induction false} RollBackNew(committed: UtxoSet, txs: seq<Transaction>, h: nat, n: nat, i: nat, op: Outpoint)
    requires i < n <= |txs| && DistinctTxids(txs) && op in Created(txs[i])
    ensures op in RollBackTxs(committed, txs, h, n) <==> RestoredBy(committed, txs, h, i, n, op)
  {
    hide Restored;
    RollBackStep(committed, txs, h, n - 1);
    if i < n - 1 {
      RollBackNew(committed, txs, h, n - 1, i, op);
      assert op !in Created(txs[n - 1]);
    }
  }

  // ---------------------------------------------------------------- who set a marker

  /** txs[j] spends op and its marker stands; if op was created in the list, that was before. */
  ghost predicate Owner(u: UtxoSet, txs: seq<Transaction>, h: nat, op: Outpoint, j: nat) {
    && j < |txs| && op in txs[j].Spends() && op in u && MarkedBy(u[op], txs[j].txid, h)
    && forall i | 0 <= i < |txs| && op in Created(txs[i]) :: i < j
  }

  lemma {:induction false} MarkerOwner(refs: Refs, a: Applied, txs: seq<Transaction>, h: nat, op: Outpoint)
    requires ApplyTxs(refs, a, txs, h).Ok? && h > 0
    requires CreatedBy(txs) !! a.utxos.Keys && DistinctTxids(txs)
    requires op in InputsOf(txs)
    ensures exists j: nat :: Owner(ApplyTxs(refs, a, txs, h).value.utxos, txs, h, op, j)
  {
    hide ApplyTx, TxidSet;
    var front, last := txs[..|txs| - 1], txs[|txs| - 1];
    var p, u := ApplyTxs(refs, a, front, h).value, ApplyTxs(refs, a, txs, h).value.utxos;
    LastTxFresh(refs, a, txs, h);
    LastMarks(refs, p, last, h, op);
    if op in last.Spends() {
      assert op !in Created(last);
      assert Owner(u, txs, h, op, |txs| - 1);
    } else {
      MarkerOwner(refs, a, front, h, op);
      var j: nat :| Owner(p.utxos, front, h, op, j);
      assert op !in Created(last);
      forall i | 0 <= i < |txs| && op in Created(txs[i]) ensures i < j {
        if i < |front| { assert front[i] == txs[i]; }
      }
      assert front[j] == txs[j];
      assert Owner(u, txs, h, op, j);
    }
  }

  lemma LastMarks(refs: Refs, p: Applied, tx: Transaction, h: nat, op: Outpoint)
    requires ApplyTx(refs, p, tx, h).Ok? && h > 0 && Created(tx) !! p.utxos.Keys
    ensures var u := ApplyTx(refs, p, tx, h).value.utxos;
      && (op in tx.Spends() ==> op in p.utxos && op in u && MarkedBy(u[op], tx.txid, h))
      && (op !in tx.Spends() && op in p.utxos ==> op in u && u[op] == p.utxos[op])
  {
    SpendInputsSpec(refs, p, tx.Spends(), h, tx.txid);
  }

  // ---------------------------------------------------------------- cleanup against disconnect

  /** No transaction has the zero id a coinbase input refers to. */
  predicate NoZeroTxid(s: Store, b: Block) {
    ZERO_HASH !in s.txs && ZERO_HASH !in TxidSet(b.txs)
  }

  lemma {:induction false} CreatedByAt(txs: seq<Transaction>, op: Outpoint)
    ensures op in CreatedBy(txs) <==> exists i :: 0 <= i < |txs| && op in Created(txs[i])
  {
    hide Created;
    if txs != [] {
      var front := txs[..|txs| - 1];
      CreatedByAt(front, op);
      if i :| 0 <= i < |txs| && op in Created(txs[i]) {
        if i < |front| { assert op in Created(front[i]); }
      }
      if i :| 0 <= i < |front| && op in Created(front[i]) { assert op in Created(txs[i]); }
    }
  }

  lemma {:induction false} InputOf(txs: seq<Transaction>, j: nat, op: Outpoint)
    requires j < |txs| && op in txs[j].Spends()
    ensures op in InputsOf(txs)
  {
    if j < |txs| - 1 { InputOf(txs[..|txs| - 1], j, op); }
  }

  /** Only inputs of the block are written back. */
  lemma RestoredAreInputs(committed: UtxoSet, txs: seq<Transaction>, h: nat, lo: nat, op: Outpoint)
    ensures RestoredBy(committed, txs, h, lo, |txs|, op) ==> op in InputsOf(txs)
  {
    if RestoredBy(committed, txs, h, lo, |txs|, op) {
      var j :| lo <= j < |txs| && op in Restored(committed, txs[j], h);
      assert txs[j].IsCoinbase() ==> op == COINBASE_INPUT;
      InputOf(txs, j, op);
    }
  }

  /** The state a cleanup of block b works on, right after b was connected to s. */
  ghost predicate JustConnected(s: Store, b: Block, committed: UtxoSet) {
    && WellFormed(s) && Extends(s, b) && Append(s.SpendRefs(), s, b).Ok?
    && committed == Append(s.SpendRefs(), s, b).value.utxos && NoZeroTxid(s, b)
  }

  /** Every input of the block is written back by the transaction that marked it. */
  lemma InputRestored(s: Store, b: Block, committed: UtxoSet, op: Outpoint)
    requires JustConnected(s, b, committed) && op in InputsOf(b.txs)
    ensures RestoredBy(committed, b.txs, Height(s) + 1, 0, |b.txs|, op)
    ensures forall i | 0 <= i < |b.txs| && op in Created(b.txs[i]) :: RestoredBy(committed, b.txs, Height(s) + 1, i, |b.txs|, op)
  {
    var h := Height(s) + 1;
    CreatedFresh(s, b);
    MarkerOwner(s.SpendRefs(), StartApply(s.utxos), b.txs, h, op);
    var j: nat :| Owner(committed, b.txs, h, op, j);
    NotCoinbaseInput(s, b, committed, op);
    assert op in b.txs[j].inputs;
    assert op in Restored(committed, b.txs[j], h);
  }

  lemma NotCoinbaseInput(s: Store, b: Block, committed: UtxoSet, op: Outpoint)
    requires JustConnected(s, b, committed) && op in committed
    ensures op != COINBASE_INPUT
  {
    CommittedKeys(s, b, committed);
    CreatedByHashes(b.txs);
  }

  lemma CommittedKeys(s: Store, b: Block, committed: UtxoSet)
    requires JustConnected(s, b, committed)
    ensures committed.Keys == s.utxos.Keys + CreatedBy(b.txs) && CreatedBy(b.txs) !! s.utxos.Keys
    ensures forall op | op in s.utxos && op in InputsOf(b.txs) :: committed[op].Unspend() == s.utxos[op]
    ensures forall op | op in s.utxos && op !in InputsOf(b.txs) :: committed[op] == s.utxos[op]
  {
    hide StoreTxs, IndexTxs, OneLine, TxsAgree;
    CreatedFresh(s, b);
    InputsUnspent(s, b);
    ApplyTxsShape(s.SpendRefs(), StartApply(s.utxos), b.txs, Height(s) + 1);
  }

  lemma CleanupRestores(s: Store, b: Block, committed: UtxoSet)
    requires JustConnected(s, b, committed) && InputsOf(b.txs) !! CreatedBy(b.txs)
    ensures RollBackTxs(committed, b.txs, Height(s) + 1, |b.txs|) == s.utxos
  {
    hide *;
    var v := RollBackTxs(committed, b.txs, Height(s) + 1, |b.txs|);
    CommittedKeys(s, b, committed);
    RollBackKeys(committed, b.txs, Height(s) + 1, |b.txs|);
    forall op | op in s.utxos ensures op in v && v[op] == s.utxos[op] {
      OldRestored(s, b, committed, op);
    }
    forall op | op in CreatedBy(b.txs) ensures op !in v {
      NewGone(s, b, committed, op);
    }
    SameMap(v, s.utxos, CreatedBy(b.txs));
  }

  lemma SameMap<K, V>(m: map<K, V>, n: map<K, V>, gone: set<K>)
    requires m.Keys <= n.Keys + gone && m.Keys !! gone && forall k | k in n :: k in m && m[k] == n[k]
    ensures m == n
  {
  }

  /** The cleanup puts the UTXO set back to what it was before the block, as a
      disconnect does, exactly if the block spends none of its own outputs. */
  lemma CleanupRestoresIff(s: Store, b: Block)
    requires WellFormed(s) && Extends(s, b) && Append(s.SpendRefs(), s, b).Ok? && NoZeroTxid(s, b)
    ensures var r := Append(s.SpendRefs(), s, b).value;
      RollBackTxs(r.utxos, b.txs, Height(s) + 1, |b.txs|) == s.utxos <==> InputsOf(b.txs) !! CreatedBy(b.txs)
  {
    hide *;
    Connected(s, b);
    var committed := Append(s.SpendRefs(), s, b).value.utxos;
    if InputsOf(b.txs) !! CreatedBy(b.txs) {
      CleanupRestores(s, b, committed);
    } else {
      var op :| op in InputsOf(b.txs) && op in CreatedBy(b.txs);
      NewBack(s, b, committed, op);
    }
  }

  lemma Connected(s: Store, b: Block)
    requires WellFormed(s) && Extends(s, b) && Append(s.SpendRefs(), s, b).Ok? && NoZeroTxid(s, b)
    ensures JustConnected(s, b, Append(s.SpendRefs(), s, b).value.utxos)
  {
  }

  lemma {:induction false} RollBackKeys(committed: UtxoSet, txs: seq<Transaction>, h: nat, n: nat)
    requires n <= |txs|
    ensures RollBackTxs(committed, txs, h, n).Keys <= committed.Keys
  {
    if n > 0 {
      RollBackKeys(committed, txs, h, n - 1);
      RollBackStep(committed, txs, h, n - 1);
    }
  }

  lemma OldRestored(s: Store, b: Block, committed: UtxoSet, op: Outpoint)
    requires JustConnected(s, b, committed) && op in s.utxos
    ensures var v := RollBackTxs(committed, b.txs, Height(s) + 1, |b.txs|); op in v && v[op] == s.utxos[op]
  {
    hide *;
    CommittedKeys(s, b, committed);
    CreatedByAt(b.txs, op);
    RollBackOld(committed, b.txs, Height(s) + 1, |b.txs|, op);
    if op in InputsOf(b.txs) {
      InputRestored(s, b, committed, op);
    }
    RestoredAreInputs(committed, b.txs, Height(s) + 1, 0, op);
  }

  lemma DistinctOf(s: Store, b: Block, committed: UtxoSet)
    requires JustConnected(s, b, committed)
    ensures DistinctTxids(b.txs)
  {
  }

  lemma NewGone(s: Store, b: Block, committed: UtxoSet, op: Outpoint)
    requires JustConnected(s, b, committed) && op in CreatedBy(b.txs) && op !in InputsOf(b.txs)
    ensures op !in RollBackTxs(committed, b.txs, Height(s) + 1, |b.txs|)
  {
    hide *;
    CreatedByAt(b.txs, op);
    var i: nat :| 0 <= i < |b.txs| && op in Created(b.txs[i]);
    DistinctOf(s, b, committed);
    RollBackNew(committed, b.txs, Height(s) + 1, |b.txs|, i, op);
    RestoredAreInputs(committed, b.txs, Height(s) + 1, i, op);
  }

  lemma NewBack(s: Store, b: Block, committed: UtxoSet, op: Outpoint)
    requires JustConnected(s, b, committed) && op in CreatedBy(b.txs) && op in InputsOf(b.txs)
    ensures op in RollBackTxs(committed, b.txs, Height(s) + 1, |b.txs|) && op !in s.utxos
  {
    hide *;
    CreatedByAt(b.txs, op);
    var i: nat :| 0 <= i < |b.txs| && op in Created(b.txs[i]);
    DistinctOf(s, b, committed);
    RollBackNew(committed, b.txs, Height(s) + 1, |b.txs|, i, op);
    InputRestored(s, b, committed, op);
    CommittedKeys(s, b, committed);
  }
}
