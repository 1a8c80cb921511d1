/** Facts about the UTXO and history folds of Connect, leading to UndoApply:
    undoing the transactions of a block that was just applied gives back the
    UTXO set, the transaction index and the address history it started from. */
module Undo {
  import opened Wrappers
  import opened ChainTypes
  import opened Storage
  import opened Connect

  // ---------------------------------------------------------------- when inputs can be spent

  /** MarkSpent accepts this output for spender txid at height h. */
  predicate Spendable(refs: Refs, u: Utxo, h: nat, txid: Hash) {
    !u.IsSpent() || (u.spentHeight == h && u.spentBy == txid) || !refs.Confirms(u)
  }

  lemma {:induction false} SpendInputsOkIff(refs: Refs, a: Applied, inputs: seq<Outpoint>, h: nat, txid: Hash)
    ensures SpendInputs(refs, a, inputs, h, txid).Ok?
       <==> forall op | op in inputs :: op in a.utxos && Spendable(refs, a.utxos[op], h, txid)
  {
    if inputs != [] {
      var front, last := inputs[..|inputs| - 1], inputs[|inputs| - 1];
      assert inputs == front + [last];
      SpendInputsOkIff(refs, a, front, h, txid);
      if SpendInputs(refs, a, front, h, txid).Ok? {
        SpendInputsSpec(refs, a, front, h, txid);
        assert last in inputs;
        if last in a.utxos && last !in front {
          assert SpendAll(a.utxos, front, h, txid)[last] == a.utxos[last];
        }
      }
    }
  }

  // ---------------------------------------------------------------- shape of an applied block

  /** Transaction ids of a list of transactions. */
  function TxidSet(txs: seq<Transaction>): set<Hash> {
    set i | 0 <= i < |txs| :: txs[i].txid
  }

  predicate DistinctTxids(txs: seq<Transaction>) {
    forall i, j | 0 <= i < j < |txs| :: txs[i].txid != txs[j].txid
  }

  lemma TxidSetNone()
    ensures TxidSet([]) == {}
  {
  }

  lemma TxidSetSnoc(txs: seq<Transaction>)
    requires txs != []
    ensures TxidSet(txs) == TxidSet(txs[..|txs| - 1]) + {txs[|txs| - 1].txid}
  {
    var front := txs[..|txs| - 1];
    forall i | 0 <= i < |txs|
      ensures txs[i].txid in TxidSet(front) + {txs[|txs| - 1].txid}
      ensures i < |front| ==> front[i].txid in TxidSet(txs)
    {
      if i < |front| { assert front[i] == txs[i]; }
    }
    forall t | t in TxidSet(front) ensures t in TxidSet(txs) {
      var i :| 0 <= i < |front| && front[i].txid == t;
      assert txs[i].txid == t;
    }
  }

  lemma {:induction false} CreatedByHashes(txs: seq<Transaction>)
    ensures forall op | op in CreatedBy(txs) :: op.hash in TxidSet(txs)
  {
    if txs != [] {
      var front, last := txs[..|txs| - 1], txs[|txs| - 1];
      CreatedByHashes(front);
      TxidSetSnoc(txs);
    }
  }

  lemma CreatedApart(txs: seq<Transaction>)
    requires txs != [] && DistinctTxids(txs)
    ensures Created(txs[|txs| - 1]) !! CreatedBy(txs[..|txs| - 1])
  {
    CreatedByHashes(txs[..|txs| - 1]);
    assert txs[|txs| - 1].txid !in TxidSet(txs[..|txs| - 1]);
  }

  /** Outputs that existed before keep everything but their spending marker, and
      only the inputs of the block are marked. */
  ghost predicate MarksOnly(u: UtxoSet, v: UtxoSet, txs: seq<Transaction>, h: nat) {
    forall op | op in u ::
      op in v && v[op] == if op in InputsOf(txs) then u[op].Spend(h, v[op].spentBy) else u[op]
  }

  lemma {:induction false} ApplyTxsShape(refs: Refs, a: Applied, txs: seq<Transaction>, h: nat)
    requires ApplyTxs(refs, a, txs, h).Ok?
    requires CreatedBy(txs) !! a.utxos.Keys
    ensures var r := ApplyTxs(refs, a, txs, h).value;
      && r.utxos.Keys == a.utxos.Keys + CreatedBy(txs)
      && MarksOnly(a.utxos, r.utxos, txs, h)
    ensures forall op | op in InputsOf(txs) && op in a.utxos ::
      !a.utxos[op].IsSpent() || a.utxos[op].spentHeight == h || !refs.Confirms(a.utxos[op])
  {
    if txs != [] {
      var front, last := txs[..|txs| - 1], txs[|txs| - 1];
      ApplyTxsShape(refs, a, front, h);
      var p := ApplyTxs(refs, a, front, h).value;
      SpendInputsSpec(refs, p, last.Spends(), h, last.txid);
      SpendInputsOkIff(refs, p, last.Spends(), h, last.txid);
    }
  }

  // ---------------------------------------------------------------- undoing the UTXO changes

  function UnspendAll(u: UtxoSet, ops: set<Outpoint>): UtxoSet {
    map op | op in u :: if op in ops then u[op].Unspend() else u[op]
  }

  lemma {:induction false} UnspendInputsSpec(u: UtxoSet, inputs: seq<Outpoint>)
    ensures UnspendInputs(u, inputs).Ok? <==> Outpoints(inputs) <= u.Keys
    ensures UnspendInputs(u, inputs).Ok? ==> UnspendInputs(u, inputs).value == UnspendAll(u, Outpoints(inputs))
  {
    if inputs == [] {
      assert UnspendAll(u, {}) == u;
      assert Outpoints(inputs) == {};
    } else {
      var front, last := inputs[..|inputs| - 1], inputs[|inputs| - 1];
      assert inputs == front + [last];
      assert Outpoints(inputs) == Outpoints(front) + {last};
      UnspendInputsSpec(u, front);
      if last in u {
        var v := UnspendAll(u, Outpoints(front));
        assert v[last := v[last].Unspend()] == UnspendAll(u, Outpoints(inputs));
      }
    }
  }

  /** Every transaction finds its inputs when the list is undone from the end. */
  ghost predicate UndoReady(keys: set<Outpoint>, txs: seq<Transaction>) {
    txs == [] || (
      var last := txs[|txs| - 1];
      && Outpoints(last.Spends()) <= keys - Created(last)
      && UndoReady(keys - Created(last), txs[..|txs| - 1]))
  }

  /** History keys deleted while the list is undone. */
  function UndoKeys(index: TxIndex, txs: seq<Transaction>, h: nat): set<HistoryKey> {
    if txs == [] then {}
    else
      UndoKeys(index, txs[..|txs| - 1], h) + OutputKeys(txs[|txs| - 1], h) + InputKeys(index, txs[|txs| - 1], h)
  }

  /** index holds exactly these transactions under their ids. */
  ghost predicate Indexed(index: TxIndex, txs: seq<Transaction>) {
    forall i | 0 <= i < |txs| :: txs[i].txid in index && index[txs[i].txid].tx == txs[i]
  }

  lemma MinusTwice<K, V>(m: map<K, V>, a: set<K>, b: set<K>)
    ensures m - a - b == m - (a + b)
  {
  }

  lemma UnspendTwice(u: UtxoSet, drop1: set<Outpoint>, ops1: set<Outpoint>, drop2: set<Outpoint>, ops2: set<Outpoint>)
    ensures UnspendAll(UnspendAll(u - drop1, ops1) - drop2, ops2) == UnspendAll(u - (drop2 + drop1), ops2 + ops1)
  {
  }

  lemma {:induction false} UndoTxsSpec(index: TxIndex, v: Undone, txs: seq<Transaction>, h: nat)
    requires UndoReady(v.utxos.Keys, txs) && Indexed(index, txs)
    ensures UndoTxs(index, v, txs, h) == Ok(Undone(
      UnspendAll(v.utxos - CreatedBy(txs), InputsOf(txs)),
      v.txs - TxidSet(txs),
      v.history - UndoKeys(index, txs, h)))
    decreases |txs|
  {
    if txs == [] {
      assert UnspendAll(v.utxos - CreatedBy(txs), InputsOf(txs)) == v.utxos;
      assert TxidSet(txs) == {} && v.txs - {} == v.txs;
      assert v.history - UndoKeys(index, txs, h) == v.history;
    } else {
      var front, last := txs[..|txs| - 1], txs[|txs| - 1];
      UnspendInputsSpec(v.utxos - Created(last), last.Spends());
      var p := UndoTx(index, v, last, h).value;
      assert p.utxos.Keys == v.utxos.Keys - Created(last);
      UndoTxsSpec(index, p, front, h);
      assert UnspendAll(p.utxos - CreatedBy(front), InputsOf(front)) == UnspendAll(v.utxos - CreatedBy(txs), InputsOf(txs)) by {
        UnspendTwice(v.utxos, Created(last), Outpoints(last.Spends()), CreatedBy(front), InputsOf(front));
      }
      assert p.txs - TxidSet(front) == v.txs - TxidSet(txs) by {
        TxidSetSnoc(txs);
        MinusTwice(v.txs, {last.txid}, TxidSet(front));
        assert {last.txid} + TxidSet(front) == TxidSet(txs);
      }
      assert p.history - UndoKeys(index, front, h) == v.history - UndoKeys(index, txs, h) by {
        var ko, ki := OutputKeys(last, h), InputKeys(index, last, h);
        MinusTwice(v.history, ko, ki);
        MinusTwice(v.history, ko + ki, UndoKeys(index, front, h));
        assert ko + ki + UndoKeys(index, front, h) == UndoKeys(index, txs, h);
      }
    }
  }

  lemma {:induction false} ApplyTxsUndoReady(refs: Refs, a: Applied, txs: seq<Transaction>, h: nat)
    requires ApplyTxs(refs, a, txs, h).Ok?
    requires CreatedBy(txs) !! a.utxos.Keys && DistinctTxids(txs)
    ensures UndoReady(a.utxos.Keys + CreatedBy(txs), txs)
    ensures InputsOf(txs) <= a.utxos.Keys + CreatedBy(txs)
  {
    hide MarksOnly, TxidSet, SpendAll;
    if txs != [] {
      var front, last := txs[..|txs| - 1], txs[|txs| - 1];
      ApplyTxsUndoReady(refs, a, front, h);
      ApplyTxsShape(refs, a, front, h);
      var p := ApplyTxs(refs, a, front, h).value;
      SpendInputsSpec(refs, p, last.Spends(), h, last.txid);
      CreatedApart(txs);
      assert a.utxos.Keys + CreatedBy(txs) - Created(last) == a.utxos.Keys + CreatedBy(front);
    }
  }

  /** If no stale marker was overwritten, undoing gives back the UTXO set exactly. */
  lemma UndoUtxos(refs: Refs, u: UtxoSet, txs: seq<Transaction>, h: nat)
    requires ApplyTxs(refs, StartApply(u), txs, h).Ok?
    requires CreatedBy(txs) !! u.Keys && h > 0
    requires forall op | op in u && op in InputsOf(txs) :: !u[op].IsSpent() && u[op].spentBy == ZERO_HASH
    ensures UnspendAll(ApplyTxs(refs, StartApply(u), txs, h).value.utxos - CreatedBy(txs), InputsOf(txs)) == u
  {
    ApplyTxsShape(refs, StartApply(u), txs, h);
  }

  // ---------------------------------------------------------------- undoing the transaction index

  lemma {:induction false} StoreTxsSpec(index: TxIndex, b: Block, h: nat, n: nat)
    requires n <= |b.txs| && DistinctTxids(b.txs)
    ensures var r := StoreTxs(index, b, h, n);
      && r.Keys == index.Keys + TxidSet(b.txs[..n])
      && (forall i | 0 <= i < n :: r[b.txs[i].txid] == TxRecord(b.hash, h, i, b.txs[i]))
      && (forall t | t in index && t !in TxidSet(b.txs[..n]) :: r[t] == index[t])
  {
    hide TxidSet;
    TxidSetNone();
    if n > 0 {
      StoreTxsSpec(index, b, h, n - 1);
      TxidSetSnoc(b.txs[..n]);
      assert b.txs[..n][..n - 1] == b.txs[..n - 1];
    }
  }

  // ---------------------------------------------------------------- undoing the address history

  lemma {:induction false} IndexOutputsSpec(hist: History, tx: Transaction, h: nat, bh: Hash, n: nat)
    requires n <= |tx.outputs|
    ensures var r := IndexOutputs(hist, tx, h, bh, n);
      && (forall k | k in hist && k.txid != tx.txid :: k in r && r[k] == hist[k])
      && r.Keys <= hist.Keys + OutputKeys(tx, h)
  {
    if n > 0 {
      IndexOutputsSpec(hist, tx, h, bh, n - 1);
    }
  }

  lemma {:induction false} IndexInputsSpec(
      hist: History, index: TxIndex, tx: Transaction, h: nat, bh: Hash, spent: map<Outpoint, TxOutput>, n: nat)
    requires n <= |tx.Spends()|
    requires forall i | 0 <= i < |tx.Spends()| :: tx.Spends()[i] in spent
    requires forall op | op in spent :: PrevOutput(index, op) == Some(spent[op])
    ensures var r := IndexInputs(hist, tx, h, bh, spent, n);
      && (forall k | k in hist && k.txid != tx.txid :: k in r && r[k] == hist[k])
      && r.Keys <= hist.Keys + InputKeys(index, tx, h)
  {
    if n > 0 {
      IndexInputsSpec(hist, index, tx, h, bh, spent, n - 1);
    }
  }

  lemma {:induction false} IndexTxsSpec(
      hist: History, index: TxIndex, txs: seq<Transaction>, h: nat, bh: Hash, spent: map<Outpoint, TxOutput>)
    requires Covers(spent, txs)
    requires forall op | op in spent :: PrevOutput(index, op) == Some(spent[op])
    ensures var r := IndexTxs(hist, txs, h, bh, spent);
      && (forall k | k in hist && k.txid !in TxidSet(txs) :: k in r && r[k] == hist[k])
      && r.Keys <= hist.Keys + UndoKeys(index, txs, h)
  {
    if txs != [] {
      var front, last := txs[..|txs| - 1], txs[|txs| - 1];
      IndexTxsSpec(hist, index, front, h, bh, spent);
      var p := IndexTxs(hist, front, h, bh, spent);
      var q := IndexInputs(p, last, h, bh, spent, |last.Spends()|);
      IndexInputsSpec(p, index, last, h, bh, spent, |last.Spends()|);
      IndexOutputsSpec(q, last, h, bh, |last.outputs|);
      TxidSetSnoc(txs);
    }
  }

  lemma {:induction false} UndoKeysTxids(index: TxIndex, txs: seq<Transaction>, h: nat)
    ensures forall k | k in UndoKeys(index, txs, h) :: k.txid in TxidSet(txs)
  {
    if txs != [] {
      var front, last := txs[..|txs| - 1], txs[|txs| - 1];
      UndoKeysTxids(index, front, h);
      TxidSetSnoc(txs);
    }
  }

  lemma UndoHistory(hist: History, index: TxIndex, txs: seq<Transaction>, h: nat, bh: Hash, spent: map<Outpoint, TxOutput>)
    requires Covers(spent, txs)
    requires forall op | op in spent :: PrevOutput(index, op) == Some(spent[op])
    requires forall k | k in hist :: k.txid !in TxidSet(txs)
    ensures IndexTxs(hist, txs, h, bh, spent) - UndoKeys(index, txs, h) == hist
  {
    IndexTxsSpec(hist, index, txs, h, bh, spent);
    UndoKeysTxids(index, txs, h);
  }
}
