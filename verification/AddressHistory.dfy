/** What a block writes to the address history: which keys, under which address, and
    with which entries, in terms of the scripts and positions alone. */
module AddressHistory {
  import opened Wrappers
  import opened ChainTypes
  import opened Storage
  import opened Connect
  import opened Undo

  /** An output at this key's position pays this key's address. */
  ghost predicate ReceivesAt(k: HistoryKey, tx: Transaction, h: nat) {
    && k.height == h && k.txid == tx.txid
    && k.index <= 0x7fff && k.index < |tx.outputs|
    && k.scriptHash != 0 && tx.outputs[k.index].script == PayTo(k.scriptHash)
  }

  /** An input at this key's position spends an output that paid this key's address. */
  ghost predicate SendsAt(k: HistoryKey, tx: Transaction, h: nat, spent: map<Outpoint, TxOutput>, n: nat)
    requires n <= |tx.Spends()| && forall i | 0 <= i < n :: tx.Spends()[i] in spent
  {
    && k.height == h && k.txid == tx.txid
    && 0x8000 <= k.index <= 0xffff && k.index - 0x8000 < n
    && k.scriptHash != 0 && spent[tx.Spends()[k.index - 0x8000]].script == PayTo(k.scriptHash)
  }

  /** A key keeps its entry, or stays without one. */
  ghost predicate SameAt(before: History, after: History, k: HistoryKey) {
    (k in after <==> k in before) && (k in before ==> after[k] == before[k])
  }

  /** What becomes of one key: the entry of the transaction that touches it, or nothing. */
  ghost predicate WrittenAt(
      before: History, after: History, txs: seq<Transaction>, h: nat, bh: Hash, spent: map<Outpoint, TxOutput>, k: HistoryKey)
    requires Covers(spent, txs)
  {
    && (forall t | 0 <= t < |txs| && ReceivesAt(k, txs[t], h) ::
          k in after && after[k] == HistoryEntry(false, txs[t].outputs[k.index].value, bh))
    && (forall t | 0 <= t < |txs| && SendsAt(k, txs[t], h, spent, |txs[t].Spends()|) ::
          k in after && after[k] == HistoryEntry(true, spent[txs[t].Spends()[k.index - 0x8000]].value, bh))
    && ((forall t | 0 <= t < |txs| :: !ReceivesAt(k, txs[t], h) && !SendsAt(k, txs[t], h, spent, |txs[t].Spends()|))
        ==> SameAt(before, after, k))
  }

  /** after is before with exactly the entries of these transactions written. */
  ghost predicate Writes(before: History, after: History, txs: seq<Transaction>, h: nat, bh: Hash, spent: map<Outpoint, TxOutput>)
    requires Covers(spent, txs)
  {
    forall k :: WrittenAt(before, after, txs, h, bh, spent, k)
  }

  // ---------------------------------------------------------------- one transaction

  lemma {:induction false} InputsWritten(
      hist: History, tx: Transaction, h: nat, bh: Hash, spent: map<Outpoint, TxOutput>, n: nat, k: HistoryKey)
    requires n <= |tx.Spends()| && forall i | 0 <= i < n :: tx.Spends()[i] in spent
    ensures var r := IndexInputs(hist, tx, h, bh, spent, n);
      if SendsAt(k, tx, h, spent, n)
      then k in r && r[k] == HistoryEntry(true, spent[tx.Spends()[k.index - 0x8000]].value, bh)
      else SameAt(hist, r, k)
  {
    if n > 0 {
      InputsWritten(hist, tx, h, bh, spent, n - 1, k);
    }
  }

  lemma {:induction false} OutputsWritten(hist: History, tx: Transaction, h: nat, bh: Hash, n: nat, k: HistoryKey)
    requires n <= |tx.outputs|
    ensures var r := IndexOutputs(hist, tx, h, bh, n);
      if ReceivesAt(k, tx, h) && k.index < n
      then k in r && r[k] == HistoryEntry(false, tx.outputs[k.index].value, bh)
      else SameAt(hist, r, k)
  {
    if n > 0 {
      OutputsWritten(hist, tx, h, bh, n - 1, k);
    }
  }

  // ---------------------------------------------------------------- a block

  /** Indexing a block writes one entry for each output that pays an address and one
      for each input that spends such an output, each under this address and at its
      own position, and nothing else. */
  lemma BlockWritten(hist: History, txs: seq<Transaction>, h: nat, bh: Hash, spent: map<Outpoint, TxOutput>)
    requires Covers(spent, txs) && DistinctTxids(txs)
    ensures Writes(hist, IndexTxs(hist, txs, h, bh, spent), txs, h, bh, spent)
  {
    hide WrittenAt, IndexTxs;
    forall k ensures WrittenAt(hist, IndexTxs(hist, txs, h, bh, spent), txs, h, bh, spent, k) {
      KeyWritten(hist, txs, h, bh, spent, k);
    }
  }

  lemma {:induction false} KeyWritten(
      hist: History, txs: seq<Transaction>, h: nat, bh: Hash, spent: map<Outpoint, TxOutput>, k: HistoryKey)
    requires Covers(spent, txs) && DistinctTxids(txs)
    ensures WrittenAt(hist, IndexTxs(hist, txs, h, bh, spent), txs, h, bh, spent, k)
  {
    hide ReceivesAt, SendsAt, SameAt, WrittenAt, IndexInputs, IndexOutputs;
    if txs == [] {
      NothingWritten(hist, h, bh, spent, k);
    } else {
      var front, last := txs[..|txs| - 1], txs[|txs| - 1];
      assert front + [last] == txs;
      KeyWritten(hist, front, h, bh, spent, k);
      var p := IndexTxs(hist, front, h, bh, spent);
      var q := IndexInputs(p, last, h, bh, spent, |last.Spends()|);
      InputsWritten(p, last, h, bh, spent, |last.Spends()|, k);
      OutputsWritten(q, last, h, bh, |last.outputs|, k);
      KeysApart(k, last, h, spent);
      WrittenNext(hist, p, q, IndexTxs(hist, txs, h, bh, spent), front, last, h, bh, spent, k);
    }
  }

  lemma NothingWritten(hist: History, h: nat, bh: Hash, spent: map<Outpoint, TxOutput>, k: HistoryKey)
    ensures WrittenAt(hist, hist, [], h, bh, spent, k)
  {
  }

  /** A key belongs to one transaction, in one direction. */
  lemma KeysApart(k: HistoryKey, tx: Transaction, h: nat, spent: map<Outpoint, TxOutput>)
    requires forall i | 0 <= i < |tx.Spends()| :: tx.Spends()[i] in spent
    ensures ReceivesAt(k, tx, h) ==> k.txid == tx.txid && k.index < |tx.outputs| && !SendsAt(k, tx, h, spent, |tx.Spends()|)
    ensures SendsAt(k, tx, h, spent, |tx.Spends()|) ==> k.txid == tx.txid && 0 <= k.index - 0x8000 < |tx.Spends()|
  {
  }

  lemma WrittenNext(
      before: History, p: History, q: History, r: History,
      front: seq<Transaction>, last: Transaction, h: nat, bh: Hash, spent: map<Outpoint, TxOutput>, k: HistoryKey)
    requires Covers(spent, front + [last]) && Covers(spent, front) && WrittenAt(before, p, front, h, bh, spent, k)
    requires forall i | 0 <= i < |last.Spends()| :: last.Spends()[i] in spent
    requires forall t | 0 <= t < |front| :: front[t].txid != last.txid
    requires
      if SendsAt(k, last, h, spent, |last.Spends()|)
      then && 0 <= k.index - 0x8000 < |last.Spends()|
           && k in q && q[k] == HistoryEntry(true, spent[last.Spends()[k.index - 0x8000]].value, bh)
      else SameAt(p, q, k)
    requires
      if ReceivesAt(k, last, h) && k.index < |last.outputs|
      then k in r && r[k] == HistoryEntry(false, last.outputs[k.index].value, bh)
      else SameAt(q, r, k)
    ensures WrittenAt(before, r, front + [last], h, bh, spent, k)
  {
    var txs := front + [last];
    hide ReceivesAt, SendsAt;
    assert txs[|front|] == last && forall t | 0 <= t < |front| :: txs[t] == front[t];
    KeysApart(k, last, h, spent);
    forall t | 0 <= t < |front|
      ensures ReceivesAt(k, front[t], h) || SendsAt(k, front[t], h, spent, |front[t].Spends()|) ==> k.txid != last.txid
    {
      assert forall i | 0 <= i < |front[t].Spends()| :: front[t].Spends()[i] in spent;
      KeysApart(k, front[t], h, spent);
    }
    if forall t | 0 <= t < |txs| :: !ReceivesAt(k, txs[t], h) && !SendsAt(k, txs[t], h, spent, |txs[t].Spends()|) {
      assert !ReceivesAt(k, txs[|front|], h) && !SendsAt(k, txs[|front|], h, spent, |txs[|front|].Spends()|);
      forall t | 0 <= t < |front| ensures !ReceivesAt(k, front[t], h) && !SendsAt(k, front[t], h, spent, |front[t].Spends()|) {
        assert txs[t] == front[t];
      }
    }
  }

  // ---------------------------------------------------------------- the outputs a block makes

  /** Coinbases and coinstakes, by their inputs and outputs. */
  predicate Minted(tx: Transaction) {
    || tx.inputs == [Outpoint(0, 0xffff_ffff)]
    || (&& |tx.inputs| >= 1 && tx.inputs[0].hash != 0
        && |tx.outputs| >= 2 && tx.outputs[0].value == 0 && tx.outputs[0].script == EmptyScript)
  }

  lemma NewOutputs(tx: Transaction, h: nat)
    ensures forall i | 0 <= i < |tx.outputs| ::
      && Outpoint(tx.txid, i) in NewUtxos(tx, h)
      && NewUtxos(tx, h)[Outpoint(tx.txid, i)] == Utxo(tx.outputs[i], h, Minted(tx), 0, 0)
    ensures forall op | op in NewUtxos(tx, h) :: op.hash == tx.txid
  {
  }

  /** After a block every output of its transactions is entered with its value and
      script, the height of the block, and the flag of minted outputs. */
  lemma {:induction false} OutputsEntered(refs: Refs, a: Applied, txs: seq<Transaction>, h: nat)
    requires ApplyTxs(refs, a, txs, h).Ok? && DistinctTxids(txs)
    ensures var u := ApplyTxs(refs, a, txs, h).value.utxos;
      forall t, i | 0 <= t < |txs| && 0 <= i < |txs[t].outputs| ::
        && Outpoint(txs[t].txid, i) in u
        && var e := u[Outpoint(txs[t].txid, i)];
           e.output == txs[t].outputs[i] && e.height == h && e.coinbase == Minted(txs[t])
  {
    hide NewUtxos, Minted, SpendInputs;
    if txs != [] {
      var front, last := txs[..|txs| - 1], txs[|txs| - 1];
      OutputsEntered(refs, a, front, h);
      assert forall i | 0 <= i < |front| :: front[i] == txs[i];
      var p := ApplyTxs(refs, a, front, h).value;
      SpendInputsSpec(refs, p, last.Spends(), h, last.txid);
      NewOutputs(last, h);
    }
  }

  // ---------------------------------------------------------------- the outputs a block spends

  /** o stood at this outpoint before the block, or is an output of one of its transactions. */
  ghost predicate StandsAt(u: UtxoSet, txs: seq<Transaction>, op: Outpoint, o: TxOutput) {
    || (op in u && u[op].output == o)
    || (exists j | 0 <= j < |txs| :: op.hash == txs[j].txid && op.index < |txs[j].outputs| && txs[j].outputs[op.index] == o)
  }

  lemma StandsLonger(u: UtxoSet, front: seq<Transaction>, last: Transaction, op: Outpoint, o: TxOutput)
    requires StandsAt(u, front, op, o)
    ensures StandsAt(u, front + [last], op, o)
  {
    if !(op in u && u[op].output == o) {
      var j :| 0 <= j < |front| && op.hash == front[j].txid && op.index < |front[j].outputs| && front[j].outputs[op.index] == o;
      assert (front + [last])[j] == front[j];
    }
  }

  lemma StandsNew(u: UtxoSet, front: seq<Transaction>, last: Transaction, h: nat, op: Outpoint)
    requires op in NewUtxos(last, h)
    ensures StandsAt(u, front + [last], op, NewUtxos(last, h)[op].output)
  {
    assert (front + [last])[|front|] == last;
  }

  /** Every output a block finds, and every output it spends, is one of these. */
  lemma {:induction false} OutputsBehind(refs: Refs, u: UtxoSet, txs: seq<Transaction>, h: nat)
    requires ApplyTxs(refs, StartApply(u), txs, h).Ok?
    ensures var r := ApplyTxs(refs, StartApply(u), txs, h).value;
      && (forall op | op in r.utxos :: StandsAt(u, txs, op, r.utxos[op].output))
      && (forall op | op in r.spent :: StandsAt(u, txs, op, r.spent[op]))
  {
    hide StandsAt, NewUtxos;
    if txs == [] {
      StandsBefore(u);
    } else {
      var front, last := txs[..|txs| - 1], txs[|txs| - 1];
      assert front + [last] == txs;
      OutputsBehind(refs, u, front, h);
      var p, r := ApplyTxs(refs, StartApply(u), front, h).value, ApplyTxs(refs, StartApply(u), txs, h).value;
      SpendInputsSpec(refs, p, last.Spends(), h, last.txid);
      forall op | op in r.utxos ensures StandsAt(u, txs, op, r.utxos[op].output) {
        if op in NewUtxos(last, h) { StandsNew(u, front, last, h, op); } else { StandsLonger(u, front, last, op, p.utxos[op].output); }
      }
      forall op | op in r.spent ensures StandsAt(u, txs, op, r.spent[op]) {
        StandsLonger(u, front, last, op, r.spent[op]);
      }
    }
  }

  lemma StandsBefore(u: UtxoSet)
    ensures forall op | op in u :: StandsAt(u, [], op, u[op].output)
  {
  }

  /** Only one output can stand at an outpoint, if the block brings new outputs. */
  lemma StandsOnce(u: UtxoSet, txs: seq<Transaction>, op: Outpoint, o: TxOutput, o': TxOutput)
    requires DistinctTxids(txs) && StandsAt(u, txs, op, o) && StandsAt(u, txs, op, o')
    requires forall j, i | 0 <= j < |txs| && 0 <= i < |txs[j].outputs| :: Outpoint(txs[j].txid, i) !in u
    ensures o == o'
  {
    assert forall j | 0 <= j < |txs| && op.hash == txs[j].txid && op.index < |txs[j].outputs| :: Outpoint(txs[j].txid, op.index) == op;
  }

  // ---------------------------------------------------------------- connecting

  /** The key of an output of transaction t that pays its address, or of an input of it
      that spends one that does. */
  ghost predicate Touches(u: UtxoSet, txs: seq<Transaction>, k: HistoryKey, t: nat, h: nat)
    requires t < |txs|
  {
    || ReceivesAt(k, txs[t], h)
    || (&& k.height == h && k.txid == txs[t].txid && k.scriptHash != 0
        && 0x8000 <= k.index <= 0xffff && k.index - 0x8000 < |txs[t].Spends()|
        && exists o :: StandsAt(u, txs, txs[t].Spends()[k.index - 0x8000], o) && o.script == PayTo(k.scriptHash))
  }

  lemma Received(before: History, hist: History, txs: seq<Transaction>, h: nat, bh: Hash, spent: map<Outpoint, TxOutput>)
    requires Covers(spent, txs) && Writes(before, hist, txs, h, bh, spent)
    ensures forall t, i, a: nat | 0 <= t < |txs| && 0 <= i < |txs[t].outputs| && i <= 0x7fff ::
      a != 0 && txs[t].outputs[i].script == PayTo(a) ==>
        && HistoryKey(a, h, txs[t].txid, i) in hist
        && hist[HistoryKey(a, h, txs[t].txid, i)] == HistoryEntry(false, txs[t].outputs[i].value, bh)
  {
    forall t, i, a: nat | 0 <= t < |txs| && 0 <= i < |txs[t].outputs| && i <= 0x7fff && a != 0 && txs[t].outputs[i].script == PayTo(a)
      ensures HistoryKey(a, h, txs[t].txid, i) in hist
      ensures hist[HistoryKey(a, h, txs[t].txid, i)] == HistoryEntry(false, txs[t].outputs[i].value, bh)
    {
      assert ReceivesAt(HistoryKey(a, h, txs[t].txid, i), txs[t], h);
      assert WrittenAt(before, hist, txs, h, bh, spent, HistoryKey(a, h, txs[t].txid, i));
    }
  }

  lemma Sent(before: History, hist: History, u: UtxoSet, txs: seq<Transaction>, h: nat, bh: Hash, spent: map<Outpoint, TxOutput>)
    requires Covers(spent, txs) && Writes(before, hist, txs, h, bh, spent) && DistinctTxids(txs)
    requires forall op | op in spent :: StandsAt(u, txs, op, spent[op])
    requires forall j, i | 0 <= j < |txs| && 0 <= i < |txs[j].outputs| :: Outpoint(txs[j].txid, i) !in u
    ensures forall t, i, a: nat, o: TxOutput | 0 <= t < |txs| && 0 <= i < |txs[t].Spends()| && i <= 0x7fff ::
      a != 0 && o.script == PayTo(a) && StandsAt(u, txs, txs[t].Spends()[i], o) ==>
        && HistoryKey(a, h, txs[t].txid, 0x8000 + i) in hist
        && hist[HistoryKey(a, h, txs[t].txid, 0x8000 + i)] == HistoryEntry(true, o.value, bh)
  {
    hide StandsAt;
    forall t, i, a: nat, o: TxOutput | 0 <= t < |txs| && 0 <= i < |txs[t].Spends()| && i <= 0x7fff
        && a != 0 && o.script == PayTo(a) && StandsAt(u, txs, txs[t].Spends()[i], o)
      ensures HistoryKey(a, h, txs[t].txid, 0x8000 + i) in hist
      ensures hist[HistoryKey(a, h, txs[t].txid, 0x8000 + i)] == HistoryEntry(true, o.value, bh)
    {
      StandsOnce(u, txs, txs[t].Spends()[i], o, spent[txs[t].Spends()[i]]);
      assert SendsAt(HistoryKey(a, h, txs[t].txid, 0x8000 + i), txs[t], h, spent, |txs[t].Spends()|);
      assert WrittenAt(before, hist, txs, h, bh, spent, HistoryKey(a, h, txs[t].txid, 0x8000 + i));
    }
  }

  lemma Untouched(before: History, hist: History, u: UtxoSet, txs: seq<Transaction>, h: nat, bh: Hash, spent: map<Outpoint, TxOutput>)
    requires Covers(spent, txs) && Writes(before, hist, txs, h, bh, spent)
    requires forall op | op in spent :: StandsAt(u, txs, op, spent[op])
    ensures forall k | k in hist :: SameAt(before, hist, k) || exists t | 0 <= t < |txs| :: Touches(u, txs, k, t, h)
    ensures forall k | k in before :: k in hist
  {
    hide StandsAt, SameAt, ReceivesAt;
    forall k: HistoryKey | forall t | 0 <= t < |txs| :: !Touches(u, txs, k, t, h) ensures SameAt(before, hist, k) {
      forall t | 0 <= t < |txs| ensures !ReceivesAt(k, txs[t], h) && !SendsAt(k, txs[t], h, spent, |txs[t].Spends()|) {
        assert !Touches(u, txs, k, t, h);
      }
      assert WrittenAt(before, hist, txs, h, bh, spent, k);
    }
    KeptOrWritten(before, hist, txs, h, bh, spent);
  }

  lemma KeptOrWritten(before: History, hist: History, txs: seq<Transaction>, h: nat, bh: Hash, spent: map<Outpoint, TxOutput>)
    requires Covers(spent, txs) && Writes(before, hist, txs, h, bh, spent)
    ensures forall k | k in before :: k in hist
  {
    hide ReceivesAt, SendsAt;
    forall k | k in before ensures k in hist {
      assert WrittenAt(before, hist, txs, h, bh, spent, k);
    }
  }

  /** Connecting a block with new transactions at height h.  Each output of it at a
      position up to 0x7fff that pays an address is entered as received under this
      address, each input that spends such an output as sent, with the value of the
      output and the hash of the block; every other entry is one that was there before. */
  lemma ConnectHistory(refs: Refs, view: Store, b: Block, h: nat, best: nat)
    requires ConnectBlock(refs, view, b, h, best).Ok? && DistinctTxids(b.txs)
    requires forall j, i | 0 <= j < |b.txs| && 0 <= i < |b.txs[j].outputs| :: Outpoint(b.txs[j].txid, i) !in view.utxos
    ensures var hist := ConnectBlock(refs, view, b, h, best).value.history;
      && (forall t, i, a: nat | 0 <= t < |b.txs| && 0 <= i < |b.txs[t].outputs| && i <= 0x7fff ::
            a != 0 && b.txs[t].outputs[i].script == PayTo(a) ==>
              && HistoryKey(a, h, b.txs[t].txid, i) in hist
              && hist[HistoryKey(a, h, b.txs[t].txid, i)] == HistoryEntry(false, b.txs[t].outputs[i].value, b.hash))
      && (forall t, i, a: nat, o: TxOutput | 0 <= t < |b.txs| && 0 <= i < |b.txs[t].Spends()| && i <= 0x7fff ::
            a != 0 && o.script == PayTo(a) && StandsAt(view.utxos, b.txs, b.txs[t].Spends()[i], o) ==>
              && HistoryKey(a, h, b.txs[t].txid, 0x8000 + i) in hist
              && hist[HistoryKey(a, h, b.txs[t].txid, 0x8000 + i)] == HistoryEntry(true, o.value, b.hash))
      && (forall k | k in hist :: SameAt(view.history, hist, k) || exists t | 0 <= t < |b.txs| :: Touches(view.utxos, b.txs, k, t, h))
      && (forall k | k in view.history :: k in hist)
  {
    hide *;
    HistoryIndexed(refs, view, b, h, best);
    var spent := ApplyTxs(refs, StartApply(view.utxos), b.txs, h).value.spent;
    var hist := ConnectBlock(refs, view, b, h, best).value.history;
    OutputsBehind(refs, view.utxos, b.txs, h);
    BlockWritten(view.history, b.txs, h, b.hash, spent);
    Received(view.history, hist, b.txs, h, b.hash, spent);
    Sent(view.history, hist, view.utxos, b.txs, h, b.hash, spent);
    Untouched(view.history, hist, view.utxos, b.txs, h, b.hash, spent);
  }

  lemma HistoryIndexed(refs: Refs, view: Store, b: Block, h: nat, best: nat)
    requires ConnectBlock(refs, view, b, h, best).Ok?
    ensures var a := ApplyTxs(refs, StartApply(view.utxos), b.txs, h);
      && a.Ok? && Covers(a.value.spent, b.txs)
      && ConnectBlock(refs, view, b, h, best).value.history == IndexTxs(view.history, b.txs, h, b.hash, a.value.spent)
  {
    hide ApplyTxs, StoreTxs, IndexTxs;
    ApplyTxsSpent(refs, StartApply(view.utxos), b.txs, h);
  }
}
