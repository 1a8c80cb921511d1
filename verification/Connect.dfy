/** Connecting and disconnecting one block, as functions on stores.

    These are the specifications of applyBlockToBatch, indexBlockTransactions and
    disconnectBlock; the methods in module BlockChain are proved equal to them. */
module Connect {
  import opened Wrappers
  import opened ChainTypes
  import opened Storage

  // ---------------------------------------------------------------- UTXO changes of a block

  /** Who an amount is counted for: every output, or those paying one address. */
  datatype Payee = Anyone | Address(scriptHash: nat)

  function Amount(p: Payee, o: TxOutput): int {
    if p.Anyone? || (p.scriptHash != 0 && o.script == PayTo(p.scriptHash)) then o.value else 0
  }

  function OutValue(p: Payee, outputs: seq<TxOutput>): int {
    if outputs == [] then 0
    else OutValue(p, outputs[..|outputs| - 1]) + Amount(p, outputs[|outputs| - 1])
  }

  /** Running state while a block is applied: the UTXO set, the outputs spent so
      far and the value totals that feed the money supply. */
  datatype Applied = Applied(utxos: UtxoSet, spent: map<Outpoint, TxOutput>, valueIn: int, valueOut: int)

  function SpendOne(refs: Refs, a: Applied, op: Outpoint, h: nat, txid: Hash): Result<Applied, ChainError> {
    match MarkSpent(refs, a.utxos, op, h, txid)
    case Err(e) => Err(e)
    case Ok(u) => Ok(a.(utxos := u, spent := a.spent[op := u[op].output], valueIn := a.valueIn + u[op].output.value))
  }

  function SpendInputs(refs: Refs, a: Applied, inputs: seq<Outpoint>, h: nat, txid: Hash): Result<Applied, ChainError> {
    if inputs == [] then Ok(a)
    else
      match SpendInputs(refs, a, inputs[..|inputs| - 1], h, txid)
      case Err(e) => Err(e)
      case Ok(p) => SpendOne(refs, p, inputs[|inputs| - 1], h, txid)
  }

  function CreateOutputs(a: Applied, tx: Transaction, h: nat): Applied {
    a.(utxos := a.utxos + NewUtxos(tx, h), valueOut := a.valueOut + OutValue(Anyone, tx.outputs))
  }

  function ApplyTx(refs: Refs, a: Applied, tx: Transaction, h: nat): Result<Applied, ChainError> {
    match SpendInputs(refs, a, tx.Spends(), h, tx.txid)
    case Err(e) => Err(e)
    case Ok(p) => Ok(CreateOutputs(p, tx, h))
  }

  function ApplyTxs(refs: Refs, a: Applied, txs: seq<Transaction>, h: nat): Result<Applied, ChainError> {
    if txs == [] then Ok(a)
    else
      match ApplyTxs(refs, a, txs[..|txs| - 1], h)
      case Err(e) => Err(e)
      case Ok(p) => ApplyTx(refs, p, txs[|txs| - 1], h)
  }

  function StartApply(u: UtxoSet): Applied {
    Applied(u, map[], 0, 0)
  }

  // ---------------------------------------------------------------- address history of a block

  /** History after the first n inputs of tx are indexed. */
  function IndexInputs(hist: History, tx: Transaction, h: nat, bh: Hash, spent: map<Outpoint, TxOutput>, n: nat): History
    requires n <= |tx.Spends()|
    requires forall i | 0 <= i < n :: tx.Spends()[i] in spent
  {
    if n == 0 then hist
    else
      var prev := IndexInputs(hist, tx, h, bh, spent, n - 1);
      var o := spent[tx.Spends()[n - 1]];
      if AddressOf(o.script).Some? && n - 1 <= INDEX_IO_MASK then
        prev[KeyFor(AddressOf(o.script).value, h, tx.txid, n - 1, true) := HistoryEntry(true, o.value, bh)]
      else prev
  }

  /** History after the first n outputs of tx are indexed. */
  function IndexOutputs(hist: History, tx: Transaction, h: nat, bh: Hash, n: nat): History
    requires n <= |tx.outputs|
  {
    if n == 0 then hist
    else
      var prev := IndexOutputs(hist, tx, h, bh, n - 1);
      var o := tx.outputs[n - 1];
      if AddressOf(o.script).Some? && n - 1 <= INDEX_IO_MASK then
        prev[KeyFor(AddressOf(o.script).value, h, tx.txid, n - 1, false) := HistoryEntry(false, o.value, bh)]
      else prev
  }

  ghost predicate Covers(spent: map<Outpoint, TxOutput>, txs: seq<Transaction>) {
    forall j, i | 0 <= j < |txs| && 0 <= i < |txs[j].Spends()| :: txs[j].Spends()[i] in spent
  }

  function IndexTx(hist: History, tx: Transaction, h: nat, bh: Hash, spent: map<Outpoint, TxOutput>): History
    requires forall i | 0 <= i < |tx.Spends()| :: tx.Spends()[i] in spent
  {
    IndexOutputs(IndexInputs(hist, tx, h, bh, spent, |tx.Spends()|), tx, h, bh, |tx.outputs|)
  }

  function IndexTxs(hist: History, txs: seq<Transaction>, h: nat, bh: Hash, spent: map<Outpoint, TxOutput>): History
    requires Covers(spent, txs)
  {
    if txs == [] then hist
    else
      IndexTx(IndexTxs(hist, txs[..|txs| - 1], h, bh, spent), txs[|txs| - 1], h, bh, spent)
  }

  // ---------------------------------------------------------------- connecting

  /** Every outpoint spent by a list of transactions. */
  function InputsOf(txs: seq<Transaction>): set<Outpoint> {
    if txs == [] then {}
    else InputsOf(txs[..|txs| - 1]) + Outpoints(txs[|txs| - 1].Spends())
  }

  function Outpoints(inputs: seq<Outpoint>): set<Outpoint> {
    set op | op in inputs
  }

  function CreatedBy(txs: seq<Transaction>): set<Outpoint> {
    if txs == [] then {}
    else CreatedBy(txs[..|txs| - 1]) + Created(txs[|txs| - 1])
  }

  /** u with every listed input marked as spent. */
  function SpendAll(u: UtxoSet, inputs: seq<Outpoint>, h: nat, txid: Hash): UtxoSet {
    map op | op in u :: if op in inputs then u[op].Spend(h, txid) else u[op]
  }

  function SpentOutputs(u: UtxoSet, inputs: seq<Outpoint>): map<Outpoint, TxOutput>
    requires forall op | op in inputs :: op in u
  {
    map op | op in inputs :: u[op].output
  }

  /** What SpendInputs leaves behind when it succeeds. */
  lemma {:induction false} SpendInputsSpec(refs: Refs, a: Applied, inputs: seq<Outpoint>, h: nat, txid: Hash)
    requires SpendInputs(refs, a, inputs, h, txid).Ok?
    ensures forall op | op in inputs :: op in a.utxos
    ensures var r := SpendInputs(refs, a, inputs, h, txid).value;
      && r.utxos == SpendAll(a.utxos, inputs, h, txid)
      && r.spent == a.spent + SpentOutputs(a.utxos, inputs)
      && r.valueOut == a.valueOut
  {
    if inputs == [] {
      assert SpendAll(a.utxos, inputs, h, txid) == a.utxos;
      assert a.spent + SpentOutputs(a.utxos, inputs) == a.spent;
    } else {
      var front, last := inputs[..|inputs| - 1], inputs[|inputs| - 1];
      assert inputs == front + [last];
      SpendInputsSpec(refs, a, front, h, txid);
      SpendStep(a.utxos, front, last, h, txid);
      SpentStep(a.utxos, a.spent, front, last);
    }
  }

  lemma SpendStep(u: UtxoSet, front: seq<Outpoint>, last: Outpoint, h: nat, txid: Hash)
    requires last in u
    ensures var v := SpendAll(u, front, h, txid);
      v[last := v[last].Spend(h, txid)] == SpendAll(u, front + [last], h, txid)
  {
  }

  lemma SpentStep(u: UtxoSet, spent: map<Outpoint, TxOutput>, front: seq<Outpoint>, last: Outpoint)
    requires last in u && forall op | op in front :: op in u
    ensures (spent + SpentOutputs(u, front))[last := u[last].output] == spent + SpentOutputs(u, front + [last])
  {
  }

  lemma {:induction false} ApplyTxsSpent(refs: Refs, a: Applied, txs: seq<Transaction>, h: nat)
    requires ApplyTxs(refs, a, txs, h).Ok?
    ensures Covers(ApplyTxs(refs, a, txs, h).value.spent, txs)
    ensures a.spent.Keys <= ApplyTxs(refs, a, txs, h).value.spent.Keys
  {
    if txs != [] {
      var front, last := txs[..|txs| - 1], txs[|txs| - 1];
      assert txs == front + [last];
      ApplyTxsSpent(refs, a, front, h);
      var p := ApplyTxs(refs, a, front, h).value;
      SpendInputsSpec(refs, p, last.Spends(), h, last.txid);
    }
  }

  /** The store after block b is connected at height h.  view is the batch so far,
      refs the committed database, best the in-memory best height. */
  function ConnectBlock(refs: Refs, view: Store, b: Block, h: nat, best: nat): Result<Store, ChainError> {
    match ApplyTxs(refs, StartApply(view.utxos), b.txs, h)
    case Err(e) => Err(e)
    case Ok(a) =>
      ApplyTxsSpent(refs, StartApply(view.utxos), b.txs, h);
      Ok(Store(
        view.blocks[b.hash := CompactBlock(h, b.prev, Txids(b))],
        StoreTxs(view.txs, b, h, |b.txs|),
        view.hashToHeight[b.hash := h],
        view.heightToHash[h := b.hash],
        a.utxos,
        IndexTxs(view.history, b.txs, h, b.hash, a.spent),
        view.supply[h := (if h > 0 then view.GetMoneySupply(h - 1) else 0) + a.valueOut - a.valueIn],
        if h > best then Some(Tip(h, b.hash)) else view.tip))
  }

  lemma NewUtxosStep(u: UtxoSet, tx: Transaction, h: nat, n: nat)
    requires 0 < n <= |tx.outputs|
    ensures u + NewUtxosUpTo(tx, h, n)
         == (u + NewUtxosUpTo(tx, h, n - 1))[Outpoint(tx.txid, n - 1) := NewUtxo(tx, n - 1, h)]
  {
  }

  // ---------------------------------------------------------------- disconnecting

  function UnspendInputs(u: UtxoSet, inputs: seq<Outpoint>): Result<UtxoSet, ChainError> {
    if inputs == [] then Ok(u)
    else
      match UnspendInputs(u, inputs[..|inputs| - 1])
      case Err(e) => Err(e)
      case Ok(p) =>
        var op := inputs[|inputs| - 1];
        if op in p then Ok(p[op := p[op].Unspend()]) else Err(UtxoNotFound)
  }

  /** Running state while a block is undone. */
  datatype Undone = Undone(utxos: UtxoSet, txs: TxIndex, history: History)

  /** Undoes one transaction; index is the committed transaction index. */
  function UndoTx(index: TxIndex, v: Undone, tx: Transaction, h: nat): Result<Undone, ChainError> {
    match UnspendInputs(v.utxos - Created(tx), tx.Spends())
    case Err(e) => Err(e)
    case Ok(u) =>
      if tx.txid in index then
        var stored := index[tx.txid].tx;
        Ok(Undone(u, v.txs - {tx.txid}, v.history - OutputKeys(stored, h) - InputKeys(index, stored, h)))
      else
        Ok(Undone(u, v.txs, v.history))
  }

  /** Undoes transactions from the last to the first. */
  function UndoTxs(index: TxIndex, v: Undone, txs: seq<Transaction>, h: nat): Result<Undone, ChainError>
    decreases |txs|
  {
    if txs == [] then Ok(v)
    else
      match UndoTx(index, v, txs[|txs| - 1], h)
      case Err(e) => Err(e)
      case Ok(p) => UndoTxs(index, p, txs[..|txs| - 1], h)
  }

  /** The store committed by disconnecting block b. */
  function DisconnectBlock(s: Store, b: Block): Result<Store, ChainError> {
    if b.hash !in s.hashToHeight then Err(BlockNotFound)
    else
      var h := s.hashToHeight[b.hash];
      match UndoTxs(s.txs, Undone(s.utxos, s.txs, s.history), b.txs, h)
      case Err(e) => Err(e)
      case Ok(v) =>
        Ok(s.(blocks := s.blocks - {b.hash},
              txs := v.txs,
              hashToHeight := s.hashToHeight - {b.hash},
              heightToHash := s.heightToHash - {h},
              utxos := v.utxos,
              history := v.history,
              tip := Some(Tip(PredHeight(h), b.prev))))
  }
}
