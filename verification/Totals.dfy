/** What the stored totals amount to in every state the chain can be in: Recorded is
    the part of the invariant that speaks about the money supply entries, the address
    history and the values of the outputs, and it too is kept by every accepted batch
    and by every disconnect. */
module Totals {
  import opened Wrappers
  import opened ChainTypes
  import opened Storage
  import opened Connect
  import opened Undo
  import opened Replay
  import opened Chains
  import opened Batches
  import opened Completeness
  import opened Lines
  import opened Ledger
  import opened Sums

  // ---------------------------------------------------------------- values read from the stored state

  /** Total value of all outputs counted for p, spent or not. */
  ghost function Total(p: Payee, u: UtxoSet): int {
    Sum(Amounts(p, u))
  }

  ghost function Amounts(p: Payee, u: UtxoSet): map<Outpoint, int> {
    map op | op in u :: Amount(p, u[op].output)
  }

  /** Total value of the outputs that carry a spending marker. */
  ghost function Marked(p: Payee, u: UtxoSet): int {
    Sum(MarkedAmounts(p, u))
  }

  ghost function MarkedAmounts(p: Payee, u: UtxoSet): map<Outpoint, int> {
    map op | op in u :: if u[op].IsSpent() then Amount(p, u[op].output) else 0
  }

  lemma UnspentAndMarked(p: Payee, u: UtxoSet)
    ensures Unspent(p, u) + Marked(p, u) == Total(p, u)
  {
    SumAdd(UnspentAmounts(p, u), MarkedAmounts(p, u), Amounts(p, u));
  }

  /** The outputs behind the inputs of some transactions, as the transaction index has them. */
  function Behind(index: TxIndex, txs: seq<Transaction>): map<Outpoint, TxOutput> {
    map op | op in InputsOf(txs) && PrevOutput(index, op).Some? :: PrevOutput(index, op).value
  }

  /** The index knows the output behind every input. */
  ghost predicate Known(index: TxIndex, txs: seq<Transaction>) {
    forall op | op in InputsOf(txs) :: PrevOutput(index, op).Some?
  }

  lemma KnownCovers(index: TxIndex, txs: seq<Transaction>)
    requires Known(index, txs)
    ensures Covers(Behind(index, txs), txs)
  {
    forall j: nat, i: nat | j < |txs| && i < |txs[j].Spends()| ensures txs[j].Spends()[i] in InputsOf(txs) {
      InputsHas(txs, j, txs[j].Spends()[i]);
    }
  }

  /** Value of all outputs of the blocks. */
  function Outs(p: Payee, c: seq<Block>): int {
    if c == [] then 0 else Outs(p, c[..|c| - 1]) + TotalOut(p, c[|c| - 1].txs)
  }

  /** Value of all inputs the blocks list, each time they are listed. */
  ghost function Ins(p: Payee, index: TxIndex, c: seq<Block>): int {
    if c == [] then 0 else Ins(p, index, c[..|c| - 1]) + InsOf(p, index, c[|c| - 1].txs)
  }

  ghost function InsOf(p: Payee, index: TxIndex, txs: seq<Transaction>): int {
    if Known(index, txs) then
      KnownCovers(index, txs);
      TotalIn(p, txs, Behind(index, txs))
    else 0
  }

  /** The address history of the blocks, block k at height k. */
  ghost function HistoryOf(index: TxIndex, c: seq<Block>): History {
    if c == [] then map[]
    else
      var b, h := c[|c| - 1], |c| - 1;
      if Known(index, b.txs) then
        KnownCovers(index, b.txs);
        IndexTxs(HistoryOf(index, c[..h]), b.txs, h, b.hash, Behind(index, b.txs))
      else HistoryOf(index, c[..h])
  }

  // ---------------------------------------------------------------- the invariant

  /** The supply entry of every height is what the blocks up to it create, less what they spend. */
  ghost predicate SupplyRecorded(supply: map<nat, int>, index: TxIndex, c: seq<Block>) {
    forall k: nat | k < |c| :: SupplyAt(supply, index, c, k)
  }

  ghost predicate SupplyAt(supply: map<nat, int>, index: TxIndex, c: seq<Block>, k: nat)
    requires k < |c|
  {
    k in supply && supply[k] == Outs(Anyone, c[..k + 1]) - Ins(Anyone, index, c[..k + 1])
  }

  ghost predicate OutputsCounted(u: UtxoSet, c: seq<Block>) {
    forall p :: Total(p, u) == Outs(p, c)
  }

  ghost predicate Recorded(s: Store, c: seq<Block>) {
    && SupplyRecorded(s.supply, s.txs, c)
    && s.history == HistoryOf(s.txs, c)
    && OutputsCounted(s.utxos, c)
  }

  // ---------------------------------------------------------------- the same outputs behind the same inputs

  ghost predicate SameBehind(i1: TxIndex, i2: TxIndex, c: seq<Block>) {
    forall k, op | 0 <= k < |c| && op in InputsOf(c[k].txs) :: PrevOutput(i1, op) == PrevOutput(i2, op)
  }

  lemma SameOf(i1: TxIndex, i2: TxIndex, txs: seq<Transaction>)
    requires forall op | op in InputsOf(txs) :: PrevOutput(i1, op) == PrevOutput(i2, op)
    ensures Known(i1, txs) <==> Known(i2, txs)
    ensures Behind(i1, txs) == Behind(i2, txs)
    ensures forall p :: InsOf(p, i1, txs) == InsOf(p, i2, txs)
  {
  }

  lemma {:induction false} SameBehindTotals(i1: TxIndex, i2: TxIndex, c: seq<Block>)
    requires SameBehind(i1, i2, c)
    ensures forall p :: Ins(p, i1, c) == Ins(p, i2, c)
    ensures HistoryOf(i1, c) == HistoryOf(i2, c)
  {
    hide InputsOf, PrevOutput, InsOf, Known, Behind, IndexTxs;
    if c != [] {
      var front, b := c[..|c| - 1], c[|c| - 1];
      assert forall k | 0 <= k < |front| :: front[k] == c[k];
      SameBehindTotals(i1, i2, front);
      SameOf(i1, i2, b.txs);
    }
  }

  lemma SupplyMoved(supply: map<nat, int>, more: map<nat, int>, i1: TxIndex, i2: TxIndex, c: seq<Block>, d: seq<Block>)
    requires SupplyRecorded(supply, i1, c) && SameBehind(i1, i2, d) && |d| <= |c| && c[..|d|] == d
    requires forall k: nat | k < |d| :: k in supply ==> k in more && more[k] == supply[k]
    ensures SupplyRecorded(more, i2, d)
  {
    hide InputsOf, PrevOutput, Outs, Ins;
    forall k: nat | k < |d| ensures SupplyAt(more, i2, d, k) {
      assert SupplyAt(supply, i1, c, k) && c[..k + 1] == d[..k + 1];
      assert forall j | 0 <= j < k + 1 :: d[..k + 1][j] == d[j];
      SameBehindTotals(i1, i2, d[..k + 1]);
    }
  }

  // ---------------------------------------------------------------- inputs of stored blocks are known

  lemma StoredTx(s: Store, c: seq<Block>, k: nat, i: nat)
    requires Stands(s, c) && k < |c| && i < |c[k].txs|
    ensures var t := c[k].txs[i].txid; t in s.txs && s.txs[t].tx == c[k].txs[i] && s.txs[t].blockHash == c[k].hash
  {
    StandsGetBlock(s, c, k);
    StandsAgree(s, c);
    hide Stands, OneLine, RecordsPlaced, BlocksIndexed;
    TxAtPlace(s, c[k], i);
  }

  lemma TxAtPlace(s: Store, b: Block, i: nat)
    requires TxsAgree(s) && s.GetBlock(b.hash) == Some(b) && i < |b.txs|
    ensures var t := b.txs[i].txid; t in s.txs && s.txs[t].tx == b.txs[i] && s.txs[t].blockHash == b.hash
  {
    var txids := s.blocks[b.hash].txids;
    assert TxidsIndexed(txids, s.txs, b.hash);
    assert Placed(s.blocks, s.txs[txids[i]], txids[i]);
  }

  /** An input of a transaction list belongs to one of its transactions. */
  lemma InputOfTx(txs: seq<Transaction>, op: Outpoint) returns (j: nat)
    requires op in InputsOf(txs)
    ensures j < |txs| && op in txs[j].Spends()
  {
    InputsOfHas(txs, op);
    var k, i :| 0 <= k < |txs| && 0 <= i < |txs[k].Spends()| && txs[k].Spends()[i] == op;
    j := k;
  }

  lemma StandsKnows(s: Store, c: seq<Block>, k: nat)
    requires Stands(s, c) && k < |c|
    ensures Known(s.txs, c[k].txs)
  {
    hide Loads, WellFormed;
    forall op | op in InputsOf(c[k].txs) ensures PrevOutput(s.txs, op).Some? {
      var j := InputOfTx(c[k].txs, op);
      StoredTx(s, c, k, j);
      assert KnowsInputs(s.txs, s.txs[c[k].txs[j].txid]);
    }
  }

  // ---------------------------------------------------------------- connecting

  lemma TotalMarkers(p: Payee, u: UtxoSet, inputs: seq<Outpoint>, h: nat, txid: Hash)
    ensures Total(p, SpendAll(u, inputs, h, txid)) == Total(p, u)
  {
    assert Amounts(p, SpendAll(u, inputs, h, txid)) == Amounts(p, u);
  }

  lemma TotalAdd(p: Payee, u: UtxoSet, op: Outpoint, x: Utxo)
    requires op !in u
    ensures Total(p, u[op := x]) == Total(p, u) + Amount(p, x.output)
  {
    SumUpdate(Amounts(p, u), op, Amount(p, x.output));
    assert Amounts(p, u[op := x]) == Amounts(p, u)[op := Amount(p, x.output)];
  }

  lemma {:induction false} TotalCreate(p: Payee, u: UtxoSet, tx: Transaction, h: nat, n: nat)
    requires n <= |tx.outputs| && Created(tx) !! u.Keys
    ensures Total(p, u + NewUtxosUpTo(tx, h, n)) == Total(p, u) + OutValue(p, tx.outputs[..n])
  {
    hide Total;
    if n == 0 {
      assert u + NewUtxosUpTo(tx, h, 0) == u;
    } else {
      TotalCreate(p, u, tx, h, n - 1);
      var op := Outpoint(tx.txid, n - 1);
      assert op in Created(tx);
      NewUtxosStep(u, tx, h, n);
      assert tx.outputs[..n][..n - 1] == tx.outputs[..n - 1];
      TotalAdd(p, u + NewUtxosUpTo(tx, h, n - 1), op, NewUtxo(tx, n - 1, h));
    }
  }

  /** A block adds its outputs to the total, whatever it spends. */
  lemma {:induction false} TotalApply(p: Payee, refs: Refs, a: Applied, txs: seq<Transaction>, h: nat)
    requires ApplyTxs(refs, a, txs, h).Ok? && CreatedBy(txs) !! a.utxos.Keys && DistinctTxids(txs)
    ensures Total(p, ApplyTxs(refs, a, txs, h).value.utxos) == Total(p, a.utxos) + TotalOut(p, txs)
  {
    hide Total, SpendInputs, Created, SpendAll;
    if txs != [] {
      var front, last := txs[..|txs| - 1], txs[|txs| - 1];
      TotalApply(p, refs, a, front, h);
      LastTxFresh(refs, a, txs, h);
      var q := ApplyTxs(refs, a, front, h).value;
      SpendInputsSpec(refs, q, last.Spends(), h, last.txid);
      TotalMarkers(p, q.utxos, last.Spends(), h, last.txid);
      SpendAllKeys(q.utxos, last.Spends(), h, last.txid);
      TotalCreate(p, SpendAll(q.utxos, last.Spends(), h, last.txid), last, h, |last.outputs|);
      assert last.outputs[..|last.outputs|] == last.outputs;
    }
  }

  lemma SpendAllKeys(u: UtxoSet, inputs: seq<Outpoint>, h: nat, txid: Hash)
    ensures SpendAll(u, inputs, h, txid).Keys == u.Keys
  {
  }

  lemma CapturedKeys(refs: Refs, s: Store, b: Block)
    requires UtxosAgree(s.txs, s.utxos) && Fresh(s, b) && Append(refs, s, b).Ok?
    ensures SpentWhile(refs, s, b).Keys == InputsOf(b.txs)
  {
    CreatedFresh(s, b);
    SpentAreOutputs(refs, StartApply(s.utxos), b.txs, Height(s) + 1);
  }

  lemma CapturedOutputs(refs: Refs, s: Store, b: Block)
    requires WellFormed(s) && Extends(s, b) && Append(refs, s, b).Ok?
    ensures UtxosAgree(s.txs, s.utxos) && Fresh(s, b)
    ensures forall op | op in SpentWhile(refs, s, b) ::
      PrevOutput(Append(refs, s, b).value.txs, op) == Some(SpentWhile(refs, s, b)[op])
  {
    hide OneLine, TxsAgree, UtxosAgree, HistoryAgrees, ConnectBlock, ApplyTxs, PrevOutput;
    AppendHistoryAgrees(refs, s, b);
  }

  lemma BehindIs(index: TxIndex, txs: seq<Transaction>, spent: map<Outpoint, TxOutput>)
    requires spent.Keys == InputsOf(txs) && forall op | op in spent :: PrevOutput(index, op) == Some(spent[op])
    ensures Known(index, txs) && spent == Behind(index, txs)
  {
    hide InputsOf, PrevOutput;
    assert forall op | op in InputsOf(txs) :: op in spent.Keys;
  }

  /** The outputs captured while a block is connected are those behind its inputs. */
  lemma CapturedBehind(refs: Refs, s: Store, b: Block)
    requires WellFormed(s) && Extends(s, b) && Append(refs, s, b).Ok?
    ensures Known(Append(refs, s, b).value.txs, b.txs)
    ensures SpentWhile(refs, s, b) == Behind(Append(refs, s, b).value.txs, b.txs)
  {
    hide *;
    CapturedOutputs(refs, s, b);
    CapturedKeys(refs, s, b);
    BehindIs(Append(refs, s, b).value.txs, b.txs, SpentWhile(refs, s, b));
  }

  /** The inputs of a block that are spent already. */
  function AlreadySpent(u: UtxoSet, txs: seq<Transaction>): set<Outpoint> {
    set op | op in u && op in InputsOf(txs) && u[op].IsSpent()
  }

  lemma SupplyUpdated(refs: Refs, s: Store, b: Block)
    requires s.tip.Some? && Append(refs, s, b).Ok?
    ensures var r, h := Append(refs, s, b).value, Height(s) + 1;
      Height(r) == h && h in r.supply && r.supply == s.supply[h := r.supply[h]]
  {
    hide ApplyTxs, StoreTxs, IndexTxs;
  }

  lemma SpentAreAlready(u: UtxoSet, txs: seq<Transaction>)
    ensures SpentAre(u, txs, AlreadySpent(u, txs))
  {
  }

  lemma InsAre(p: Payee, index: TxIndex, txs: seq<Transaction>)
    requires Known(index, txs)
    ensures Covers(Behind(index, txs), txs) && InsOf(p, index, txs) == TotalIn(p, txs, Behind(index, txs))
  {
    KnownCovers(index, txs);
  }

  lemma AppendSupplyEntry(refs: Refs, s: Store, b: Block)
    requires WellFormed(s) && s.tip.Some? && Extends(s, b) && Append(refs, s, b).Ok?
    ensures var r, h := Append(refs, s, b).value, Height(s) + 1;
      && r.supply.Keys == s.supply.Keys + {h} && (forall k | k in s.supply && k != h :: r.supply[k] == s.supply[k])
      && r.supply[h] == s.GetMoneySupply(Height(s)) + TotalOut(Anyone, b.txs) - InsOf(Anyone, r.txs, b.txs)
  {
    hide *;
    var r := Append(refs, s, b).value;
    CapturedBehind(refs, s, b);
    InsAre(Anyone, r.txs, b.txs);
    SpentAreAlready(s.utxos, b.txs);
    BlockTotals(refs, s, b, AlreadySpent(s.utxos, b.txs), Anyone);
    SupplyUpdated(refs, s, b);
    SupplyReadAt(r, Height(r));
  }

  lemma SupplyReadAt(s: Store, h: nat)
    ensures h in s.supply ==> s.GetMoneySupply(h) == s.supply[h]
  {
  }

  lemma AppendHistory(refs: Refs, s: Store, b: Block)
    requires s.tip.Some? && Append(refs, s, b).Ok?
    ensures Append(refs, s, b).value.history == IndexTxs(s.history, b.txs, Height(s) + 1, b.hash, SpentWhile(refs, s, b))
  {
    hide ApplyTxs, StoreTxs, IndexTxs;
  }

  lemma SamePrev(index: TxIndex, more: TxIndex, op: Outpoint)
    requires PrevOutput(index, op).Some? && op.hash in more && more[op.hash] == index[op.hash]
    ensures PrevOutput(more, op) == PrevOutput(index, op)
  {
  }

  lemma ExtendsIs(s: Store, b: Block)
    requires Extends(s, b)
    ensures s.tip.Some? && Fresh(s, b)
  {
  }

  lemma AppendGrows(refs: Refs, s: Store, b: Block)
    requires s.tip.Some? && Fresh(s, b) && Append(refs, s, b).Ok?
    ensures forall t | t in s.txs :: t in Append(refs, s, b).value.txs && Append(refs, s, b).value.txs[t] == s.txs[t]
  {
    AppendFields(refs, s, b);
    FreshTxidSet(s, b);
    assert b.txs[..|b.txs|] == b.txs;
    hide Append, StoreTxs, TxidSet;
    StoreTxsSpec(s.txs, b, Height(s) + 1, |b.txs|);
  }

  lemma SameIf(i1: TxIndex, i2: TxIndex, c: seq<Block>)
    requires forall t | t in i1 :: t in i2 && i2[t] == i1[t]
    requires forall k | 0 <= k < |c| :: Known(i1, c[k].txs)
    ensures SameBehind(i1, i2, c)
  {
    hide InputsOf;
    forall k, op | 0 <= k < |c| && op in InputsOf(c[k].txs) ensures PrevOutput(i1, op) == PrevOutput(i2, op) {
      assert Known(i1, c[k].txs);
      SamePrev(i1, i2, op);
    }
  }

  lemma AppendSameBehind(refs: Refs, s: Store, c: seq<Block>, b: Block)
    requires Stands(s, c) && s.tip.Some? && Fresh(s, b) && Append(refs, s, b).Ok?
    ensures SameBehind(s.txs, Append(refs, s, b).value.txs, c)
  {
    hide *;
    AppendGrows(refs, s, b);
    forall k | 0 <= k < |c| ensures Known(s.txs, c[k].txs) { StandsKnows(s, c, k); }
    SameIf(s.txs, Append(refs, s, b).value.txs, c);
  }

  lemma AppendOutputs(refs: Refs, s: Store, c: seq<Block>, b: Block)
    requires WellFormed(s) && Extends(s, b) && Append(refs, s, b).Ok? && OutputsCounted(s.utxos, c)
    ensures OutputsCounted(Append(refs, s, b).value.utxos, c + [b])
  {
    CreatedFresh(s, b);
    AppendUtxos(refs, s, b);
    assert (c + [b])[..|c|] == c;
    hide WellFormed, Append, Total, ApplyTxs, TotalOut;
    forall p ensures Total(p, Append(refs, s, b).value.utxos) == Outs(p, c + [b]) {
      TotalApply(p, refs, StartApply(s.utxos), b.txs, Height(s) + 1);
      assert Total(p, s.utxos) == Outs(p, c);
    }
  }

  lemma SupplyBelow(supply: map<nat, int>, index: TxIndex, c: seq<Block>, b: Block, k: nat)
    requires SupplyRecorded(supply, index, c) && k < |c|
    ensures SupplyAt(supply, index, c + [b], k)
  {
    hide Outs, Ins;
    assert SupplyAt(supply, index, c, k) && (c + [b])[..k + 1] == c[..k + 1];
  }

  lemma SupplyOnTop(supply: map<nat, int>, index: TxIndex, c: seq<Block>, b: Block)
    requires c != [] && SupplyRecorded(supply, index, c) && |c| in supply && |c| - 1 in supply
    requires supply[|c|] == supply[|c| - 1] + TotalOut(Anyone, b.txs) - InsOf(Anyone, index, b.txs)
    ensures SupplyAt(supply, index, c + [b], |c|)
  {
    hide TotalOut, InsOf;
    var d := c + [b];
    assert SupplyAt(supply, index, c, |c| - 1) && c[..|c| - 1 + 1] == c;
    assert d[..|c| + 1] == d && d[..|d| - 1] == c && d[|d| - 1] == b;
  }

  lemma SupplyRead(s: Store, c: seq<Block>, h: nat)
    requires SupplyRecorded(s.supply, s.txs, c) && h < |c|
    ensures h in s.supply && s.GetMoneySupply(h) == s.supply[h]
  {
    assert SupplyAt(s.supply, s.txs, c, h);
    hide Outs, Ins;
  }

  lemma SupplyIs(supply: map<nat, int>, index: TxIndex, c: seq<Block>)
    requires forall k: nat | k < |c| :: SupplyAt(supply, index, c, k)
    ensures SupplyRecorded(supply, index, c)
  {
    hide Outs, Ins;
  }

  lemma AppendSupplyRecorded(refs: Refs, s: Store, c: seq<Block>, b: Block)
    requires Stands(s, c) && Recorded(s, c) && Extends(s, b) && Append(refs, s, b).Ok?
    ensures var r := Append(refs, s, b).value; SupplyRecorded(r.supply, r.txs, c + [b])
  {
    hide *;
    var r := Append(refs, s, b).value;
    RecordedCounts(s, c);
    StandsTip(s, c);
    AppendSupplyEntry(refs, s, b);
    ExtendsIs(s, b);
    AppendSameBehind(refs, s, c, b);
    SupplyRead(s, c, |c| - 1);
    assert c[..|c|] == c;
    SupplyMoved(s.supply, r.supply, s.txs, r.txs, c, c);
    SupplyOnTop(r.supply, r.txs, c, b);
    forall k: nat | k < |c + [b]| ensures SupplyAt(r.supply, r.txs, c + [b], k) {
      if k < |c| { SupplyBelow(r.supply, r.txs, c, b, k); }
    }
    SupplyIs(r.supply, r.txs, c + [b]);
  }

  lemma AppendHistoryRecorded(refs: Refs, s: Store, c: seq<Block>, b: Block)
    requires Stands(s, c) && Recorded(s, c) && Extends(s, b) && Append(refs, s, b).Ok?
    ensures var r := Append(refs, s, b).value; r.history == HistoryOf(r.txs, c + [b])
  {
    var r, d := Append(refs, s, b).value, c + [b];
    StandsTip(s, c);
    AppendHistory(refs, s, b);
    CapturedBehind(refs, s, b);
    AppendSameBehind(refs, s, c, b);
    hide Append, Stands, WellFormed, Extends, SpentWhile, Behind, Known, SameBehind, IndexTxs, SupplyRecorded, OutputsCounted;
    SameBehindTotals(s.txs, r.txs, c);
    assert d[..|d| - 1] == c && d[|d| - 1] == b;
  }

  lemma RecordedIs(s: Store, c: seq<Block>)
    requires SupplyRecorded(s.supply, s.txs, c) && s.history == HistoryOf(s.txs, c) && OutputsCounted(s.utxos, c)
    ensures Recorded(s, c)
  {
  }

  lemma RecordedCounts(s: Store, c: seq<Block>)
    requires Recorded(s, c)
    ensures SupplyRecorded(s.supply, s.txs, c) && s.history == HistoryOf(s.txs, c) && OutputsCounted(s.utxos, c)
  {
  }

  lemma RecordedAppend(refs: Refs, s: Store, c: seq<Block>, b: Block)
    requires Stands(s, c) && Recorded(s, c) && Extends(s, b) && Append(refs, s, b).Ok?
    ensures Recorded(Append(refs, s, b).value, c + [b])
  {
    hide *;
    RecordedCounts(s, c);
    StandsTip(s, c);
    AppendSupplyRecorded(refs, s, c, b);
    AppendHistoryRecorded(refs, s, c, b);
    AppendOutputs(refs, s, c, b);
    RecordedIs(Append(refs, s, b).value, c + [b]);
  }

  /** Every accepted batch keeps the stored totals recorded. */
  lemma {:induction false} RecordedBatch(refs: Refs, s: Store, c: seq<Block>, blocks: seq<Block>)
    requires Stands(s, c) && Recorded(s, c) && ExtendsAll(refs, s, blocks) && AppendAll(refs, s, blocks).Ok?
    ensures Recorded(AppendAll(refs, s, blocks).value, c + blocks)
  {
    hide Append, Extends, Recorded, Stands;
    if blocks == [] {
      assert c + blocks == c;
    } else {
      var front, b := blocks[..|blocks| - 1], blocks[|blocks| - 1];
      RecordedBatch(refs, s, c, front);
      StandsBatch(refs, s, c, front);
      RecordedAppend(refs, AppendAll(refs, s, front).value, c + front, b);
      assert c + front + [b] == c + blocks;
    }
  }

  // ---------------------------------------------------------------- replayed chains

  lemma {:induction false} CoinbasesSpendNothing(p: Payee, txs: seq<Transaction>)
    requires forall i | 0 <= i < |txs| :: txs[i].IsCoinbase()
    ensures InputsOf(txs) == {} && Covers(map[], txs) && TotalIn(p, txs, map[]) == 0
  {
    assert forall i | 0 <= i < |txs| :: txs[i].Spends() == [];
    if txs != [] {
      CoinbasesSpendNothing(p, txs[..|txs| - 1]);
      assert InValue(p, [], map[]) == 0;
    }
  }

  lemma GenesisIns(p: Payee, index: TxIndex, g: Block)
    requires GoodGenesis(g)
    ensures Known(index, g.txs) && Behind(index, g.txs) == map[] && InsOf(p, index, g.txs) == 0
  {
    CoinbasesSpendNothing(p, g.txs);
    assert Behind(index, g.txs) == map[];
  }

  lemma GenesisOutputs(g: Block)
    requires GoodGenesis(g) && InitGenesis(g).Ok?
    ensures OutputsCounted(InitGenesis(g).value.utxos, [g])
  {
    hide Total, ApplyTxs, StoreTxs, IndexTxs, TotalOut;
    assert [g][..0] == [];
    forall p ensures Total(p, InitGenesis(g).value.utxos) == Outs(p, [g]) {
      TotalApply(p, EMPTY_STORE.SpendRefs(), StartApply(EMPTY_STORE.utxos), g.txs, 0);
      TotalNone(p);
      assert Outs(p, []) == 0;
    }
  }

  lemma TotalNone(p: Payee)
    ensures Total(p, map[]) == 0
  {
    assert Amounts(p, map[]) == map[];
  }

  lemma GenesisFields(g: Block)
    requires GoodGenesis(g) && InitGenesis(g).Ok?
    ensures var s := InitGenesis(g).value;
      && 0 in s.supply && s.supply[0] == TotalOut(Anyone, g.txs)
      && Covers(map[], g.txs) && s.history == IndexTxs(map[], g.txs, 0, g.hash, map[])
  {
    CoinbaseTotals(Anyone, EMPTY_STORE.SpendRefs(), StartApply(EMPTY_STORE.utxos), g.txs, 0);
    CoinbasesSpendNothing(Anyone, g.txs);
    hide ApplyTxs, StoreTxs, IndexTxs, TotalOut, TotalIn, Unspent;
  }

  lemma GenesisRecorded(g: Block)
    requires GoodGenesis(g) && InitGenesis(g).Ok?
    ensures Recorded(InitGenesis(g).value, [g])
  {
    var s := InitGenesis(g).value;
    GenesisFields(g);
    GenesisOutputs(g);
    GenesisIns(Anyone, s.txs, g);
    hide TotalOut, InsOf, InitGenesis, Known, Behind, IndexTxs, OutputsCounted;
    assert [g][..0] == [] && [g][..1] == [g];
    assert HistoryOf(s.txs, []) == map[] && Ins(Anyone, s.txs, []) == 0 && Outs(Anyone, []) == 0;
    assert SupplyAt(s.supply, s.txs, [g], 0);
  }

  lemma {:induction false} ReplayRecorded(c: seq<Block>)
    requires Replayable(c)
    ensures Recorded(Replayed(c), c)
  {
    hide *;
    ReplayStep(c);
    if |c| == 1 {
      assert c == [c[0]];
      GenesisRecorded(c[0]);
    } else {
      var front := c[..|c| - 1];
      ReplayRecorded(front);
      ReplayStands(front);
      RecordedAppend(Replayed(front).SpendRefs(), Replayed(front), front, c[|c| - 1]);
    }
  }

  /** Supply entries above the tip play no part. */
  lemma RecordedSupply(s: Store, t: Store, c: seq<Block>)
    requires Recorded(t, c) && s == t.(supply := s.supply)
    requires forall k: nat | k in t.supply && k < |c| :: k in s.supply && s.supply[k] == t.supply[k]
    ensures Recorded(s, c)
  {
    hide *;
    RecordedCounts(t, c);
    SameItself(t.txs, c);
    assert c[..|c|] == c;
    SupplyMoved(t.supply, s.supply, t.txs, t.txs, c, c);
    RecordedIs(s, c);
  }

  lemma SameItself(index: TxIndex, c: seq<Block>)
    ensures SameBehind(index, index, c)
  {
  }

  /** A store that holds a chain has its totals recorded. */
  lemma HoldsRecorded(s: Store, c: seq<Block>)
    requires Holds(s, c)
    ensures Recorded(s, c)
  {
    ReplayRecorded(c);
    hide Replayable, ReplayChain, Recorded;
    assert s == Replayed(c).(supply := s.supply);
    RecordedSupply(s, Replayed(c), c);
  }

  // ---------------------------------------------------------------- disconnecting

  lemma TotalUnmark(p: Payee, u: UtxoSet, ops: set<Outpoint>)
    ensures Total(p, UnspendAll(u, ops)) == Total(p, u)
  {
    assert Amounts(p, UnspendAll(u, ops)) == Amounts(p, u);
  }

  lemma TotalRemove(p: Payee, u: UtxoSet, op: Outpoint)
    requires op in u
    ensures Total(p, u - {op}) == Total(p, u) - Amount(p, u[op].output)
  {
    SumRemove(Amounts(p, u), op);
    assert Amounts(p, u - {op}) == Amounts(p, u) - {op};
  }

  /** The outputs of a transaction are entered as the transaction has them. */
  ghost predicate Entered(u: UtxoSet, tx: Transaction) {
    forall i | 0 <= i < |tx.outputs| :: Outpoint(tx.txid, i) in u && u[Outpoint(tx.txid, i)].output == tx.outputs[i]
  }

  lemma {:induction false} TotalDrop(p: Payee, u: UtxoSet, tx: Transaction, n: nat)
    requires n <= |tx.outputs| && Entered(u, tx)
    ensures Total(p, u - CreatedUpTo(tx, n)) == Total(p, u) - OutValue(p, tx.outputs[..n])
  {
    hide Total;
    if n == 0 {
      assert u - CreatedUpTo(tx, 0) == u;
    } else {
      TotalDrop(p, u, tx, n - 1);
      var v, op := u - CreatedUpTo(tx, n - 1), Outpoint(tx.txid, n - 1);
      assert v - {op} == u - CreatedUpTo(tx, n);
      assert tx.outputs[..n][..n - 1] == tx.outputs[..n - 1];
      assert op in v && v[op] == u[op];
      TotalRemove(p, v, op);
    }
  }

  lemma EnteredWithout(u: UtxoSet, txs: seq<Transaction>)
    requires txs != [] && DistinctTxids(txs) && forall i | 0 <= i < |txs| :: Entered(u, txs[i])
    ensures Entered(u - CreatedBy(txs[..|txs| - 1]), txs[|txs| - 1])
  {
    var last := txs[|txs| - 1];
    CreatedApart(txs);
    assert forall i | 0 <= i < |last.outputs| :: Outpoint(last.txid, i) in Created(last);
    assert Entered(u, txs[|txs| - 1]);
  }

  lemma {:induction false} TotalDropAll(p: Payee, u: UtxoSet, txs: seq<Transaction>)
    requires DistinctTxids(txs) && forall i | 0 <= i < |txs| :: Entered(u, txs[i])
    ensures Total(p, u - CreatedBy(txs)) == Total(p, u) - TotalOut(p, txs)
  {
    hide Total, Entered, Created;
    if txs == [] {
      assert u - {} == u;
    } else {
      var front, last := txs[..|txs| - 1], txs[|txs| - 1];
      assert forall i | 0 <= i < |front| :: front[i] == txs[i];
      TotalDropAll(p, u, front);
      EnteredWithout(u, txs);
      TotalDrop(p, u - CreatedBy(front), last, |last.outputs|);
      assert last.outputs[..|last.outputs|] == last.outputs;
      MinusTwice(u, CreatedBy(front), Created(last));
      CreatedIs(last);
    }
  }

  lemma CreatedIs(tx: Transaction)
    ensures Created(tx) == CreatedUpTo(tx, |tx.outputs|)
  {
  }

  lemma TopEntered(s: Store, b: Block, i: nat)
    requires AtPlace(s.txs, b, Height(s)) && UtxosAgree(s.txs, s.utxos) && OutputsHeld(s.txs, s.utxos) && i < |b.txs|
    ensures Entered(s.utxos, b.txs[i])
  {
    var tx := b.txs[i];
    assert tx.txid in s.txs && s.txs[tx.txid].tx == tx;
    forall j | 0 <= j < |tx.outputs|
      ensures Outpoint(tx.txid, j) in s.utxos && s.utxos[Outpoint(tx.txid, j)].output == tx.outputs[j]
    {
      assert PrevOutput(s.txs, Outpoint(tx.txid, j)) == Some(tx.outputs[j]);
    }
  }

  /** What a disconnect of the top leaves of the tables that carry totals. */
  lemma DisconnectTables(s: Store, c: seq<Block>)
    requires Stands(s, c) && |c| > 1
    ensures var b, d := c[|c| - 1], DisconnectBlock(s, c[|c| - 1]);
      && d.Ok? && d.value.supply == s.supply && d.value.txs == s.txs - TxidSet(b.txs)
      && d.value.utxos == UnspendAll(s.utxos - CreatedBy(b.txs), InputsOf(b.txs))
      && d.value.history == s.history - UndoKeys(s.txs, b.txs, |c| - 1)
      && AtPlace(s.txs, b, |c| - 1) && Height(s) == |c| - 1
  {
    StandsTip(s, c);
    StandsOnTop(s, c);
    StandsAgree(s, c);
    CompleteLinked(s);
    hide Stands, WellFormed, OneLine, TxsAgree, Complete, Linked, OnTop, UnspendAll, UndoKeys, InputsOf, CreatedBy;
    DisconnectFields(s, c[|c| - 1]);
    TopAtPlace(s, c[|c| - 1]);
    assert DisconnectBlock(s, c[|c| - 1]).value.supply == s.supply;
  }

  lemma StandsOutputs(s: Store, c: seq<Block>)
    requires Stands(s, c)
    ensures UtxosAgree(s.txs, s.utxos) && OutputsHeld(s.txs, s.utxos) && InputsKnown(s.txs)
  {
  }

  lemma TopTotal(p: Payee, s: Store, b: Block)
    requires AtPlace(s.txs, b, Height(s)) && UtxosAgree(s.txs, s.utxos) && OutputsHeld(s.txs, s.utxos)
    ensures Total(p, UnspendAll(s.utxos - CreatedBy(b.txs), InputsOf(b.txs))) == Total(p, s.utxos) - TotalOut(p, b.txs)
  {
    hide *;
    forall i: nat | i < |b.txs| ensures Entered(s.utxos, b.txs[i]) { TopEntered(s, b, i); }
    AtPlaceDistinct(s.txs, b, Height(s));
    TotalDropAll(p, s.utxos, b.txs);
    TotalUnmark(p, s.utxos - CreatedBy(b.txs), InputsOf(b.txs));
  }

  lemma DisconnectOutputs(s: Store, c: seq<Block>)
    requires Stands(s, c) && |c| > 1 && OutputsCounted(s.utxos, c) && DisconnectBlock(s, c[|c| - 1]).Ok?
    ensures OutputsCounted(DisconnectBlock(s, c[|c| - 1]).value.utxos, c[..|c| - 1])
  {
    DisconnectTables(s, c);
    StandsOutputs(s, c);
    hide DisconnectBlock, Stands, UtxosAgree, OutputsHeld, InputsKnown, AtPlace, Total, UnspendAll, CreatedBy, InputsOf, TotalOut;
    var u, front := DisconnectBlock(s, c[|c| - 1]).value.utxos, c[..|c| - 1];
    forall p ensures Total(p, u) == Outs(p, front) {
      TopTotal(p, s, c[|c| - 1]);
      assert Total(p, s.utxos) == Outs(p, c);
    }
  }

  lemma AtPlaceDistinct(index: TxIndex, b: Block, h: nat)
    requires AtPlace(index, b, h)
    ensures DistinctTxids(b.txs)
  {
  }

  lemma DisconnectSameBehind(s: Store, c: seq<Block>)
    requires Stands(s, c) && |c| > 1
    ensures SameBehind(s.txs, s.txs - TxidSet(c[|c| - 1].txs), c[..|c| - 1])
  {
    var b, front, rest := c[|c| - 1], c[..|c| - 1], s.txs - TxidSet(c[|c| - 1].txs);
    DisconnectTables(s, c);
    StandsOutputs(s, c);
    StandsAgree(s, c);
    StandsTip(s, c);
    TopCut(s, b);
    TopTxids(s.txs, b, |c| - 1);
    hide Stands, WellFormed, Complete, DisconnectBlock, UtxosAgree, OutputsHeld, InputsKnown, AtPlace, Lowered, InputsOf, OneLine, TxsAgree, TxidSet;
    forall k, op | 0 <= k < |front| && op in InputsOf(front[k].txs) ensures PrevOutput(s.txs, op) == PrevOutput(rest, op) {
      var j := InputOfTx(front[k].txs, op);
      StoredTx(s, c, k, j);
      var t := front[k].txs[j].txid;
      OtherBlock(s, c, k);
      assert t in rest;
      PrevKept(s.txs, rest, TxidSet(b.txs), |c| - 1, t);
    }
  }

  lemma OtherBlock(s: Store, c: seq<Block>, k: nat)
    requires Stands(s, c) && k < |c| - 1
    ensures c[k].hash != c[|c| - 1].hash
  {
    hide Stands;
    StandsGetBlock(s, c, k);
    StandsGetBlock(s, c, |c| - 1);
  }

  /** Undoing the history of the top block leaves the history of the blocks below. */
  lemma HistoryUndone(s: Store, c: seq<Block>)
    requires Stands(s, c) && |c| > 1 && s.history == HistoryOf(s.txs, c)
    ensures s.history - UndoKeys(s.txs, c[|c| - 1].txs, |c| - 1) == HistoryOf(s.txs, c[..|c| - 1])
  {
    var b, front, h := c[|c| - 1], c[..|c| - 1], |c| - 1;
    StandsKnows(s, c, h);
    KnownCovers(s.txs, b.txs);
    HistoryBelow(s, c, h);
    hide Stands, InputsOf, IndexTxs, UndoKeys, Known;
    UndoHistory(HistoryOf(s.txs, front), s.txs, b.txs, h, b.hash, Behind(s.txs, b.txs));
  }

  lemma StoredTxids(s: Store, c: seq<Block>, k: nat, t: Hash)
    requires Stands(s, c) && k < |c| && t in TxidSet(c[k].txs)
    ensures t in s.txs && s.txs[t].blockHash == c[k].hash
  {
    var i: nat :| 0 <= i < |c[k].txs| && c[k].txs[i].txid == t;
    StoredTx(s, c, k, i);
  }

  /** The history of lower blocks names none of the transactions of a higher block. */
  lemma {:induction false} HistoryBelow(s: Store, c: seq<Block>, n: nat)
    requires Stands(s, c) && n < |c|
    ensures forall k | k in HistoryOf(s.txs, c[..n]) :: k.txid in s.txs && exists j :: 0 <= j < n && s.txs[k.txid].blockHash == c[j].hash
    ensures forall k | k in HistoryOf(s.txs, c[..n]) :: k.txid !in TxidSet(c[n].txs)
  {
    hide Stands, TxidSet, IndexTxs, Known, Behind;
    if n > 0 {
      var b := c[n - 1];
      assert c[..n][..n - 1] == c[..n - 1] && c[..n][n - 1] == b;
      HistoryBelow(s, c, n - 1);
      StandsKnows(s, c, n - 1);
      KnownCovers(s.txs, b.txs);
      IndexedTxids(HistoryOf(s.txs, c[..n - 1]), s.txs, b, n - 1);
      forall k | k in HistoryOf(s.txs, c[..n])
        ensures k.txid in s.txs && exists j :: 0 <= j < n && s.txs[k.txid].blockHash == c[j].hash
      {
        if k.txid in TxidSet(b.txs) { StoredTxids(s, c, n - 1, k.txid); }
      }
    }
    forall k | k in HistoryOf(s.txs, c[..n]) ensures k.txid !in TxidSet(c[n].txs) {
      var j: nat :| 0 <= j < n && s.txs[k.txid].blockHash == c[j].hash;
      if k.txid in TxidSet(c[n].txs) {
        StoredTxids(s, c, n, k.txid);
        DistinctBlocks(s, c, j, n);
      }
    }
  }

  lemma DistinctBlocks(s: Store, c: seq<Block>, j: nat, k: nat)
    requires Stands(s, c) && j < k < |c|
    ensures c[j].hash != c[k].hash
  {
    hide Stands;
    StandsGetBlock(s, c, j);
    StandsGetBlock(s, c, k);
  }

  lemma IndexedTxids(hist: History, index: TxIndex, b: Block, h: nat)
    requires Covers(Behind(index, b.txs), b.txs)
    ensures forall k | k in IndexTxs(hist, b.txs, h, b.hash, Behind(index, b.txs)) :: k in hist || k.txid in TxidSet(b.txs)
  {
    IndexTxsSpec(hist, index, b.txs, h, b.hash, Behind(index, b.txs));
    UndoKeysTxids(index, b.txs, h);
  }

  /** Disconnecting the top keeps the stored totals recorded. */
  lemma RecordedDisconnect(s: Store, c: seq<Block>)
    requires Stands(s, c) && Recorded(s, c) && |c| > 1
    ensures DisconnectBlock(s, c[|c| - 1]).Ok?
    ensures Recorded(DisconnectBlock(s, c[|c| - 1]).value, c[..|c| - 1])
  {
    hide *;
    var front := c[..|c| - 1];
    RecordedCounts(s, c);
    StandsDisconnect(s, c);
    DisconnectTables(s, c);
    var d := DisconnectBlock(s, c[|c| - 1]).value;
    DisconnectOutputs(s, c);
    DisconnectSameBehind(s, c);
    HistoryUndone(s, c);
    SameBehindTotals(s.txs, d.txs, front);
    assert c[..|front|] == front;
    SupplyMoved(s.supply, d.supply, s.txs, d.txs, c, front);
    RecordedIs(d, front);
  }

  // ---------------------------------------------------------------- what the totals amount to

  lemma {:induction false} HistoryTotals(s: Store, c: seq<Block>, n: nat, a: nat)
    requires Stands(s, c) && n <= |c| && AllWithinMask(c[..n])
    ensures HistoryTotal(a, true, HistoryOf(s.txs, c[..n])) == Ins(Address(a), s.txs, c[..n])
    ensures HistoryTotal(a, false, HistoryOf(s.txs, c[..n])) == Outs(Address(a), c[..n])
  {
    hide Stands, HistoryTotal, IndexTxs, Known, Behind, TotalIn, TotalOut, WithinMask, TxidSet;
    if n == 0 {
      NoHistory(a);
    } else {
      var front, b, h := c[..n - 1], c[n - 1], n - 1;
      assert c[..n][..n - 1] == front && c[..n][n - 1] == b;
      assert AllWithinMask(front) by { assert forall k | 0 <= k < |front| :: front[k] == c[..n][k]; }
      HistoryTotals(s, c, n - 1, a);
      StandsKnows(s, c, n - 1);
      KnownCovers(s.txs, b.txs);
      HistoryBelow(s, c, n - 1);
      BlockDistinct(s, c, n - 1);
      IndexTxsTotal(a, HistoryOf(s.txs, front), b.txs, h, b.hash, Behind(s.txs, b.txs));
    }
  }

  lemma NoHistory(a: nat)
    ensures HistoryTotal(a, true, map[]) == 0 && HistoryTotal(a, false, map[]) == 0
  {
    assert HistoryAmounts(a, true, map[]) == map[] && HistoryAmounts(a, false, map[]) == map[];
  }

  lemma BlockDistinct(s: Store, c: seq<Block>, k: nat)
    requires Stands(s, c) && k < |c|
    ensures DistinctTxids(c[k].txs)
  {
    StandsGetBlock(s, c, k);
    StandsAgree(s, c);
    hide Stands, OneLine, RecordsPlaced, BlocksIndexed;
    StoredDistinct(s, c[k]);
  }

  lemma StoredDistinct(s: Store, b: Block)
    requires TxsAgree(s) && s.GetBlock(b.hash) == Some(b)
    ensures DistinctTxids(b.txs)
  {
    var txids := s.blocks[b.hash].txids;
    assert TxidsIndexed(txids, s.txs, b.hash);
    forall i, j | 0 <= i < j < |b.txs| ensures b.txs[i].txid != b.txs[j].txid {
      assert Placed(s.blocks, s.txs[txids[i]], txids[i]) && Placed(s.blocks, s.txs[txids[j]], txids[j]);
    }
  }

  lemma CountedFor(p: Payee, u: UtxoSet, c: seq<Block>)
    requires OutputsCounted(u, c)
    ensures Unspent(p, u) == Outs(p, c) - Marked(p, u)
  {
    hide Outs, Unspent, Marked, Total;
    UnspentAndMarked(p, u);
    assert Total(p, u) == Outs(p, c);
  }

  lemma SupplyAtTip(s: Store, c: seq<Block>)
    requires SupplyRecorded(s.supply, s.txs, c) && c != []
    ensures s.GetMoneySupply(|c| - 1) == Outs(Anyone, c) - Ins(Anyone, s.txs, c)
  {
    hide Outs, Ins;
    assert c[..|c| - 1 + 1] == c;
    assert SupplyAt(s.supply, s.txs, c, |c| - 1);
  }

  lemma BalanceOf(s: Store, c: seq<Block>, a: nat)
    requires Stands(s, c) && s.history == HistoryOf(s.txs, c) && OutputsCounted(s.utxos, c) && AllWithinMask(c)
    ensures BalanceDrift(a, s) == Ins(Address(a), s.txs, c) - Marked(Address(a), s.utxos)
  {
    hide Stands, Unspent, HistoryTotal, HistoryOf, Outs, Ins, Marked, AllWithinMask, OutputsCounted;
    assert c[..|c|] == c;
    HistoryTotals(s, c, |c|, a);
    CountedFor(Address(a), s.utxos, c);
  }

  lemma SupplyDriftIs(s: Store)
    ensures SupplyDrift(s) == Unspent(Anyone, s.utxos) - s.GetMoneySupply(Height(s))
  {
  }

  /** In every state the chain can be in, the unspent outputs exceed the stored supply
      by exactly the value of the inputs listed by the stored blocks less the value of
      the outputs marked as spent; and within the index mask the same holds for every
      address, with received minus sent in place of the supply. */
  lemma RecordedDrift(s: Store, c: seq<Block>)
    requires Stands(s, c) && Recorded(s, c)
    ensures SupplyDrift(s) == Ins(Anyone, s.txs, c) - Marked(Anyone, s.utxos)
    ensures AllWithinMask(c) ==> forall a: nat :: BalanceDrift(a, s) == Ins(Address(a), s.txs, c) - Marked(Address(a), s.utxos)
  {
    hide *;
    RecordedCounts(s, c);
    StandsTip(s, c);
    CountedFor(Anyone, s.utxos, c);
    SupplyAtTip(s, c);
    SupplyDriftIs(s);
    if AllWithinMask(c) {
      forall a: nat ensures BalanceDrift(a, s) == Ins(Address(a), s.txs, c) - Marked(Address(a), s.utxos) {
        BalanceOf(s, c, a);
      }
    }
  }

  /** Supply and unspent outputs agree exactly if the blocks list as much value as is
      marked, and so for received minus sent of every address. */
  lemma RecordedMatches(s: Store, c: seq<Block>)
    requires Stands(s, c) && Recorded(s, c)
    ensures SupplyMatches(s) <==> Ins(Anyone, s.txs, c) == Marked(Anyone, s.utxos)
    ensures AllWithinMask(c) ==>
      (BalancesMatch(s) <==> forall a: nat :: Ins(Address(a), s.txs, c) == Marked(Address(a), s.utxos))
  {
    hide *;
    RecordedDrift(s, c);
    DriftsAre(s);
    if AllWithinMask(c) {
      assert forall a: nat :: BalanceDrift(a, s) == 0 <==> Ins(Address(a), s.txs, c) == Marked(Address(a), s.utxos);
    }
  }
}
