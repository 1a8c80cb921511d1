/** What the stored totals mean: the money supply and the address history
    against the unspent outputs. */
module Ledger {
  import opened ChainTypes
  import opened Storage
  import opened Connect
  import opened Undo
  import opened Replay
  import opened Chains
  import opened Batches
  import opened Chunks
  import opened Sums

  // ---------------------------------------------------------------- totals

  /** Total value of the unspent outputs counted for p. */
  ghost function Unspent(p: Payee, u: UtxoSet): int {
    Sum(UnspentAmounts(p, u))
  }

  ghost function UnspentAmounts(p: Payee, u: UtxoSet): map<Outpoint, int> {
    map op | op in u :: if u[op].IsSpent() then 0 else Amount(p, u[op].output)
  }

  /** Total value of the history entries of an address in one direction, as
      GetAddressAggregates adds them up. */
  ghost function HistoryTotal(a: nat, isInput: bool, hist: History): int {
    Sum(HistoryAmounts(a, isInput, hist))
  }

  ghost function HistoryAmounts(a: nat, isInput: bool, hist: History): map<HistoryKey, int> {
    map k | k in hist :: if k.scriptHash == a && hist[k].isInput == isInput then hist[k].value else 0
  }

  /** Value of a list of inputs, each time it is listed. */
  function InValue(p: Payee, inputs: seq<Outpoint>, spent: map<Outpoint, TxOutput>): int
    requires forall op | op in inputs :: op in spent
  {
    if inputs == [] then 0
    else
      var last := inputs[|inputs| - 1];
      assert last in inputs;
      InValue(p, inputs[..|inputs| - 1], spent) + Amount(p, spent[last])
  }

  /** Value of the inputs that repeat one of seen or an earlier one of the list. */
  function RepeatedValue(p: Payee, inputs: seq<Outpoint>, seen: set<Outpoint>, spent: map<Outpoint, TxOutput>): int
    requires forall op | op in inputs :: op in spent
  {
    if inputs == [] then 0
    else
      var front, last := inputs[..|inputs| - 1], inputs[|inputs| - 1];
      assert last in inputs;
      RepeatedValue(p, front, seen, spent) + if last in seen || last in front then Amount(p, spent[last]) else 0
  }

  function TotalIn(p: Payee, txs: seq<Transaction>, spent: map<Outpoint, TxOutput>): int
    requires Covers(spent, txs)
  {
    if txs == [] then 0
    else
      TotalIn(p, txs[..|txs| - 1], spent) + InValue(p, txs[|txs| - 1].Spends(), spent)
  }

  function TotalOut(p: Payee, txs: seq<Transaction>): int {
    if txs == [] then 0
    else TotalOut(p, txs[..|txs| - 1]) + OutValue(p, txs[|txs| - 1].outputs)
  }

  /** Value of the inputs that spend an outpoint of seen, or one the list already spent. */
  function TotalRepeated(p: Payee, txs: seq<Transaction>, seen: set<Outpoint>, spent: map<Outpoint, TxOutput>): int
    requires Covers(spent, txs)
  {
    if txs == [] then 0
    else
      TotalRepeated(p, txs[..|txs| - 1], seen, spent)
      + RepeatedValue(p, txs[|txs| - 1].Spends(), seen + InputsOf(txs[..|txs| - 1]), spent)
  }

  // ---------------------------------------------------------------- unspent outputs of a block

  lemma UnspentSpend(p: Payee, u: UtxoSet, op: Outpoint, h: nat, txid: Hash)
    requires op in u && h > 0
    ensures Unspent(p, u[op := u[op].Spend(h, txid)])
         == Unspent(p, u) - if u[op].IsSpent() then 0 else Amount(p, u[op].output)
  {
    SumUpdate(UnspentAmounts(p, u), op, 0);
    assert UnspentAmounts(p, u[op := u[op].Spend(h, txid)]) == UnspentAmounts(p, u)[op := 0];
  }

  /** Spending a list of inputs removes each unspent one once. */
  lemma {:induction false} SpendInputsUnspent(
      p: Payee, refs: Refs, a: Applied, inputs: seq<Outpoint>, h: nat, txid: Hash, seen: set<Outpoint>, spent: map<Outpoint, TxOutput>)
    requires h > 0 && SpendInputs(refs, a, inputs, h, txid).Ok?
    requires forall op | op in inputs :: op in spent && op in a.utxos && spent[op] == a.utxos[op].output
    requires forall op | op in inputs :: a.utxos[op].IsSpent() <==> op in seen
    ensures var r := SpendInputs(refs, a, inputs, h, txid).value;
      && Unspent(p, r.utxos) == Unspent(p, a.utxos) - InValue(p, inputs, spent) + RepeatedValue(p, inputs, seen, spent)
      && r.valueIn == a.valueIn + InValue(Anyone, inputs, spent)
  {
    if inputs != [] {
      var front, last := inputs[..|inputs| - 1], inputs[|inputs| - 1];
      assert inputs == front + [last];
      assert last in inputs;
      SpendInputsUnspent(p, refs, a, front, h, txid, seen, spent);
      SpendInputsSpec(refs, a, front, h, txid);
      var q := SpendInputs(refs, a, front, h, txid).value;
      UnspentSpend(p, q.utxos, last, h, txid);
    }
  }

  lemma UnspentAdd(p: Payee, u: UtxoSet, op: Outpoint, x: Utxo)
    requires op !in u && !x.IsSpent()
    ensures Unspent(p, u[op := x]) == Unspent(p, u) + Amount(p, x.output)
  {
    SumUpdate(UnspentAmounts(p, u), op, Amount(p, x.output));
    assert UnspentAmounts(p, u[op := x]) == UnspentAmounts(p, u)[op := Amount(p, x.output)];
  }

  lemma {:induction false} CreateUnspent(p: Payee, u: UtxoSet, tx: Transaction, h: nat, n: nat)
    requires n <= |tx.outputs| && Created(tx) !! u.Keys
    ensures Unspent(p, u + NewUtxosUpTo(tx, h, n)) == Unspent(p, u) + OutValue(p, tx.outputs[..n])
  {
    if n == 0 {
      assert u + NewUtxosUpTo(tx, h, 0) == u;
    } else {
      CreateUnspent(p, u, tx, h, n - 1);
      var op := Outpoint(tx.txid, n - 1);
      assert op in Created(tx);
      NewUtxosStep(u, tx, h, n);
      assert tx.outputs[..n][..n - 1] == tx.outputs[..n - 1];
      UnspentAdd(p, u + NewUtxosUpTo(tx, h, n - 1), op, NewUtxo(tx, n - 1, h));
    }
  }

  /** Of the inputs of txs exactly those in seen are spent in u. */
  ghost predicate SpentAre(u: UtxoSet, txs: seq<Transaction>, seen: set<Outpoint>) {
    seen <= u.Keys && forall op | op in InputsOf(txs) && op in u :: u[op].IsSpent() <==> op in seen
  }

  /** The inputs of the next transaction are spent already exactly if they were spent
      before the block or the block spent them. */
  lemma SpentSoFar(refs: Refs, a: Applied, txs: seq<Transaction>, h: nat, seen: set<Outpoint>)
    requires txs != [] && h > 0 && ApplyTxs(refs, a, txs, h).Ok?
    requires CreatedBy(txs) !! a.utxos.Keys && DistinctTxids(txs) && SpentAre(a.utxos, txs, seen)
    ensures var front, last := txs[..|txs| - 1], txs[|txs| - 1];
      var p := ApplyTxs(refs, a, front, h).value;
      && Created(last) !! p.utxos.Keys
      && forall op | op in last.Spends() :: op in p.utxos && (p.utxos[op].IsSpent() <==> op in seen + InputsOf(front))
  {
    var front, last := txs[..|txs| - 1], txs[|txs| - 1];
    var p := ApplyTxs(refs, a, front, h).value;
    LastTxFresh(refs, a, txs, h);
    ApplyTxsShape(refs, a, front, h);
    ApplyTxsMarks(refs, a, front, h);
    SpendInputsSpec(refs, p, last.Spends(), h, last.txid);
  }

  /** spent names the output behind every input of txs, as entered in u. */
  ghost predicate SpentFrom(spent: map<Outpoint, TxOutput>, txs: seq<Transaction>, u: UtxoSet) {
    Covers(spent, txs) && forall op | op in InputsOf(txs) :: op in spent && op in u && spent[op] == u[op].output
  }

  lemma SpentFromFront(refs: Refs, a: Applied, txs: seq<Transaction>, h: nat, spent: map<Outpoint, TxOutput>)
    requires txs != [] && h > 0 && ApplyTxs(refs, a, txs, h).Ok?
    requires CreatedBy(txs) !! a.utxos.Keys && DistinctTxids(txs)
    requires SpentFrom(spent, txs, ApplyTxs(refs, a, txs, h).value.utxos)
    ensures var front, last := txs[..|txs| - 1], txs[|txs| - 1];
      var p := ApplyTxs(refs, a, front, h).value;
      && SpentFrom(spent, front, p.utxos)
      && forall op | op in last.Spends() :: op in spent && op in p.utxos && spent[op] == p.utxos[op].output
  {
    var front, last := txs[..|txs| - 1], txs[|txs| - 1];
    var p := ApplyTxs(refs, a, front, h).value;
    LastTxFresh(refs, a, txs, h);
    SpendInputsSpec(refs, p, last.Spends(), h, last.txid);
    ApplyTxsUndoReady(refs, a, front, h);
    ApplyTxsShape(refs, a, front, h);
    assert forall j, i | 0 <= j < |front| && 0 <= i < |front[j].Spends()| :: front[j].Spends()[i] == txs[j].Spends()[i];
  }

  /** How a block changes the total of unspent outputs: its outputs are added,
      its inputs removed, except that an input spent before (one of seen) or listed
      before has nothing left to remove. */
  lemma {:induction false} BlockUnspent(
      p: Payee, refs: Refs, a: Applied, txs: seq<Transaction>, h: nat, seen: set<Outpoint>, spent: map<Outpoint, TxOutput>)
    requires h > 0 && ApplyTxs(refs, a, txs, h).Ok?
    requires CreatedBy(txs) !! a.utxos.Keys && DistinctTxids(txs) && SpentAre(a.utxos, txs, seen)
    requires SpentFrom(spent, txs, ApplyTxs(refs, a, txs, h).value.utxos)
    ensures var r := ApplyTxs(refs, a, txs, h).value;
      && Unspent(p, r.utxos)
         == Unspent(p, a.utxos) + TotalOut(p, txs) - TotalIn(p, txs, spent) + TotalRepeated(p, txs, seen, spent)
      && r.valueIn == a.valueIn + TotalIn(Anyone, txs, spent)
      && r.valueOut == a.valueOut + TotalOut(Anyone, txs)
  {
    hide Unspent, SpendInputs;
    if txs != [] {
      var front, last := txs[..|txs| - 1], txs[|txs| - 1];
      var q := ApplyTxs(refs, a, front, h).value;
      SpentFromFront(refs, a, txs, h, spent);
      SpentSoFar(refs, a, txs, h, seen);
      BlockUnspent(p, refs, a, front, h, seen, spent);
      SpendInputsUnspent(p, refs, q, last.Spends(), h, last.txid, seen + InputsOf(front), spent);
      SpendInputsSpec(refs, q, last.Spends(), h, last.txid);
      var w := SpendInputs(refs, q, last.Spends(), h, last.txid).value;
      CreateUnspent(p, w.utxos, last, h, |last.outputs|);
      assert last.outputs[..|last.outputs|] == last.outputs;
    }
  }

  // ---------------------------------------------------------------- history entries of a block

  /** Every input and every output position fits the 15-bit index field. */
  predicate WithinMask(tx: Transaction) {
    |tx.Spends()| <= INDEX_IO_MASK + 1 && |tx.outputs| <= INDEX_IO_MASK + 1
  }

  /** Inputs and outputs of one transaction never share a key. */
  lemma EncodeInjective(i: nat, d: bool, j: nat, e: bool)
    requires i <= INDEX_IO_MASK && j <= INDEX_IO_MASK
    ensures EncodeHistoryIndex(i, d) == EncodeHistoryIndex(j, e) <==> i == j && d == e
    ensures EncodeHistoryIndex(i, d) <= 0xffff
  {
  }

  lemma HistoryAdd(a: nat, d: bool, hist: History, k: HistoryKey, e: HistoryEntry)
    requires k !in hist
    ensures HistoryTotal(a, d, hist[k := e])
         == HistoryTotal(a, d, hist) + if k.scriptHash == a && e.isInput == d then e.value else 0
  {
    var x := if k.scriptHash == a && e.isInput == d then e.value else 0;
    SumUpdate(HistoryAmounts(a, d, hist), k, x);
    assert HistoryAmounts(a, d, hist[k := e]) == HistoryAmounts(a, d, hist)[k := x];
  }

  /** No entry of txid stands at position n or later in direction d. */
  ghost predicate Free(hist: History, txid: Hash, n: nat, d: bool) {
    forall k | k in hist && k.txid == txid :: FreeIndex(k.index, n, d)
  }

  ghost predicate FreeIndex(index: nat, n: nat, d: bool) {
    forall i | n <= i <= INDEX_IO_MASK :: index != EncodeHistoryIndex(i, d)
  }

  /** The next entry in one direction is a new one, and takes one position there and
      none in the other direction, because keys never collide. */
  lemma FreeNext(hist: History, k: HistoryKey, e: HistoryEntry, n: nat, d: bool)
    requires n <= INDEX_IO_MASK && k.index == EncodeHistoryIndex(n, d) && Free(hist, k.txid, n, d)
    ensures k !in hist && Free(hist[k := e], k.txid, n + 1, d)
    ensures Free(hist, k.txid, 0, !d) ==> Free(hist[k := e], k.txid, 0, !d)
  {
    assert !FreeIndex(k.index, n, d);
    forall i | n + 1 <= i <= INDEX_IO_MASK ensures k.index != EncodeHistoryIndex(i, d) {
      EncodeInjective(n, d, i, d);
    }
    var other := !d;
    forall i | 0 <= i <= INDEX_IO_MASK ensures k.index != EncodeHistoryIndex(i, other) {
      EncodeInjective(n, d, i, other);
    }
    assert forall j | j in hist && j.txid == k.txid :: FreeIndex(j.index, n, d) && FreeIndex(j.index, n + 1, d);
    hide EncodeHistoryIndex;
  }

  lemma FreeLater(hist: History, txid: Hash, n: nat, d: bool)
    requires Free(hist, txid, n, d)
    ensures Free(hist, txid, n + 1, d)
  {
    assert forall j | j in hist && j.txid == txid :: FreeIndex(j.index, n, d) && FreeIndex(j.index, n + 1, d);
  }

  lemma {:induction false} IndexInputsTotal(
      a: nat, hist: History, tx: Transaction, h: nat, bh: Hash, spent: map<Outpoint, TxOutput>, n: nat)
    requires n <= |tx.Spends()| && n <= INDEX_IO_MASK + 1
    requires forall op | op in tx.Spends() :: op in spent
    requires Free(hist, tx.txid, 0, true) && Free(hist, tx.txid, 0, false)
    ensures var r := IndexInputs(hist, tx, h, bh, spent, n);
      && HistoryTotal(a, true, r) == HistoryTotal(a, true, hist) + InValue(Address(a), tx.Spends()[..n], spent)
      && HistoryTotal(a, false, r) == HistoryTotal(a, false, hist)
      && Free(r, tx.txid, n, true) && Free(r, tx.txid, 0, false)
      && (forall k | k in r :: k in hist || k.txid == tx.txid)
  {
    hide HistoryTotal, Free, EncodeHistoryIndex;
    if n > 0 {
      IndexInputsTotal(a, hist, tx, h, bh, spent, n - 1);
      var p, o := IndexInputs(hist, tx, h, bh, spent, n - 1), spent[tx.Spends()[n - 1]];
      assert tx.Spends()[..n][..n - 1] == tx.Spends()[..n - 1];
      FreeLater(p, tx.txid, n - 1, true);
      if AddressOf(o.script).Some? {
        var k := KeyFor(AddressOf(o.script).value, h, tx.txid, n - 1, true);
        FreeNext(p, k, HistoryEntry(true, o.value, bh), n - 1, true);
        HistoryAdd(a, true, p, k, HistoryEntry(true, o.value, bh));
        HistoryAdd(a, false, p, k, HistoryEntry(true, o.value, bh));
      }
    }
  }

  lemma {:induction false} IndexOutputsTotal(a: nat, hist: History, tx: Transaction, h: nat, bh: Hash, n: nat)
    requires n <= |tx.outputs| && n <= INDEX_IO_MASK + 1
    requires Free(hist, tx.txid, 0, false)
    ensures var r := IndexOutputs(hist, tx, h, bh, n);
      && HistoryTotal(a, true, r) == HistoryTotal(a, true, hist)
      && HistoryTotal(a, false, r) == HistoryTotal(a, false, hist) + OutValue(Address(a), tx.outputs[..n])
      && Free(r, tx.txid, n, false)
      && (forall k | k in r :: k in hist || k.txid == tx.txid)
  {
    hide HistoryTotal, Free, EncodeHistoryIndex;
    if n > 0 {
      IndexOutputsTotal(a, hist, tx, h, bh, n - 1);
      var p, o := IndexOutputs(hist, tx, h, bh, n - 1), tx.outputs[n - 1];
      assert tx.outputs[..n][..n - 1] == tx.outputs[..n - 1];
      FreeLater(p, tx.txid, n - 1, false);
      if AddressOf(o.script).Some? {
        var k := KeyFor(AddressOf(o.script).value, h, tx.txid, n - 1, false);
        FreeNext(p, k, HistoryEntry(false, o.value, bh), n - 1, false);
        HistoryAdd(a, true, p, k, HistoryEntry(false, o.value, bh));
        HistoryAdd(a, false, p, k, HistoryEntry(false, o.value, bh));
      }
    }
  }

  /** A block adds the value of its inputs to the sent total of every address
      and the value of its outputs to the received total. */
  lemma {:induction false} IndexTxsTotal(
      a: nat, hist: History, txs: seq<Transaction>, h: nat, bh: Hash, spent: map<Outpoint, TxOutput>)
    requires Covers(spent, txs) && DistinctTxids(txs)
    requires forall i | 0 <= i < |txs| :: WithinMask(txs[i])
    requires forall k | k in hist :: k.txid !in TxidSet(txs)
    ensures var r := IndexTxs(hist, txs, h, bh, spent);
      && HistoryTotal(a, true, r) == HistoryTotal(a, true, hist) + TotalIn(Address(a), txs, spent)
      && HistoryTotal(a, false, r) == HistoryTotal(a, false, hist) + TotalOut(Address(a), txs)
      && (forall k | k in r :: k in hist || k.txid in TxidSet(txs))
  {
    hide HistoryTotal;
    if txs != [] {
      var front, last := txs[..|txs| - 1], txs[|txs| - 1];
      TxidSetSnoc(txs);
      IndexTxsTotal(a, hist, front, h, bh, spent);
      var p := IndexTxs(hist, front, h, bh, spent);
      assert last.txid !in TxidSet(front);
      IndexInputsTotal(a, p, last, h, bh, spent, |last.Spends()|);
      var q := IndexInputs(p, last, h, bh, spent, |last.Spends()|);
      IndexOutputsTotal(a, q, last, h, bh, |last.outputs|);
      assert last.Spends()[..|last.Spends()|] == last.Spends() && last.outputs[..|last.outputs|] == last.outputs;
    }
  }

  // ---------------------------------------------------------------- supply and balances over whole chains

  /** The money supply at the tip is the total of all unspent outputs. */
  ghost predicate SupplyMatches(s: Store) {
    s.GetMoneySupply(Height(s)) == Unspent(Anyone, s.utxos)
  }

  /** For every address, received minus sent is what it still holds. */
  ghost predicate BalancesMatch(s: Store) {
    forall a: nat :: HistoryTotal(a, false, s.history) - HistoryTotal(a, true, s.history) == Unspent(Address(a), s.utxos)
  }

  /** By how much the unspent outputs exceed the stored supply. */
  ghost function SupplyDrift(s: Store): int {
    Unspent(Anyone, s.utxos) - s.GetMoneySupply(Height(s))
  }

  /** By how much the unspent outputs of an address exceed received minus sent. */
  ghost function BalanceDrift(a: nat, s: Store): int {
    Unspent(Address(a), s.utxos) - (HistoryTotal(a, false, s.history) - HistoryTotal(a, true, s.history))
  }

  /** The outputs spent while b is connected to s. */
  function SpentWhile(refs: Refs, s: Store, b: Block): (spent: map<Outpoint, TxOutput>)
    requires Append(refs, s, b).Ok?
    ensures Covers(spent, b.txs)
  {
    ApplyTxsSpent(refs, StartApply(s.utxos), b.txs, Height(s) + 1);
    ApplyTxs(refs, StartApply(s.utxos), b.txs, Height(s) + 1).value.spent
  }

  lemma SpentWhileFrom(refs: Refs, s: Store, b: Block)
    requires WellFormed(s) && Extends(s, b) && Append(refs, s, b).Ok?
    ensures SpentFrom(SpentWhile(refs, s, b), b.txs, Append(refs, s, b).value.utxos)
  {
    CreatedFresh(s, b);
    SpentAreOutputs(refs, StartApply(s.utxos), b.txs, Height(s) + 1);
  }

  /** What connecting one block adds to the totals.  seen are its inputs that are spent already. */
  lemma BlockTotals(refs: Refs, s: Store, b: Block, seen: set<Outpoint>, p: Payee)
    requires WellFormed(s) && Extends(s, b) && Append(refs, s, b).Ok? && SpentAre(s.utxos, b.txs, seen)
    ensures var r, spent := Append(refs, s, b).value, SpentWhile(refs, s, b);
      && Unspent(p, r.utxos)
         == Unspent(p, s.utxos) + TotalOut(p, b.txs) - TotalIn(p, b.txs, spent) + TotalRepeated(p, b.txs, seen, spent)
      && r.GetMoneySupply(Height(r)) == s.GetMoneySupply(Height(s)) + TotalOut(Anyone, b.txs) - TotalIn(Anyone, b.txs, spent)
  {
    SpentWhileFrom(refs, s, b);
    CreatedFresh(s, b);
    hide WellFormed, Unspent, StoreTxs, IndexTxs;
    BlockUnspent(p, refs, StartApply(s.utxos), b.txs, Height(s) + 1, seen, SpentWhile(refs, s, b));
  }

  /** The drift of the supply grows by exactly the value of the repeated inputs. */
  lemma BlockSupplyDrift(refs: Refs, s: Store, b: Block, seen: set<Outpoint>)
    requires WellFormed(s) && Extends(s, b) && Append(refs, s, b).Ok? && SpentAre(s.utxos, b.txs, seen)
    ensures SupplyDrift(Append(refs, s, b).value)
         == SupplyDrift(s) + TotalRepeated(Anyone, b.txs, seen, SpentWhile(refs, s, b))
  {
    BlockTotals(refs, s, b, seen, Anyone);
    hide WellFormed, Append, Unspent, TotalOut, TotalIn, TotalRepeated;
  }

  lemma BlockHistory(refs: Refs, s: Store, b: Block, a: nat)
    requires WellFormed(s) && Extends(s, b) && Append(refs, s, b).Ok?
    requires forall i | 0 <= i < |b.txs| :: WithinMask(b.txs[i])
    ensures var r, spent := Append(refs, s, b).value, SpentWhile(refs, s, b);
      && HistoryTotal(a, true, r.history) == HistoryTotal(a, true, s.history) + TotalIn(Address(a), b.txs, spent)
      && HistoryTotal(a, false, r.history) == HistoryTotal(a, false, s.history) + TotalOut(Address(a), b.txs)
  {
    FreshTxidSet(s, b);
    HistoryKnown(s);
    AppendHistory(refs, s, b);
    hide WellFormed, Append, HistoryTotal, WithinMask;
    IndexTxsTotal(a, s.history, b.txs, Height(s) + 1, b.hash, SpentWhile(refs, s, b));
  }

  lemma HistoryKnown(s: Store)
    requires WellFormed(s)
    ensures forall k | k in s.history :: k.txid in s.txs
  {
  }

  lemma AppendHistory(refs: Refs, s: Store, b: Block)
    requires Append(refs, s, b).Ok?
    ensures Append(refs, s, b).value.history
         == IndexTxs(s.history, b.txs, Height(s) + 1, b.hash, SpentWhile(refs, s, b))
  {
    hide ApplyTxs, IndexTxs, StoreTxs;
  }

  /** Within the index mask, so does the drift of every balance. */
  lemma BlockBalanceDrift(refs: Refs, s: Store, b: Block, seen: set<Outpoint>, a: nat)
    requires WellFormed(s) && Extends(s, b) && Append(refs, s, b).Ok? && SpentAre(s.utxos, b.txs, seen)
    requires forall i | 0 <= i < |b.txs| :: WithinMask(b.txs[i])
    ensures BalanceDrift(a, Append(refs, s, b).value)
         == BalanceDrift(a, s) + TotalRepeated(Address(a), b.txs, seen, SpentWhile(refs, s, b))
  {
    BlockTotals(refs, s, b, seen, Address(a));
    BlockHistory(refs, s, b, a);
    hide WellFormed, Append, Unspent, HistoryTotal, TotalOut, TotalIn, TotalRepeated;
  }

  // ---------------------------------------------------------------- supply and balances through a batch

  /** Value of the inputs of a batch that list an outpoint an earlier block,
      transaction or input of the batch already spent. */
  ghost function BatchRepeated(p: Payee, refs: Refs, s: Store, blocks: seq<Block>): int
    requires AppendAll(refs, s, blocks).Ok?
  {
    if blocks == [] then 0
    else
      var front, b := blocks[..|blocks| - 1], blocks[|blocks| - 1];
      BatchRepeated(p, refs, s, front)
      + TotalRepeated(p, b.txs, SpentBy(front), SpentWhile(refs, AppendAll(refs, s, front).value, b))
  }

  lemma AcceptedInputs(refs: Refs, v: Store, b: Block)
    requires WellFormed(v) && Extends(v, b) && Append(refs, v, b).Ok?
    ensures forall op | op in InputsOf(b.txs) && op in v.utxos ::
      !v.utxos[op].IsSpent() || v.utxos[op].spentHeight == Height(v) + 1 || !refs.Confirms(v.utxos[op])
  {
    hide StoreTxs, IndexTxs, OneLine, TxsAgree;
    CreatedFresh(v, b);
    ApplyTxsShape(refs, StartApply(v.utxos), b.txs, Height(v) + 1);
  }

  /** Of the inputs of the next block, exactly those the batch spent are spent. */
  lemma SpentInBatch(s: Store, v: Store, front: seq<Block>, b: Block)
    requires WellFormed(s) && BatchView(s, v, front) && Extends(v, b) && Append(s.SpendRefs(), v, b).Ok?
    ensures SpentAre(v.utxos, b.txs, SpentBy(front))
  {
    hide Append, Extends, WellFormed, RecordsKept, InputsOf, SpentBy, Refs.Confirms;
    AcceptedInputs(s.SpendRefs(), v, b);
    forall op | op in InputsOf(b.txs) && op in v.utxos
      ensures v.utxos[op].IsSpent() <==> op in SpentBy(front)
    {
      if v.utxos[op].IsSpent() && op !in SpentBy(front) { OldMarkerConfirmed(s, v, front, op); }
    }
  }

  /** A batch that goes through moves the supply away from the unspent outputs, and
      within the index mask every balance from what the address holds, by exactly
      the value the batch spent again. */
  lemma {:induction false} BatchDrift(s: Store, blocks: seq<Block>)
    requires WellFormed(s) && ExtendsAll(s.SpendRefs(), s, blocks) && AppendAll(s.SpendRefs(), s, blocks).Ok?
    ensures SupplyDrift(AppendAll(s.SpendRefs(), s, blocks).value)
         == SupplyDrift(s) + BatchRepeated(Anyone, s.SpendRefs(), s, blocks)
    ensures AllWithinMask(blocks) ==> forall a: nat ::
      BalanceDrift(a, AppendAll(s.SpendRefs(), s, blocks).value)
        == BalanceDrift(a, s) + BatchRepeated(Address(a), s.SpendRefs(), s, blocks)
  {
    hide Append, Extends, WellFormed, BatchView, SupplyDrift, BalanceDrift, SpentAre, TotalRepeated, SpentBy;
    if blocks != [] {
      var refs, front, b := s.SpendRefs(), blocks[..|blocks| - 1], blocks[|blocks| - 1];
      var v := AppendAll(refs, s, front).value;
      BatchDrift(s, front);
      BatchIsSequential(s, front);
      SpentInBatch(s, v, front, b);
      ViewIsWellFormed(s, v, front);
      BlockSupplyDrift(refs, v, b, SpentBy(front));
      if AllWithinMask(blocks) {
        assert AllWithinMask(front) by { assert forall k | 0 <= k < |front| :: front[k] == blocks[k]; }
        forall a: nat ensures BalanceDrift(a, Append(refs, v, b).value)
          == BalanceDrift(a, v) + TotalRepeated(Address(a), b.txs, SpentBy(front), SpentWhile(refs, v, b))
        {
          BlockBalanceDrift(refs, v, b, SpentBy(front), a);
        }
      }
    }
  }

  lemma ViewIsWellFormed(s: Store, v: Store, blocks: seq<Block>)
    requires BatchView(s, v, blocks)
    ensures WellFormed(v)
  {
  }

  /** Every transaction of every block fits the index mask. */
  ghost predicate AllWithinMask(blocks: seq<Block>) {
    forall k | 0 <= k < |blocks| :: forall i | 0 <= i < |blocks[k].txs| :: WithinMask(blocks[k].txs[i])
  }

  lemma DriftsAre(s: Store)
    ensures SupplyMatches(s) <==> SupplyDrift(s) == 0
    ensures BalancesMatch(s) <==> forall a: nat :: BalanceDrift(a, s) == 0
  {
    hide Unspent, HistoryTotal;
    assert forall a: nat :: BalanceDrift(a, s) == 0 <==>
      HistoryTotal(a, false, s.history) - HistoryTotal(a, true, s.history) == Unspent(Address(a), s.utxos);
  }

  /** A batch keeps the supply equal to the unspent total exactly if what it spends
      again, within a block or across blocks, is worth nothing in total. */
  lemma BatchSupplyMatches(s: Store, blocks: seq<Block>)
    requires WellFormed(s) && ExtendsAll(s.SpendRefs(), s, blocks) && AppendAll(s.SpendRefs(), s, blocks).Ok?
    requires SupplyMatches(s)
    ensures SupplyMatches(AppendAll(s.SpendRefs(), s, blocks).value)
       <==> BatchRepeated(Anyone, s.SpendRefs(), s, blocks) == 0
  {
    hide *;
    BatchDrift(s, blocks);
    DriftsAre(s);
    DriftsAre(AppendAll(s.SpendRefs(), s, blocks).value);
  }

  /** A batch within the index mask keeps the balances exactly if, for every address,
      what it spends again of that address is worth nothing in total. */
  lemma BatchBalancesMatch(s: Store, blocks: seq<Block>)
    requires WellFormed(s) && ExtendsAll(s.SpendRefs(), s, blocks) && AppendAll(s.SpendRefs(), s, blocks).Ok?
    requires BalancesMatch(s) && AllWithinMask(blocks)
    ensures BalancesMatch(AppendAll(s.SpendRefs(), s, blocks).value)
       <==> forall a: nat :: BatchRepeated(Address(a), s.SpendRefs(), s, blocks) == 0
  {
    hide *;
    var v := AppendAll(s.SpendRefs(), s, blocks).value;
    BatchDrift(s, blocks);
    DriftsAre(s);
    DriftsAre(v);
    assert forall a: nat :: BalanceDrift(a, v) == 0 <==> BatchRepeated(Address(a), s.SpendRefs(), s, blocks) == 0;
  }

  /** Value the chunks of a long batch spend again, each counted on its own. */
  ghost function ChunksRepeated(p: Payee, s: Store, parts: seq<seq<Block>>): int
    requires AppendChunks(s, parts).Ok?
  {
    if parts == [] then 0
    else
      var v, last := AppendChunks(s, parts[..|parts| - 1]).value, parts[|parts| - 1];
      ChunksRepeated(p, s, parts[..|parts| - 1]) + BatchRepeated(p, v.SpendRefs(), v, last)
  }

  /** The same for a long batch that is committed chunk by chunk. */
  lemma {:induction false} ChunksDrift(s: Store, parts: seq<seq<Block>>)
    requires NewBatch(s, Flat(parts)) && AppendChunks(s, parts).Ok?
    ensures SupplyDrift(AppendChunks(s, parts).value) == SupplyDrift(s) + ChunksRepeated(Anyone, s, parts)
    ensures (forall k | 0 <= k < |parts| :: AllWithinMask(parts[k])) ==> forall a: nat ::
      BalanceDrift(a, AppendChunks(s, parts).value) == BalanceDrift(a, s) + ChunksRepeated(Address(a), s, parts)
  {
    hide NewBatch, Advanced, AppendAll, AppendEach, SupplyDrift, BalanceDrift, BatchRepeated, AllWithinMask, CleanParts, BatchView, ExtendsAll;
    if parts != [] {
      var front, last := parts[..|parts| - 1], parts[|parts| - 1];
      var v := AppendChunks(s, front).value;
      assert forall k | 0 <= k < |front| :: front[k] == parts[k];
      PrefixNew(s, Flat(front), last);
      ChunksDrift(s, front);
      ChunkRunIsSequential(s, front);
      NextIsNew(s, v, Flat(front), last);
      NewBatchParts(v, last);
      ChunkAlone(v, AppendChunks(s, parts).value, last);
      BatchDrift(v, last);
    }
  }

  /** A connected block has none of its inputs spent before. */
  lemma NoneSpentBefore(s: Store, b: Block)
    requires WellFormed(s) && Extends(s, b) && Append(s.SpendRefs(), s, b).Ok?
    ensures SpentAre(s.utxos, b.txs, {})
  {
    InputsUnspent(s, b);
  }

  /** A connect keeps the supply equal to the unspent total exactly if the inputs
      of the block that repeat an outpoint are worth nothing in total. */
  lemma AppendSupplyMatches(s: Store, b: Block)
    requires WellFormed(s) && Extends(s, b) && Append(s.SpendRefs(), s, b).Ok? && SupplyMatches(s)
    ensures SupplyMatches(Append(s.SpendRefs(), s, b).value)
       <==> TotalRepeated(Anyone, b.txs, {}, SpentWhile(s.SpendRefs(), s, b)) == 0
  {
    hide *;
    NoneSpentBefore(s, b);
    BlockSupplyDrift(s.SpendRefs(), s, b, {});
    DriftsAre(s);
    DriftsAre(Append(s.SpendRefs(), s, b).value);
  }

  /** No outpoint is listed twice among the inputs of the transactions. */
  ghost predicate NoDoubleSpend(txs: seq<Transaction>) {
    forall j, i, m, l | 0 <= j < |txs| && 0 <= i < |txs[j].Spends()| && 0 <= m < |txs| && 0 <= l < |txs[m].Spends()| ::
      txs[j].Spends()[i] == txs[m].Spends()[l] ==> j == m && i == l
  }

  lemma {:induction false} InputsOfHas(txs: seq<Transaction>, op: Outpoint)
    ensures op in InputsOf(txs) <==> exists j, i :: 0 <= j < |txs| && 0 <= i < |txs[j].Spends()| && txs[j].Spends()[i] == op
  {
    if txs != [] {
      var front, last := txs[..|txs| - 1], txs[|txs| - 1];
      InputsOfHas(front, op);
      if op in InputsOf(front) {
        var j, i :| 0 <= j < |front| && 0 <= i < |front[j].Spends()| && front[j].Spends()[i] == op;
        assert txs[j].Spends()[i] == op;
      } else if op in last.Spends() {
        var i :| 0 <= i < |last.Spends()| && last.Spends()[i] == op;
        assert txs[|txs| - 1].Spends()[i] == op;
      }
      if j, i :| 0 <= j < |txs| && 0 <= i < |txs[j].Spends()| && txs[j].Spends()[i] == op {
        if j < |front| { assert front[j].Spends()[i] == op; }
      }
    }
  }

  lemma {:induction false} RepeatsNothing(p: Payee, inputs: seq<Outpoint>, seen: set<Outpoint>, spent: map<Outpoint, TxOutput>)
    requires forall op | op in inputs :: op in spent && op !in seen
    requires forall i, l | 0 <= i < l < |inputs| :: inputs[i] != inputs[l]
    ensures RepeatedValue(p, inputs, seen, spent) == 0
  {
    if inputs != [] {
      RepeatsNothing(p, inputs[..|inputs| - 1], seen, spent);
    }
  }

  lemma {:induction false} NothingRepeated(p: Payee, txs: seq<Transaction>, seen: set<Outpoint>, spent: map<Outpoint, TxOutput>)
    requires Covers(spent, txs) && NoDoubleSpend(txs) && InputsOf(txs) !! seen
    ensures TotalRepeated(p, txs, seen, spent) == 0
  {
    if txs != [] {
      var front, last := txs[..|txs| - 1], txs[|txs| - 1];
      assert forall j | 0 <= j < |front| :: front[j] == txs[j];
      NothingRepeated(p, front, seen, spent);
      forall op | op in last.Spends() ensures op !in seen + InputsOf(front) {
        InputsOfHas(front, op);
        var l :| 0 <= l < |last.Spends()| && last.Spends()[l] == op;
        assert txs[|txs| - 1].Spends()[l] == op;
      }
      forall i, l | 0 <= i < l < |last.Spends()| ensures last.Spends()[i] != last.Spends()[l] {
        assert txs[|txs| - 1].Spends()[i] != txs[|txs| - 1].Spends()[l];
      }
      RepeatsNothing(p, last.Spends(), seen + InputsOf(front), spent);
    }
  }

  /** A batch in which no outpoint is spent twice repeats nothing. */
  lemma {:induction false} BatchNothingRepeated(p: Payee, refs: Refs, s: Store, blocks: seq<Block>)
    requires AppendAll(refs, s, blocks).Ok? && NoCrossSpend(blocks)
    requires forall k | 0 <= k < |blocks| :: NoDoubleSpend(blocks[k].txs)
    ensures BatchRepeated(p, refs, s, blocks) == 0
  {
    hide NoDoubleSpend, Append, TotalRepeated;
    if blocks != [] {
      var front, b := blocks[..|blocks| - 1], blocks[|blocks| - 1];
      assert forall k | 0 <= k < |front| :: front[k] == blocks[k];
      BatchNothingRepeated(p, refs, s, front);
      NothingRepeated(p, b.txs, SpentBy(front), SpentWhile(refs, AppendAll(refs, s, front).value, b));
    }
  }

  /** A connect within the index mask keeps the balances exactly if, for every
      address, the repeated inputs paying it are worth nothing in total. */
  lemma AppendBalancesMatch(s: Store, b: Block)
    requires WellFormed(s) && Extends(s, b) && Append(s.SpendRefs(), s, b).Ok? && BalancesMatch(s)
    requires forall i | 0 <= i < |b.txs| :: WithinMask(b.txs[i])
    ensures BalancesMatch(Append(s.SpendRefs(), s, b).value)
       <==> forall a: nat :: TotalRepeated(Address(a), b.txs, {}, SpentWhile(s.SpendRefs(), s, b)) == 0
  {
    hide *;
    var r := Append(s.SpendRefs(), s, b).value;
    NoneSpentBefore(s, b);
    DriftsAre(s);
    DriftsAre(r);
    forall a: nat ensures BalanceDrift(a, r) == TotalRepeated(Address(a), b.txs, {}, SpentWhile(s.SpendRefs(), s, b)) {
      BlockBalanceDrift(s.SpendRefs(), s, b, {}, a);
    }
  }

  /** Blocks whose transactions fit the index mask and never list an outpoint twice. */
  ghost predicate Countable(c: seq<Block>) {
    forall k | 0 <= k < |c| :: CountableBlock(c[k])
  }

  ghost predicate CountableBlock(b: Block) {
    NoDoubleSpend(b.txs) && forall i | 0 <= i < |b.txs| :: WithinMask(b.txs[i])
  }

  lemma {:induction false} CoinbaseTotals(p: Payee, refs: Refs, a: Applied, txs: seq<Transaction>, h: nat)
    requires forall i | 0 <= i < |txs| :: txs[i].IsCoinbase()
    requires CreatedBy(txs) !! a.utxos.Keys && DistinctTxids(txs)
    ensures ApplyTxs(refs, a, txs, h).Ok?
    ensures var r := ApplyTxs(refs, a, txs, h).value;
      && r.utxos.Keys == a.utxos.Keys + CreatedBy(txs)
      && Unspent(p, r.utxos) == Unspent(p, a.utxos) + TotalOut(p, txs)
      && r.spent == a.spent && r.valueIn == a.valueIn && r.valueOut == a.valueOut + TotalOut(Anyone, txs)
      && Covers(r.spent, txs) && TotalIn(p, txs, r.spent) == 0
  {
    hide Unspent;
    if txs != [] {
      var front, last := txs[..|txs| - 1], txs[|txs| - 1];
      CoinbaseTotals(p, refs, a, front, h);
      CreatedApart(txs);
      assert last.Spends() == [];
      CreateUnspent(p, ApplyTxs(refs, a, front, h).value.utxos, last, h, |last.outputs|);
      assert last.outputs[..|last.outputs|] == last.outputs;
    }
  }

  lemma GenesisTotals(g: Block)
    requires GoodGenesis(g) && forall i | 0 <= i < |g.txs| :: WithinMask(g.txs[i])
    ensures InitGenesis(g).Ok? && SupplyMatches(InitGenesis(g).value) && BalancesMatch(InitGenesis(g).value)
  {
    var refs, a0 := EMPTY_STORE.SpendRefs(), StartApply(EMPTY_STORE.utxos);
    CoinbaseTotals(Anyone, refs, a0, g.txs, 0);
    var s := InitGenesis(g).value;
    assert forall p :: UnspentAmounts(p, EMPTY_STORE.utxos) == map[];
    assert forall a, d :: HistoryAmounts(a, d, EMPTY_STORE.history) == map[];
    forall a: nat
      ensures HistoryTotal(a, false, s.history) - HistoryTotal(a, true, s.history) == Unspent(Address(a), s.utxos)
    {
      CoinbaseTotals(Address(a), refs, a0, g.txs, 0);
      IndexTxsTotal(a, map[], g.txs, 0, g.hash, map[]);
    }
  }

  /** In the store any such chain replays to, the money supply stored at the tip
      is the total of all unspent outputs, and for every address received minus
      sent is the total of the unspent outputs paying it. */
  lemma {:induction false} ChainTotals(c: seq<Block>)
    requires Replayable(c) && Countable(c)
    ensures SupplyMatches(Replayed(c)) && BalancesMatch(Replayed(c))
  {
    assert CountableBlock(c[|c| - 1]);
    if |c| == 1 {
      GenesisTotals(c[0]);
    } else {
      var front, b := c[..|c| - 1], c[|c| - 1];
      assert forall k | 0 <= k < |front| :: front[k] == c[k];
      ChainTotals(front);
      ReplayWellFormed(front);
      var s := Replayed(front);
      AppendSupplyMatches(s, b);
      AppendBalancesMatch(s, b);
      NothingRepeated(Anyone, b.txs, {}, SpentWhile(s.SpendRefs(), s, b));
      forall a: nat ensures TotalRepeated(Address(a), b.txs, {}, SpentWhile(s.SpendRefs(), s, b)) == 0 {
        NothingRepeated(Address(a), b.txs, {}, SpentWhile(s.SpendRefs(), s, b));
      }
    }
  }

  /** The same for any store that holds such a chain: whatever was rolled back
      before, the supply read at the tip and the balances are those of the chain. */
  lemma HoldsTotals(s: Store, c: seq<Block>)
    requires Holds(s, c) && Countable(c)
    ensures SupplyMatches(s) && BalancesMatch(s)
  {
    ChainTotals(c);
    ReplayWellFormed(c);
    hide Replayable, ReplayChain, Unspent, HistoryTotal, WellFormed;
    var t := Replayed(c);
    assert s.utxos == t.utxos && s.history == t.history;
    assert s.GetMoneySupply(|c| - 1) == t.GetMoneySupply(|c| - 1);
  }
}
