/** What a disconnect does to the distance between the stored totals and the unspent
    outputs, from any state the chain can be in. */
module Drifts {
  import opened Wrappers
  import opened ChainTypes
  import opened Storage
  import opened Connect
  import opened Undo
  import opened Replay
  import opened Completeness
  import opened Lines
  import opened Ledger
  import opened Totals
  import opened Sums

  // ---------------------------------------------------------------- the markers a disconnect clears

  /** Value of the outputs of ops that are marked as spent, each counted once. */
  ghost function FreedValue(p: Payee, u: UtxoSet, ops: set<Outpoint>): int {
    Sum(FreedAmounts(p, u, ops))
  }

  ghost function FreedAmounts(p: Payee, u: UtxoSet, ops: set<Outpoint>): map<Outpoint, int> {
    map op | op in u :: if op in ops && u[op].IsSpent() then Amount(p, u[op].output) else 0
  }

  ghost function KeptAmounts(p: Payee, u: UtxoSet, ops: set<Outpoint>): map<Outpoint, int> {
    map op | op in u :: if op !in ops && u[op].IsSpent() then Amount(p, u[op].output) else 0
  }

  /** Clearing the markers of ops and dropping outputs that are marked by ops only
      lowers the marked value by what was marked of ops. */
  lemma MarkedSplit(p: Payee, u: UtxoSet, made: set<Outpoint>, ops: set<Outpoint>)
    requires forall op | op in made && op in u && u[op].IsSpent() :: op in ops
    ensures Marked(p, UnspendAll(u - made, ops)) == Marked(p, u) - FreedValue(p, u, ops)
  {
    SumAdd(FreedAmounts(p, u, ops), KeptAmounts(p, u, ops), MarkedAmounts(p, u));
    SumZeros(KeptAmounts(p, u, ops), MarkedAmounts(p, UnspendAll(u - made, ops)));
  }

  /** An output of the top block that is marked is an input of the top block. */
  lemma TopMarked(s: Store, c: seq<Block>, op: Outpoint)
    requires Stands(s, c) && op in s.utxos && s.utxos[op].IsSpent() && op in CreatedBy(c[|c| - 1].txs)
    ensures op in InputsOf(c[|c| - 1].txs)
  {
    var b, t := c[|c| - 1], s.utxos[op].spentBy;
    StandsTip(s, c);
    StandsOnTop(s, c);
    StandsAgree(s, c);
    CompleteLinked(s);
    TopAtPlace(s, b);
    TopCut(s, b);
    CreatedByHashes(b.txs);
    hide Stands, WellFormed, Complete, OneLine, TxsAgree, OnTop, AtPlace, CreatedBy, InputsOf, TxidSet;
    assert t in s.txs && op in s.txs[t].tx.Spends() && KnowsInputs(s.txs, s.txs[t]);
    SpentInBlock(s.txs, b, Height(s), t, op);
  }

  lemma TopFreed(p: Payee, s: Store, c: seq<Block>)
    requires Stands(s, c)
    ensures var txs := c[|c| - 1].txs;
      Marked(p, UnspendAll(s.utxos - CreatedBy(txs), InputsOf(txs))) == Marked(p, s.utxos) - FreedValue(p, s.utxos, InputsOf(txs))
  {
    hide *;
    StandsTip(s, c);
    var txs := c[|c| - 1].txs;
    forall op | op in CreatedBy(txs) && op in s.utxos && s.utxos[op].IsSpent() ensures op in InputsOf(txs) {
      TopMarked(s, c, op);
    }
    MarkedSplit(p, s.utxos, CreatedBy(txs), InputsOf(txs));
  }

  // ---------------------------------------------------------------- how far a disconnect moves the totals

  /** Value of the inputs the last block lists, less what they mark. */
  ghost function LastExcess(p: Payee, s: Store, c: seq<Block>): int
    requires c != []
  {
    InsOf(p, s.txs, c[|c| - 1].txs) - FreedValue(p, s.utxos, InputsOf(c[|c| - 1].txs))
  }

  /** Value listed as inputs and not marked as spent. */
  ghost function Excess(p: Payee, s: Store, c: seq<Block>): int {
    Ins(p, s.txs, c) - Marked(p, s.utxos)
  }

  lemma ExcessDown(p: Payee, s: Store, c: seq<Block>, d: Store)
    requires Stands(s, c) && |c| > 1 && DisconnectBlock(s, c[|c| - 1]) == Ok(d)
    ensures Excess(p, d, c[..|c| - 1]) == Excess(p, s, c) - LastExcess(p, s, c)
  {
    DisconnectTables(s, c);
    hide Stands, DisconnectBlock, AtPlace, UnspendAll, InsOf, CreatedBy, InputsOf, Marked, FreedValue, SameBehind, UndoKeys, TxidSet;
    TopFreed(p, s, c);
    DisconnectSameBehind(s, c);
    SameBehindTotals(s.txs, d.txs, c[..|c| - 1]);
  }

  /** Disconnecting the top moves the unspent outputs towards the stored supply by the
      value its inputs list, less the value they had marked; within the index mask the
      same holds for every address. */
  lemma DisconnectDrift(s: Store, c: seq<Block>, d: Store)
    requires Stands(s, c) && Recorded(s, c) && |c| > 1 && DisconnectBlock(s, c[|c| - 1]) == Ok(d)
    ensures SupplyDrift(d) == SupplyDrift(s) - LastExcess(Anyone, s, c)
    ensures AllWithinMask(c) ==> forall a: nat :: BalanceDrift(a, d) == BalanceDrift(a, s) - LastExcess(Address(a), s, c)
  {
    hide *;
    var front := c[..|c| - 1];
    StandsDisconnect(s, c);
    RecordedDisconnect(s, c);
    RecordedDrift(s, c);
    RecordedDrift(d, front);
    ExcessDown(Anyone, s, c, d);
    ExcessIs(Anyone, s, c);
    ExcessIs(Anyone, d, front);
    if AllWithinMask(c) {
      MaskPrefix(c);
      forall a: nat ensures BalanceDrift(a, d) == BalanceDrift(a, s) - LastExcess(Address(a), s, c) {
        ExcessDown(Address(a), s, c, d);
        ExcessIs(Address(a), s, c);
        ExcessIs(Address(a), d, front);
      }
    }
  }

  lemma ExcessIs(p: Payee, s: Store, c: seq<Block>)
    ensures Excess(p, s, c) == Ins(p, s.txs, c) - Marked(p, s.utxos)
  {
  }

  lemma MaskPrefix(c: seq<Block>)
    requires AllWithinMask(c) && c != []
    ensures AllWithinMask(c[..|c| - 1])
  {
    hide WithinMask;
    assert forall k | 0 <= k < |c| - 1 :: c[..|c| - 1][k] == c[k];
  }

  // ---------------------------------------------------------------- with values that are not negative

  predicate NonNegativeTx(tx: Transaction) {
    forall j | 0 <= j < |tx.outputs| :: tx.outputs[j].value >= 0
  }

  ghost predicate NonNegative(c: seq<Block>) {
    forall k | 0 <= k < |c| :: forall i | 0 <= i < |c[k].txs| :: NonNegativeTx(c[k].txs[i])
  }

  /** Value of the outputs of ops, each counted once. */
  ghost function ValueOf(p: Payee, u: UtxoSet, ops: set<Outpoint>): int {
    Sum(AmountsOf(p, u, ops))
  }

  ghost function AmountsOf(p: Payee, u: UtxoSet, ops: set<Outpoint>): map<Outpoint, int> {
    map op | op in u :: if op in ops then Amount(p, u[op].output) else 0
  }

  ghost predicate AllNonNegative(u: UtxoSet) {
    forall op | op in u :: u[op].output.value >= 0
  }

  lemma FreedAtMost(p: Payee, u: UtxoSet, ops: set<Outpoint>)
    requires AllNonNegative(u)
    ensures FreedValue(p, u, ops) <= ValueOf(p, u, ops)
  {
    SumAtMost(FreedAmounts(p, u, ops), AmountsOf(p, u, ops));
  }

  lemma ValueOfMore(p: Payee, u: UtxoSet, ops: set<Outpoint>, op: Outpoint)
    requires AllNonNegative(u) && op in u
    ensures ValueOf(p, u, ops + {op}) <= ValueOf(p, u, ops) + Amount(p, u[op].output)
  {
    SumUpdate(AmountsOf(p, u, ops), op, Amount(p, u[op].output));
    assert AmountsOf(p, u, ops + {op}) == AmountsOf(p, u, ops)[op := Amount(p, u[op].output)];
  }

  lemma {:induction false} ValueOfInputs(p: Payee, u: UtxoSet, ops: set<Outpoint>, inputs: seq<Outpoint>, spent: map<Outpoint, TxOutput>)
    requires AllNonNegative(u) && forall op | op in inputs :: op in spent && op in u && spent[op] == u[op].output
    ensures ValueOf(p, u, ops + Outpoints(inputs)) <= ValueOf(p, u, ops) + InValue(p, inputs, spent)
  {
    hide ValueOf;
    if inputs == [] {
      assert ops + Outpoints([]) == ops;
    } else {
      var front, last := inputs[..|inputs| - 1], inputs[|inputs| - 1];
      assert inputs == front + [last] && last in inputs;
      ValueOfInputs(p, u, ops, front, spent);
      ValueOfMore(p, u, ops + Outpoints(front), last);
      assert ops + Outpoints(front) + {last} == ops + Outpoints(inputs);
    }
  }

  /** Counting each input once never gives more than counting it as often as it is listed. */
  lemma {:induction false} ValueOfTxs(p: Payee, u: UtxoSet, txs: seq<Transaction>, spent: map<Outpoint, TxOutput>)
    requires AllNonNegative(u) && Covers(spent, txs)
    requires forall op | op in InputsOf(txs) :: op in spent && op in u && spent[op] == u[op].output
    ensures ValueOf(p, u, InputsOf(txs)) <= TotalIn(p, txs, spent)
  {
    hide ValueOf;
    if txs == [] {
      NothingOf(p, u);
    } else {
      var front, last := txs[..|txs| - 1], txs[|txs| - 1];
      assert forall op | op in last.Spends() :: op in Outpoints(last.Spends());
      ValueOfTxs(p, u, front, spent);
      ValueOfInputs(p, u, InputsOf(front), last.Spends(), spent);
    }
  }

  lemma NothingOf(p: Payee, u: UtxoSet)
    ensures ValueOf(p, u, {}) == 0
  {
    SumZeros(AmountsOf(p, u, {}), map[]);
  }

  lemma StoredNonNegative(s: Store, c: seq<Block>)
    requires Stands(s, c) && NonNegative(c)
    ensures AllNonNegative(s.utxos)
  {
    StandsOutputs(s, c);
    StandsAgree(s, c);
    hide Stands, UtxosAgree, OneLine, OutputsHeld, InputsKnown;
    forall op | op in s.utxos ensures s.utxos[op].output.value >= 0 {
      EntryOf(s.txs, s.utxos, op);
      var k: nat, i: nat := PlaceOf(s, c, op.hash);
      assert NonNegativeTx(c[k].txs[i]);
    }
  }

  lemma EntryOf(index: TxIndex, u: UtxoSet, op: Outpoint)
    requires UtxosAgree(index, u) && op in u
    ensures op.hash in index && op.index < |index[op.hash].tx.outputs|
    ensures u[op].output == index[op.hash].tx.outputs[op.index]
  {
  }

  /** Where a stored transaction stands in the chain. */
  lemma PlaceOf(s: Store, c: seq<Block>, t: Hash) returns (k: nat, i: nat)
    requires Stands(s, c) && t in s.txs
    ensures k < |c| && i < |c[k].txs| && c[k].txs[i] == s.txs[t].tx && s.txs[t].blockHash == c[k].hash
  {
    StandsAgree(s, c);
    StandsTip(s, c);
    k, i := s.txs[t].height, s.txs[t].index;
    hide Stands, Complete, WellFormed, BlocksIndexed;
    assert Placed(s.blocks, s.txs[t], t);
    HeightOf(s, s.txs[t].blockHash);
    StandsGetBlock(s, c, k);
  }

  lemma HeightOf(s: Store, x: Hash)
    requires OneLine(s) && x in s.blocks
    ensures s.blocks[x].height <= Height(s) && s.blocks[x].height in s.heightToHash && s.heightToHash[s.blocks[x].height] == x
  {
  }

  /** The last block never marks more than it lists. */
  lemma LastExcessAtLeast(p: Payee, s: Store, c: seq<Block>)
    requires Stands(s, c) && NonNegative(c)
    ensures LastExcess(p, s, c) >= 0
  {
    var txs := c[|c| - 1].txs;
    StandsKnows(s, c, |c| - 1);
    StandsOutputs(s, c);
    StoredNonNegative(s, c);
    KnownCovers(s.txs, txs);
    hide Stands, OutputsHeld, InputsKnown, TotalIn, InputsOf, FreedValue, ValueOf, UtxosAgree, NonNegative;
    forall op | op in InputsOf(txs) ensures op in Behind(s.txs, txs) && op in s.utxos && Behind(s.txs, txs)[op] == s.utxos[op].output {
      BehindHeld(s.txs, s.utxos, op);
    }
    ValueOfTxs(p, s.utxos, txs, Behind(s.txs, txs));
    FreedAtMost(p, s.utxos, InputsOf(txs));
  }

  lemma BehindHeld(index: TxIndex, u: UtxoSet, op: Outpoint)
    requires UtxosAgree(index, u) && OutputsHeld(index, u) && PrevOutput(index, op).Some?
    ensures op in u && PrevOutput(index, op) == Some(u[op].output)
  {
    assert op == Outpoint(op.hash, op.index);
  }

  /** Genesis stands at height 0, so in a chain of one block nothing is marked. */
  lemma NothingMarked(s: Store, c: seq<Block>)
    requires Stands(s, c) && |c| == 1
    ensures forall op | op in s.utxos :: !s.utxos[op].IsSpent()
  {
    StandsTip(s, c);
    hide Stands, WellFormed, Complete;
    forall op | op in s.utxos ensures !s.utxos[op].IsSpent() {
      if s.utxos[op].IsSpent() { MarkersConfirmed(s, op); }
    }
  }

  lemma InsOne(p: Payee, index: TxIndex, c: seq<Block>)
    requires |c| == 1
    ensures Ins(p, index, c) == InsOf(p, index, c[0].txs)
  {
    hide InsOf;
    assert c[..0] == [];
  }

  lemma AllFreed(p: Payee, u: UtxoSet, ops: set<Outpoint>)
    requires forall op | op in u && u[op].IsSpent() :: op in ops
    ensures Marked(p, u) == FreedValue(p, u, ops)
  {
    assert MarkedAmounts(p, u) == FreedAmounts(p, u, ops);
  }

  lemma OnlyBlock(p: Payee, s: Store, c: seq<Block>)
    requires Stands(s, c) && |c| == 1
    ensures Excess(p, s, c) == LastExcess(p, s, c)
  {
    hide Stands, Ins, InsOf, InputsOf, Marked, FreedValue;
    InsOne(p, s.txs, c);
    NothingMarked(s, c);
    AllFreed(p, s.utxos, InputsOf(c[0].txs));
  }

  /** In every such state the blocks list at least as much value as is marked. */
  lemma {:induction false} ExcessAtLeast(p: Payee, s: Store, c: seq<Block>)
    requires Stands(s, c) && NonNegative(c)
    ensures Excess(p, s, c) >= 0
    decreases |c|
  {
    hide *;
    LastExcessAtLeast(p, s, c);
    StandsTip(s, c);
    if |c| == 1 {
      OnlyBlock(p, s, c);
    } else {
      StandsDisconnect(s, c);
      NonNegativePrefix(c, |c| - 1);
      var d := DisconnectBlock(s, c[|c| - 1]).value;
      ExcessAtLeast(p, d, c[..|c| - 1]);
      ExcessDown(p, s, c, d);
    }
  }

  lemma NonNegativePrefix(c: seq<Block>, n: nat)
    requires NonNegative(c) && n <= |c|
    ensures NonNegative(c[..n])
  {
    hide NonNegativeTx;
    assert forall k | 0 <= k < n :: c[..n][k] == c[k];
  }

  /** Totals that agree with the unspent outputs still do afterwards. */
  ghost predicate MatchesKept(s: Store, c: seq<Block>, t: Store) {
    NonNegative(c) ==>
      && (SupplyMatches(s) ==> SupplyMatches(t))
      && (AllWithinMask(c) && BalancesMatch(s) ==> BalancesMatch(t))
  }

  /** A disconnect keeps the supply equal to the unspent outputs exactly if its inputs
      list as much value as they mark.  Without negative output values they always do
      then, and within the index mask every balance stays right as well. */
  lemma DisconnectMatches(s: Store, c: seq<Block>, d: Store)
    requires Stands(s, c) && Recorded(s, c) && |c| > 1 && DisconnectBlock(s, c[|c| - 1]) == Ok(d)
    ensures SupplyMatches(s) ==> (SupplyMatches(d) <==> LastExcess(Anyone, s, c) == 0)
    ensures MatchesKept(s, c, d)
  {
    hide *;
    DriftsAre(s);
    DriftsAre(d);
    DisconnectDrift(s, c, d);
    if NonNegative(c) {
      StayAtZero(Anyone, s, c, d);
      RecordedDrift(s, c);
      if AllWithinMask(c) && BalancesMatch(s) {
        forall a: nat ensures BalanceDrift(a, d) == 0 {
          StayAtZero(Address(a), s, c, d);
          ExcessIs(Address(a), s, c);
        }
      }
      ExcessIs(Anyone, s, c);
    }
    MatchesKeptIf(s, c, d);
  }

  lemma MatchesKeptIf(s: Store, c: seq<Block>, t: Store)
    ensures (NonNegative(c) ==>
      && (SupplyMatches(s) ==> SupplyMatches(t))
      && (AllWithinMask(c) && BalancesMatch(s) ==> BalancesMatch(t))) ==> MatchesKept(s, c, t)
  {
  }

  lemma StayAtZero(p: Payee, s: Store, c: seq<Block>, d: Store)
    requires Stands(s, c) && |c| > 1 && DisconnectBlock(s, c[|c| - 1]) == Ok(d) && NonNegative(c)
    ensures Excess(p, s, c) == 0 ==> LastExcess(p, s, c) == 0
  {
    hide *;
    StandsDisconnect(s, c);
    NonNegativePrefix(c, |c| - 1);
    LastExcessAtLeast(p, s, c);
    ExcessAtLeast(p, d, c[..|c| - 1]);
    ExcessDown(p, s, c, d);
  }

  lemma MatchesKeptStart(s: Store, c: seq<Block>)
    ensures MatchesKept(s, c, s)
  {
  }

  lemma MatchesKeptTrans(s: Store, c: seq<Block>, t: Store, n: nat, u: Store)
    requires n <= |c| && MatchesKept(s, c, t) && MatchesKept(t, c[..n], u)
    ensures MatchesKept(s, c, u)
  {
    if NonNegative(c) { NonNegativePrefix(c, n); }
    assert forall k | 0 <= k < n :: c[..n][k] == c[k];
    hide NonNegative, SupplyMatches, BalancesMatch, WithinMask;
  }
}
