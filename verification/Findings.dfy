/** Inputs on which the program does less than its comments promise, and how far
    each of these cases reaches. */
module Findings {
  import opened Wrappers
  import opened ChainTypes
  import opened Storage
  import opened Connect
  import opened Undo
  import opened Replay
  import opened Chains
  import opened Batches
  import opened Completeness
  import opened Ledger
  import opened BlockChains
  import Cleanup
  import Lines
  import Orphans
  import Outcomes
  import ForkSearch

  // ---------------------------------------------------------------- one output, two blocks of a batch

  const GENESIS: Block := Block(10, ZERO_HASH, [Transaction(1, [Outpoint(ZERO_HASH, MAX_UINT32)], [TxOutput(50, PayTo(7))])])

  /** A transaction that spends the genesis output and returns its value. */
  function Stake(txid: Hash): Transaction {
    Transaction(txid, [Outpoint(1, 0)], [TxOutput(0, EmptyScript), TxOutput(50, PayTo(7))])
  }

  const FIRST: Block := Block(11, 10, [Stake(2)])
  const SECOND: Block := Block(12, 11, [Stake(3)])
  const TWICE: Block := Block(11, 10, [Stake(2), Stake(3)])

  lemma GenesisUtxos()
    ensures ApplyTxs(EMPTY_STORE.SpendRefs(), StartApply(map[]), GENESIS.txs, 0).Ok?
    ensures ApplyTxs(EMPTY_STORE.SpendRefs(), StartApply(map[]), GENESIS.txs, 0).value.utxos
         == map[Outpoint(1, 0) := Utxo(TxOutput(50, PayTo(7)), 0, true, 0, ZERO_HASH)]
  {
    var tx := GENESIS.txs[0];
    assert GENESIS.txs == [tx] && [tx][..0] == [] && tx.IsCoinbase() && tx.Spends() == [];
    assert Created(tx) == {Outpoint(1, 0)};
    assert ApplyTxs(EMPTY_STORE.SpendRefs(), StartApply(map[]), [tx], 0)
        == Ok(CreateOutputs(StartApply(map[]), tx, 0));
  }

  lemma GenesisState()
    ensures Replayable([GENESIS])
    ensures WellFormed(Replayed([GENESIS])) && JustGenesis(Replayed([GENESIS])) && 1 !in Replayed([GENESIS]).heightToHash
  {
    GenesisUtxos();
    GenesisWellFormed(GENESIS);
    GenesisTxs(GENESIS);
    assert TxidSet(GENESIS.txs) == {1} by { assert GENESIS.txs[0].txid == 1; }
    hide ApplyTxs, StoreTxs, IndexTxs, WellFormed, UtxosAgree, HistoryAgrees;
  }

  /** Applying one stake where the genesis output can still be marked. */
  lemma StakeApplies(refs: Refs, a: Applied, txid: Hash, h: nat)
    requires Outpoint(1, 0) in a.utxos && Spendable(refs, a.utxos[Outpoint(1, 0)], h, txid)
    ensures ApplyTxs(refs, a, [Stake(txid)], h).Ok? && ApplyTx(refs, a, Stake(txid), h).Ok?
    ensures ApplyTxs(refs, a, [Stake(txid)], h) == ApplyTx(refs, a, Stake(txid), h)
    ensures txid != 1 ==>
      var u := ApplyTx(refs, a, Stake(txid), h).value.utxos;
      Outpoint(1, 0) in u && u[Outpoint(1, 0)] == a.utxos[Outpoint(1, 0)].Spend(h, txid)
  {
    var tx := Stake(txid);
    assert [tx][..0] == [] && tx.Spends() == [Outpoint(1, 0)];
    SpendInputsOkIff(refs, a, tx.Spends(), h, txid);
    SpendInputsSpec(refs, a, tx.Spends(), h, txid);
  }

  lemma StakeExtends(s: Store, b: Block, txid: Hash)
    requires s.tip.Some? && b.prev == s.tip.value.hash && b.hash != ZERO_HASH && b.hash !in s.blocks
    requires b.txs == [Stake(txid)] && txid !in s.txs
    ensures Extends(s, b)
  {
  }

  /** A database that holds just the genesis block and its unspent output. */
  ghost predicate JustGenesis(s: Store) {
    && s.tip == Some(Tip(0, 10)) && s.blocks.Keys == {10} && s.txs.Keys == {1} && s.heightToHash.Keys == {0}
    && s.utxos == map[Outpoint(1, 0) := Utxo(TxOutput(50, PayTo(7)), 0, true, 0, ZERO_HASH)]
  }

  /** The state after the first of the two blocks. */
  lemma FirstConnected(s: Store)
    requires JustGenesis(s)
    ensures Extends(s, FIRST) && Append(s.SpendRefs(), s, FIRST).Ok?
    ensures var v := Append(s.SpendRefs(), s, FIRST).value;
      && Extends(v, SECOND) && Height(v) == 1
      && Outpoint(1, 0) in v.utxos && v.utxos[Outpoint(1, 0)].spentHeight == 1 && v.utxos[Outpoint(1, 0)].output.value == 50
  {
    var refs, a := s.SpendRefs(), StartApply(s.utxos);
    assert Spendable(refs, a.utxos[Outpoint(1, 0)], 1, 2);
    StakeExtends(s, FIRST, 2);
    assert Height(s) + 1 == 1 && TxidSet(FIRST.txs) == {2} by { assert FIRST.txs[0].txid == 2; }
    hide ApplyTxs, ApplyTx, StoreTxs, IndexTxs, Append, Extends, TxidSet;
    StakeApplies(refs, a, 2, 1);
    AppendUtxos(refs, s, FIRST);
    AppendFields(refs, s, FIRST);
    AppendKeys(refs, s, FIRST);
    StakeExtends(Append(refs, s, FIRST).value, SECOND, 3);
  }

  lemma SecondApplies(s: Store, v: Store)
    requires 1 !in s.heightToHash && Height(v) == 1
    requires Outpoint(1, 0) in v.utxos && v.utxos[Outpoint(1, 0)].spentHeight == 1
    ensures Append(s.SpendRefs(), v, SECOND).Ok?
  {
    var refs := s.SpendRefs();
    assert Spendable(refs, v.utxos[Outpoint(1, 0)], 2, 3);
    StakeApplies(refs, StartApply(v.utxos), 3, 2);
    AppendUtxos(refs, v, SECOND);
    hide ApplyTxs, ApplyTx, Append;
  }

  /** A batch of two blocks that spend the same output goes through, although
      connecting the second block after the first is refused. */
  lemma DoubleSpendAcrossBatch()
    ensures Replayable([GENESIS])
    ensures var s := Replayed([GENESIS]);
      AppendAll(s.SpendRefs(), s, [FIRST, SECOND]).Ok? && AppendEach(s, [FIRST, SECOND]).Err?
  {
    GenesisState();
    hide *;
    var s := Replayed([GENESIS]);
    var refs := s.SpendRefs();
    FirstConnected(s);
    var v := Append(refs, s, FIRST).value;
    SecondApplies(s, v);
    BatchOfTwo(refs, s, FIRST, SECOND, v);
    BatchIsSequential(s, [FIRST, SECOND]);
    CrossSpend();
  }

  lemma BatchOfTwo(refs: Refs, s: Store, a: Block, b: Block, v: Store)
    requires Append(refs, s, a) == Ok(v) && Extends(s, a) && Extends(v, b)
    ensures AppendAll(refs, s, [a, b]) == Append(refs, v, b) && ExtendsAll(refs, s, [a, b])
  {
    hide Append, Extends;
    assert [a][..0] == [] && AppendAll(refs, s, []) == Ok(s) && ExtendsAll(refs, s, []);
    assert AppendAll(refs, s, [a]) == Ok(v) && ExtendsAll(refs, s, [a]);
    assert [a, b][..1] == [a];
  }

  lemma CrossSpend()
    ensures !NoCrossSpend([FIRST, SECOND])
  {
    assert [FIRST, SECOND][..1] == [FIRST] && [FIRST][..0] == [];
    assert [Stake(2)][..0] == [] && [Stake(3)][..0] == [];
    assert Outpoint(1, 0) in InputsOf(FIRST.txs) && Outpoint(1, 0) in InputsOf(SECOND.txs);
    assert Outpoint(1, 0) in SpentBy([FIRST]);
  }

  lemma RepeatedByOne(tx: Transaction, seen: set<Outpoint>, spent: map<Outpoint, TxOutput>)
    requires Covers(spent, [tx])
    ensures forall op | op in tx.Spends() :: op in spent
    ensures TotalRepeated(Anyone, [tx], seen, spent) == RepeatedValue(Anyone, tx.Spends(), seen, spent)
    ensures InputsOf([tx]) == Outpoints(tx.Spends())
  {
    assert [tx][..0] == [] && seen + InputsOf([]) == seen;
    forall op | op in tx.Spends() ensures op in spent {
      var i :| 0 <= i < |tx.Spends()| && tx.Spends()[i] == op;
      assert [tx][0].Spends()[i] in spent;
    }
    assert TotalRepeated(Anyone, [], seen, spent) == 0;
  }

  lemma SpentTwice(first: map<Outpoint, TxOutput>, second: map<Outpoint, TxOutput>)
    requires Covers(first, FIRST.txs) && Covers(second, SECOND.txs)
    ensures Outpoint(1, 0) in second
    ensures TotalRepeated(Anyone, FIRST.txs, SpentBy([]), first) == 0
    ensures TotalRepeated(Anyone, SECOND.txs, SpentBy([FIRST]), second) == second[Outpoint(1, 0)].value
  {
    var op := Outpoint(1, 0);
    assert [FIRST][..0] == [] && [op][..0] == [];
    assert Stake(2).Spends() == Stake(3).Spends() == [op] && op in [op];
    RepeatedByOne(Stake(2), {}, first);
    RepeatedByOne(Stake(3), {op}, second);
    assert SpentBy([]) == {} && InputsOf(FIRST.txs) == {op} && SpentBy([FIRST]) == {op};
    assert RepeatedValue(Anyone, [op], {}, first) == 0;
    assert RepeatedValue(Anyone, [op], {op}, second) == second[op].value;
  }

  lemma SecondSpends(refs: Refs, v: Store)
    requires Append(refs, v, SECOND).Ok? && Outpoint(1, 0) in SpentWhile(refs, v, SECOND)
    requires Outpoint(1, 0) in v.utxos && v.utxos[Outpoint(1, 0)].output.value == 50
    ensures SpentWhile(refs, v, SECOND)[Outpoint(1, 0)].value == 50
  {
    var a, h := StartApply(v.utxos), Height(v) + 1;
    assert [Stake(3)][..0] == [] && Stake(3).Spends() == [Outpoint(1, 0)];
    AppendUtxos(refs, v, SECOND);
    hide Append;
    SpendInputsSpec(refs, a, Stake(3).Spends(), h, 3);
  }

  lemma RepeatedInBatch(refs: Refs, s: Store, v: Store)
    requires Append(refs, s, FIRST) == Ok(v) && Append(refs, v, SECOND).Ok?
    requires Outpoint(1, 0) in v.utxos && v.utxos[Outpoint(1, 0)].output.value == 50
    ensures AppendAll(refs, s, [FIRST, SECOND]).Ok? && BatchRepeated(Anyone, refs, s, [FIRST, SECOND]) == 50
  {
    hide Append, TotalRepeated, SpentWhile, SpentBy;
    assert [FIRST][..0] == [] && [FIRST, SECOND][..1] == [FIRST];
    assert AppendAll(refs, s, []) == Ok(s) && AppendAll(refs, s, [FIRST]) == Ok(v);
    SpentTwice(SpentWhile(refs, s, FIRST), SpentWhile(refs, v, SECOND));
    SecondSpends(refs, v);
    assert BatchRepeated(Anyone, refs, s, []) == 0 && BatchRepeated(Anyone, refs, s, [FIRST]) == 0;
  }

  lemma GenesisCounts()
    ensures Countable([GENESIS])
  {
    assert CountableBlock(GENESIS) by { assert GENESIS.txs[0].IsCoinbase(); }
  }

  lemma OnceEach()
    ensures NoDoubleSpend(FIRST.txs) && NoDoubleSpend(SECOND.txs)
  {
    assert Stake(2).Spends() == Stake(3).Spends() == [Outpoint(1, 0)];
  }

  /** The same batch goes through with each block on its own listing its outpoint
      once, and the stored money supply then falls short of the unspent outputs. */
  lemma DoubleSpendBreaksSupply()
    ensures Replayable([GENESIS]) && NoDoubleSpend(FIRST.txs) && NoDoubleSpend(SECOND.txs)
    ensures var s := Replayed([GENESIS]);
      && SupplyMatches(s) && AppendAll(s.SpendRefs(), s, [FIRST, SECOND]).Ok?
      && !SupplyMatches(AppendAll(s.SpendRefs(), s, [FIRST, SECOND]).value)
  {
    hide *;
    GenesisState();
    GenesisCounts();
    ChainTotals([GENESIS]);
    OnceEach();
    var s := Replayed([GENESIS]);
    FirstConnected(s);
    var v := Append(s.SpendRefs(), s, FIRST).value;
    SecondApplies(s, v);
    BatchOfTwo(s.SpendRefs(), s, FIRST, SECOND, v);
    RepeatedInBatch(s.SpendRefs(), s, v);
    BatchSupplyMatches(s, [FIRST, SECOND]);
  }

  // ---------------------------------------------------------------- one output, two transactions of a block

  lemma ApplyTwo(refs: Refs, a: Applied, t1: Transaction, t2: Transaction, h: nat)
    requires ApplyTx(refs, a, t1, h).Ok?
    ensures ApplyTxs(refs, a, [t1, t2], h) == ApplyTx(refs, ApplyTx(refs, a, t1, h).value, t2, h)
  {
    hide ApplyTx;
    assert [t1][..0] == [] && ApplyTxs(refs, a, [], h) == Ok(a);
    assert ApplyTxs(refs, a, [t1], h) == ApplyTx(refs, a, t1, h);
    assert [t1, t2][..1] == [t1];
  }

  /** Both transactions of the block can mark the output: within a block the first
      marker is not confirmed by the database. */
  lemma TwiceMarks(s: Store)
    requires JustGenesis(s)
    ensures var refs, a := s.SpendRefs(), StartApply(s.utxos);
      && ApplyTx(refs, a, Stake(2), 1).Ok?
      && var p := ApplyTx(refs, a, Stake(2), 1).value;
         && ApplyTxs(refs, a, TWICE.txs, 1) == ApplyTx(refs, p, Stake(3), 1) && ApplyTx(refs, p, Stake(3), 1).Ok?
         && Outpoint(1, 0) in p.utxos && p.utxos[Outpoint(1, 0)].output.value == 50
  {
    var refs, a := s.SpendRefs(), StartApply(s.utxos);
    assert Spendable(refs, a.utxos[Outpoint(1, 0)], 1, 2);
    hide ApplyTxs, ApplyTx;
    StakeApplies(refs, a, 2, 1);
    var p := ApplyTx(refs, a, Stake(2), 1).value;
    assert Spendable(refs, p.utxos[Outpoint(1, 0)], 1, 3);
    StakeApplies(refs, p, 3, 1);
    ApplyTwo(refs, a, Stake(2), Stake(3), 1);
  }

  lemma TwiceExtends(s: Store)
    requires JustGenesis(s)
    ensures Extends(s, TWICE) && Height(s) + 1 == 1
  {
  }

  lemma TwiceApplies(s: Store)
    requires JustGenesis(s)
    ensures Extends(s, TWICE) && Append(s.SpendRefs(), s, TWICE).Ok?
  {
    hide *;
    TwiceExtends(s);
    TwiceMarks(s);
    AppendUtxos(s.SpendRefs(), s, TWICE);
  }

  /** A block that spends one output twice is applied, and the stored money supply
      then falls short of the unspent outputs. */
  lemma DoubleSpendInBlock()
    ensures Replayable([GENESIS])
    ensures var s := Replayed([GENESIS]);
      && SupplyMatches(s) && Append(s.SpendRefs(), s, TWICE).Ok?
      && !SupplyMatches(Append(s.SpendRefs(), s, TWICE).value)
  {
    GenesisState();
    GenesisCounts();
    ChainTotals([GENESIS]);
    var s := Replayed([GENESIS]);
    hide Replayable, Replayed, WellFormed, SupplyMatches, Append, Extends, SpentWhile;
    TwiceApplies(s);
    AppendSupplyMatches(s, TWICE);
    RepeatedOnce(SpentWhile(s.SpendRefs(), s, TWICE));
    GenesisOutputSpent(s);
  }

  lemma RepeatedOnce(spent: map<Outpoint, TxOutput>)
    requires Covers(spent, TWICE.txs)
    ensures Outpoint(1, 0) in spent
    ensures TotalRepeated(Anyone, TWICE.txs, {}, spent) == spent[Outpoint(1, 0)].value
  {
    var op := Outpoint(1, 0);
    assert TWICE.txs[0].Spends()[0] == op;
    assert TWICE.txs[..1] == [Stake(2)] && [op][..0] == [];
    assert Stake(2).Spends() == Stake(3).Spends() == [op] && op in [op];
    RepeatedByOne(Stake(2), {}, spent);
    assert InputsOf([Stake(2)]) == {op} && {} + InputsOf([Stake(2)]) == {op};
    assert RepeatedValue(Anyone, [op], {}, spent) == 0;
    assert TotalRepeated(Anyone, [Stake(2)], {}, spent) == 0;
    assert RepeatedValue(Anyone, [op], {op}, spent) == spent[op].value;
  }

  lemma GenesisOutputSpent(s: Store)
    requires JustGenesis(s) && Append(s.SpendRefs(), s, TWICE).Ok? && Outpoint(1, 0) in SpentWhile(s.SpendRefs(), s, TWICE)
    ensures SpentWhile(s.SpendRefs(), s, TWICE)[Outpoint(1, 0)].value == 50
  {
    var refs, a := s.SpendRefs(), StartApply(s.utxos);
    assert Height(s) + 1 == 1 && Stake(3).Spends() == [Outpoint(1, 0)];
    TwiceMarks(s);
    hide ApplyTxs, Append;
    SpendInputsSpec(refs, ApplyTx(refs, a, Stake(2), 1).value, Stake(3).Spends(), 1, 3);
  }

  // ---------------------------------------------------------------- a long batch whose beginning is known

  /** A long batch is refused as known if its first 500 blocks are, whatever follows them. */
  method LongBatchRefused(bc: BlockChain, known: seq<Block>, rest: seq<Block>) returns (r: Result<(), ChainError>)
    requires |known| == 500 && rest != []
    requires forall i | 0 <= i < |known| :: bc.HasStoredBlock(known[i].hash)
    modifies bc, bc.storage, bc.tree`blockIndex
    ensures r == Err(AllBlocksExist) && bc.Now() == old(bc.Now())
  {
    var blocks := known + rest;
    assert forall i | 0 <= i < |known| :: blocks[i] == known[i] && bc.Now().Has(known[i].hash);
    Outcomes.KnownStart(bc.RulesNow(), bc.orphans, bc.Now(), blocks);
    hide *;
    ghost var parts;
    r, parts := bc.ProcessBatchUnifiedLocked(blocks, 0);
  }

  /** At a concrete input: 500 times the genesis block and then the block FIRST, which
      connects on its own. */
  method FirstRefused(bc: BlockChain) returns (r: Result<(), ChainError>)
    requires JustGenesis(bc.storage.db)
    modifies bc, bc.storage, bc.tree`blockIndex
    ensures r == Err(AllBlocksExist) && bc.storage.db == old(bc.storage.db)
    ensures Extends(bc.storage.db, FIRST) && Append(bc.storage.db.SpendRefs(), bc.storage.db, FIRST).Ok?
  {
    var known := seq(500, i => GENESIS);
    FirstConnected(bc.storage.db);
    assert GENESIS.hash in bc.storage.db.blocks;
    assert forall i | 0 <= i < |known| :: bc.HasStoredBlock(known[i].hash);
    hide *;
    bc.NowIs();
    r := LongBatchRefused(bc, known, [FIRST]);
    bc.NowIs();
  }

  // ---------------------------------------------------------------- a batch that branches off

  function Coinbase(txid: Hash): Transaction {
    Transaction(txid, [Outpoint(ZERO_HASH, MAX_UINT32)], [TxOutput(50, PayTo(7))])
  }

  /** Two blocks next to FIRST, on the genesis block. */
  const SIDE: seq<Block> := [Block(21, 10, [Coinbase(31)]), Block(22, 21, [Coinbase(32)])]

  lemma CoinbaseApplies(refs: Refs, a: Applied, txid: Hash, h: nat)
    ensures ApplyTxs(refs, a, [Coinbase(txid)], h) == Ok(CreateOutputs(a, Coinbase(txid), h))
  {
    var tx := Coinbase(txid);
    assert [tx][..0] == [] && tx.IsCoinbase() && tx.Spends() == [];
    assert ApplyTxs(refs, a, [], h) == Ok(a);
  }

  /** Connecting a block of one coinbase always works and leaves other outputs alone. */
  lemma CoinbaseConnects(refs: Refs, s: Store, hash: Hash, prev: Hash, txid: Hash, h: nat, best: nat)
    ensures var r := ConnectBlock(refs, s, Block(hash, prev, [Coinbase(txid)]), h, best);
      && r.Ok?
      && (forall op | op in s.utxos && op.hash != txid :: op in r.value.utxos && r.value.utxos[op] == s.utxos[op])
  {
    CoinbaseApplies(refs, StartApply(s.utxos), txid, h);
    assert forall op | op in NewUtxos(Coinbase(txid), h) :: op.hash == txid;
    hide ApplyTxs, StoreTxs, IndexTxs;
  }

  /** The state after genesis and FIRST. */
  ghost predicate FirstOnGenesis(s: Store) {
    && WellFormed(s) && s.tip == Some(Tip(1, 11)) && s.blocks.Keys == {10, 11} && s.txs.Keys == {1, 2}
    && 10 in s.hashToHeight && s.hashToHeight[10] == 0 && 11 in s.hashToHeight && s.hashToHeight[11] == 1
    && Outpoint(2, 1) in s.utxos && !s.utxos[Outpoint(2, 1)].IsSpent()
  }

  lemma GenesisHeights(s: Store)
    requires WellFormed(s) && JustGenesis(s)
    ensures s.tip.Some? && Height(s) == 0 && s.hashToHeight == map[10 := 0] && s.txs.Keys == {1} && s.blocks.Keys == {10}
    ensures TxidSet(FIRST.txs) == {2} && FIRST.hash == 11 && FIRST.txs == [Stake(2)]
    ensures Outpoint(1, 0) in s.utxos && Spendable(s.SpendRefs(), s.utxos[Outpoint(1, 0)], 1, 2)
  {
    assert FIRST.txs[0].txid == 2;
  }

  /** It is the state FIRST leads to. */
  lemma FirstReached(s: Store)
    requires WellFormed(s) && JustGenesis(s)
    ensures Append(s.SpendRefs(), s, FIRST).Ok? && FirstOnGenesis(Append(s.SpendRefs(), s, FIRST).value)
  {
    hide *;
    var refs, a := s.SpendRefs(), StartApply(s.utxos);
    assert a.utxos == s.utxos by { StartIs(s.utxos); }
    FirstConnected(s);
    GenesisHeights(s);
    StakeApplies(refs, a, 2, 1);
    OwnOutput(refs, a, 1);
    AppendUtxos(refs, s, FIRST);
    AppendFields(refs, s, FIRST);
    AppendKeys(refs, s, FIRST);
    AppendKeeps(refs, s, FIRST);
    FirstIs(Append(refs, s, FIRST).value);
  }

  lemma FirstIs(s: Store)
    requires WellFormed(s) && s.tip == Some(Tip(1, 11)) && s.blocks.Keys == {10, 11} && s.txs.Keys == {1, 2}
    requires s.hashToHeight == map[10 := 0, 11 := 1]
    requires Outpoint(2, 1) in s.utxos && !s.utxos[Outpoint(2, 1)].IsSpent()
    ensures FirstOnGenesis(s)
  {
    hide WellFormed;
  }

  lemma SideInOrder()
    ensures Outcomes.Sound(SIDE)
  {
    var a, b := SIDE[0], SIDE[1];
    assert SIDE[..1] == [a] && [a][..0] == [];
    assert HashesOf([]) == {} && HashesOf([a]) == {21};
    assert DistinctHashes([]) && DistinctHashes([a]);
  }

  lemma SideGenuine(s: Store)
    requires 21 !in s.blocks && 22 !in s.blocks && 31 !in s.txs && 32 !in s.txs
    ensures Genuine(s, SIDE)
  {
    var a, b := SIDE[0], SIDE[1];
    assert TxidSet(a.txs) == {31} by { assert a.txs[0].txid == 31; }
    assert TxidSet(b.txs) == {32} by { assert b.txs[0].txid == 32; }
    hide TxidSet;
    assert SIDE[..1] == [a] && [a][..0] == [];
    assert TxidsOf([]) == {} && TxidsOf([a]) == {31};
    assert Genuine(s, []) && Genuine(s, [a]);
  }

  /** Two coinbase blocks can be filled in one after the other. */
  lemma TwoFill(rules: Outcomes.Rules, s: Store, a: Block, b: Block, t1: Hash, t2: Hash, h: nat, best: nat)
    requires a.txs == [Coinbase(t1)] && b.txs == [Coinbase(t2)] && rules.Passes(a, h, false) && rules.Passes(b, h + 1, false)
    ensures var w := Outcomes.Filled(rules, s, [a, b], h, best, false);
      && w.Ok?
      && forall op | op in s.utxos && op.hash != t1 && op.hash != t2 :: op in w.value.utxos && w.value.utxos[op] == s.utxos[op]
  {
    hide ConnectBlock;
    var two := [a, b];
    assert two[..0] == [] && two[..0 + 1] == [a] && two[..1 + 1] == two;
    CoinbaseConnects(s.SpendRefs(), s, a.hash, a.prev, t1, h, best);
    assert a == Block(a.hash, a.prev, [Coinbase(t1)]) && b == Block(b.hash, b.prev, [Coinbase(t2)]);
    Outcomes.FilledNext(rules, s, two, h, best, false, 0, s);
    var v := ConnectBlock(s.SpendRefs(), s, a, h, best).value;
    CoinbaseConnects(s.SpendRefs(), v, b.hash, b.prev, t2, h + 1, best);
    Outcomes.FilledNext(rules, s, two, h, best, false, 1, v);
  }

  lemma SideFills(rules: Outcomes.Rules, s: Store)
    requires FirstOnGenesis(s) && rules.Passes(SIDE[0], 1, false) && rules.Passes(SIDE[1], 2, false)
    ensures var w := Outcomes.Filled(rules, s, SIDE, 1, 1, false);
      w.Ok? && Outpoint(2, 1) in w.value.utxos && w.value.utxos[Outpoint(2, 1)] == s.utxos[Outpoint(2, 1)]
  {
    hide WellFormed, Outcomes.Filled;
    TwoFill(rules, s, SIDE[0], SIDE[1], 31, 32, 1, 1);
    assert SIDE == [SIDE[0], SIDE[1]];
  }

  /** A batch of two blocks next to the tip block goes in and takes over the tip, although
      the tip block was never disconnected: it stays stored at its height and what it
      paid out stays unspent.  One of the two blocks alone is refused. */
  lemma BranchGoesIn(rules: Outcomes.Rules, orphans: set<Hash>, v: Outcomes.State)
    requires FirstOnGenesis(v.db) && v.bestHeight == 1 && v.bestHash == 11 && v.indexed <= {10, 11} && 21 !in orphans
    requires rules.Passes(SIDE[0], 1, false) && rules.Passes(SIDE[1], 2, false)
    ensures Outcomes.Outcome(rules, orphans, v, [SIDE[0]]) == Err(HeightNotAdvancing)
    ensures var r := Outcomes.Outcome(rules, orphans, v, SIDE);
      && r.Ok? && r.value.bestHeight == 2 && r.value.bestHash == 22 && r.value.db.tip == Some(Tip(2, 22))
      && !OneLine(r.value.db) && 11 in r.value.db.hashToHeight && r.value.db.hashToHeight[11] == 1
      && Outpoint(2, 1) in r.value.db.utxos && !r.value.db.utxos[Outpoint(2, 1)].IsSpent()
  {
    hide *;
    SideIs();
    var s, a := v.db, SIDE[0];
    SideFacts(s);
    SideInOrder();
    SideGenuine(s);
    SideFills(rules, s);
    SideTaken(v);
    Outcomes.OutcomeIs(rules, orphans, v, SIDE);
    Outcomes.OutcomeIs(rules, orphans, v, [a]);
    Outcomes.CommittedIs(rules, v, SIDE, 1);
    var w := Outcomes.Filled(rules, s, SIDE, 1, 1, false).value;
    Outcomes.AfterIs(v, SIDE, 1, w);
    Outcomes.SoundParts(SIDE);
    Outcomes.BranchDisplaces(rules, s, SIDE, 1, 1, false);
  }

  lemma SideIs()
    ensures |SIDE| == 2 && SIDE[0].hash == 21 && SIDE[0].prev == 10 && SIDE[1].hash == 22
  {
  }

  lemma SideFacts(s: Store)
    requires FirstOnGenesis(s)
    ensures OneLine(s) && s.tip == Some(Tip(1, 11)) && 1 in s.heightToHash && s.heightToHash[1] == 11
    ensures 21 !in s.blocks && 22 !in s.blocks && 31 !in s.txs && 32 !in s.txs
    ensures Outpoint(2, 1) in s.utxos && !s.utxos[Outpoint(2, 1)].IsSpent()
    ensures Outcomes.FirstHeight(s, SIDE[0]) == Ok(1)
  {
    hide WellFormed, OneLine;
    Outcomes.LineOfWellFormed(s);
    Outcomes.TipIndexed(s);
  }

  /** Neither block is known, and alone the first would not advance. */
  lemma SideTaken(v: Outcomes.State)
    requires FirstOnGenesis(v.db) && v.bestHeight == 1 && v.indexed <= {10, 11}
    ensures Outcomes.Unknown(v, SIDE) == SIDE && Outcomes.Unknown(v, [SIDE[0]]) == [SIDE[0]] && v.Has(10)
    ensures Outcomes.SingleCheck(v, SIDE[0]) == Err(HeightNotAdvancing)
  {
    hide WellFormed;
  }

  // ---------------------------------------------------------------- what a disconnect leaves behind

  /** Disconnecting never removes the money supply entry of the block, so connecting
      a block and disconnecting it restores everything exactly if that entry was
      there before with the same value, as it is after an earlier such round. */
  lemma SupplyStaysBehind(s: Store, b: Block)
    requires WellFormed(s) && Extends(s, b) && Append(s.SpendRefs(), s, b).Ok?
    ensures var h, r := Height(s) + 1, Append(s.SpendRefs(), s, b).value;
      && h in r.supply && DisconnectBlock(r, b).Ok?
      && (DisconnectBlock(r, b).value == s <==> h in s.supply && s.supply[h] == r.supply[h])
  {
    var h, r := Height(s) + 1, Append(s.SpendRefs(), s, b).value;
    DisconnectUndoesAppend(s, b);
    assert r.supply == s.supply[h := r.supply[h]];
    hide WellFormed, UndoTxs, ConnectBlock, DisconnectBlock;
    assert s.supply[h := r.supply[h]] == s.supply <==> h in s.supply && s.supply[h] == r.supply[h];
    assert s.(supply := r.supply) == s <==> r.supply == s.supply;
  }

  /** A block whose parent is not stored leaves the database before the missing
      parent is noticed. */
  lemma ParentMissedTooLate()
    ensures var s, b := ForkSearch.CUT_AT_ONE, Block(11, 99, []);
      && s.GetBlock(11) == Some(b) && DisconnectBlock(s, b).Ok?
      && 11 !in DisconnectBlock(s, b).value.blocks && DisconnectBlock(s, b).value.GetBlock(b.prev).None?
  {
    var s := ForkSearch.CUT_AT_ONE;
    assert s.LoadTxs([]) == [];
    assert UndoTxs(s.txs, Undone(s.utxos, s.txs, s.history), [], 1).Ok?;
  }

  /** The cache then goes on listing the block, and lookups answer that it is stored. */
  method StaleCache(bc: BlockChain) returns (r: Result<(), ChainError>, has: bool)
    requires bc.storage.db == ForkSearch.CUT_AT_ONE && bc.knownBlocks == map[11 := 1]
    modifies bc`bestBlock, bc`bestHeight, bc`bestHash, bc`knownBlocks, bc`chain, bc.storage, bc.tree`blockIndex
    ensures r == Err(BlockNotFound) && has && 11 !in bc.storage.db.blocks
    ensures old(bc.CacheAgrees()) && !bc.CacheAgrees()
  {
    ParentMissedTooLate();
    assert bc.CacheAgrees();
    hide BlockChain.Valid, BlockChain.Exact, WellFormed, DisconnectBlock;
    r := bc.DisconnectBlock(Block(11, 99, []));
    assert bc.knownBlocks == map[11 := 1] by { bc.MemoryFields(); }
    has := bc.HasBlock(11);
  }

  // ---------------------------------------------------------------- a second genesis

  /** A block without parent goes to height 0 whatever is stored there. */
  lemma SecondGenesisBreaksLine(refs: Refs, s: Store, b: Block)
    requires OneLine(s) && b.hash !in s.blocks
    requires ConnectBlock(refs, s, b, 0, Height(s)).Ok?
    ensures !OneLine(ConnectBlock(refs, s, b, 0, Height(s)).value)
  {
    var r := ConnectBlock(refs, s, b, 0, Height(s)).value;
    assert 0 in s.heightToHash && s.heightToHash[0] in s.hashToHeight;
    assert s.heightToHash[0] in r.hashToHeight && r.hashToHeight[s.heightToHash[0]] == 0 && r.heightToHash[0] == b.hash;
  }

  lemma LineKeptIff(refs: Refs, s: Store, b: Block, h: nat)
    requires OneLine(s) && TxsAgree(s) && Fresh(s, b) && (b.prev == s.tip.value.hash || b.prev == ZERO_HASH)
    requires if b.prev == ZERO_HASH then h == 0 else h == Height(s) + 1
    requires ConnectBlock(refs, s, b, h, Height(s)).Ok?
    ensures OneLine(ConnectBlock(refs, s, b, h, Height(s)).value) <==> b.prev != ZERO_HASH
  {
    assert s.tip.Some?;
    hide ConnectBlock, OneLine, TxsAgree;
    if b.prev == ZERO_HASH {
      SecondGenesisBreaksLine(refs, s, b);
    } else {
      Outcomes.AppendIsConnect(refs, s, b, Height(s));
      AppendOneLine(refs, s, b);
    }
  }

  lemma ParentHeight(bc: BlockChain, b: Block, h: nat)
    requires bc.Valid() && bc.CalculateBlockHeight(b) == Ok(h) && (b.prev == bc.bestHash || b.prev == ZERO_HASH)
    ensures OneLine(bc.storage.db) && TxsAgree(bc.storage.db) && bc.storage.db.tip == Some(Tip(bc.bestHeight, bc.bestHash))
    ensures Height(bc.storage.db) == bc.bestHeight && h == if b.prev == ZERO_HASH then 0 else bc.bestHeight + 1
  {
    bc.ValidTip();
    bc.ValidParts();
    Lines.StandsAgree(bc.storage.db, bc.chain);
    TipHeight(bc.storage.db, bc.chain);
    hide BlockChain.Valid, OneLine, TxsAgree, WellFormed;
  }

  /** A new block that passes the height check of single blocks, connected at the
      height computed for it, keeps the single line exactly if it names a parent;
      and a block that names none is kept out by the checkpoint at height 0. */
  lemma SingleKeepsLineIff(bc: BlockChain, b: Block, h: nat)
    requires bc.Valid() && Fresh(bc.storage.db, b) && (b.prev == bc.bestHash || b.prev == ZERO_HASH)
    requires bc.CalculateBlockHeight(b) == Ok(h)
    requires ConnectBlock(bc.storage.db.SpendRefs(), bc.storage.db, b, h, bc.bestHeight).Ok?
    ensures OneLine(ConnectBlock(bc.storage.db.SpendRefs(), bc.storage.db, b, h, bc.bestHeight).value) <==> b.prev != ZERO_HASH
    ensures b.prev == ZERO_HASH ==> h == 0 && !bc.AcceptedAt(b, h, true)
  {
    hide *;
    ParentHeight(bc, b, h);
    LineKeptIff(bc.storage.db.SpendRefs(), bc.storage.db, b, h);
    if b.prev == ZERO_HASH { KeptOut(bc, b); }
  }

  lemma KeptOut(bc: BlockChain, b: Block)
    requires bc.Valid() && Fresh(bc.storage.db, b)
    ensures !bc.AcceptedAt(b, 0, true)
  {
    bc.ValidParts();
    GenesisStored(bc.storage.db, bc.chain);
    hide BlockChain.Valid;
  }

  lemma GenesisStored(s: Store, c: seq<Block>)
    requires Lines.Stands(s, c)
    ensures c != [] && c[0].hash in s.blocks
  {
    TipHeight(s, c);
  }

  /** A block of one coinbase that names no parent. */
  const STRAY: Block := Block(12, ZERO_HASH, [Coinbase(4)])

  /** Such a block goes in next to the genesis block and takes over height 0. */
  lemma SecondGenesisGoesIn()
    ensures Replayable([GENESIS]) && OneLine(Replayed([GENESIS])) && Fresh(Replayed([GENESIS]), STRAY)
    ensures var s := Replayed([GENESIS]);
      && ConnectBlock(s.SpendRefs(), s, STRAY, 0, 0).Ok?
      && !OneLine(ConnectBlock(s.SpendRefs(), s, STRAY, 0, 0).value)
  {
    GenesisState();
    var s := Replayed([GENESIS]);
    hide Replayable, Replayed, TxsAgree, UtxosAgree, HistoryAgrees, ApplyTxs, StoreTxs, IndexTxs;
    assert Fresh(s, STRAY);
    CoinbaseApplies(s.SpendRefs(), StartApply(s.utxos), 4, 0);
    SecondGenesisBreaksLine(s.SpendRefs(), s, STRAY);
  }

  // ---------------------------------------------------------------- an output created and spent in one orphaned block

  /** Spends the second output of transaction 2. */
  const PASS_ON: Transaction := Transaction(3, [Outpoint(2, 1)], [TxOutput(0, EmptyScript), TxOutput(50, PayTo(8))])

  const CHAINED: Block := Block(11, 10, [Stake(2), PASS_ON])

  lemma PassOnApplies(refs: Refs, p: Applied, h: nat)
    requires Outpoint(2, 1) in p.utxos && !p.utxos[Outpoint(2, 1)].IsSpent()
    ensures ApplyTx(refs, p, PASS_ON, h).Ok?
  {
    assert PASS_ON.Spends() == [Outpoint(2, 1)];
    SpendInputsOkIff(refs, p, PASS_ON.Spends(), h, 3);
    hide SpendInputs;
  }

  lemma OwnOutput(refs: Refs, a: Applied, h: nat)
    requires ApplyTx(refs, a, Stake(2), h).Ok?
    ensures var p := ApplyTx(refs, a, Stake(2), h).value; Outpoint(2, 1) in p.utxos && !p.utxos[Outpoint(2, 1)].IsSpent()
  {
    assert Outpoint(2, 1) in Created(Stake(2));
    hide SpendInputs;
  }

  lemma ChainedExtends(s: Store)
    requires JustGenesis(s)
    ensures CHAINED.txs == [Stake(2), PASS_ON]
    ensures Extends(s, CHAINED) && Height(s) + 1 == 1 && Cleanup.NoZeroTxid(s, CHAINED)
    ensures Outpoint(1, 0) in s.utxos && Spendable(s.SpendRefs(), s.utxos[Outpoint(1, 0)], 1, 2)
  {
  }

  lemma ChainedApplies(s: Store)
    requires JustGenesis(s)
    ensures Extends(s, CHAINED) && Append(s.SpendRefs(), s, CHAINED).Ok?
  {
    hide *;
    var refs, a := s.SpendRefs(), StartApply(s.utxos);
    assert a.utxos == s.utxos by { StartIs(s.utxos); }
    ChainedExtends(s);
    StakeApplies(refs, a, 2, 1);
    OwnOutput(refs, a, 1);
    PassOnApplies(refs, ApplyTx(refs, a, Stake(2), 1).value, 1);
    ApplyTwo(refs, a, Stake(2), PASS_ON, 1);
    AppendUtxos(refs, s, CHAINED);
  }

  lemma StartIs(u: UtxoSet)
    ensures StartApply(u).utxos == u
  {
  }

  lemma ChainedSpendsOwn()
    ensures Outpoint(2, 1) in InputsOf(CHAINED.txs) && Outpoint(2, 1) in CreatedBy(CHAINED.txs)
  {
    assert CHAINED.txs[..1] == [Stake(2)] && PASS_ON.Spends() == [Outpoint(2, 1)] && Outpoint(2, 1) in PASS_ON.Spends();
    assert Outpoint(2, 1) in Created(Stake(2)) && [Stake(2)][..0] == [];
  }

  /** The cleanup of such a block, right after it was connected, does not restore the UTXO set. */
  lemma CleanupWritesBack()
    ensures Replayable([GENESIS])
    ensures var s := Replayed([GENESIS]);
      && Extends(s, CHAINED) && Append(s.SpendRefs(), s, CHAINED).Ok?
      && Orphans.RollBackTxs(Append(s.SpendRefs(), s, CHAINED).value.utxos, CHAINED.txs, 1, 2) != s.utxos
  {
    hide *;
    GenesisState();
    var s := Replayed([GENESIS]);
    ChainedExtends(s);
    ChainedApplies(s);
    ChainedSpendsOwn();
    Cleanup.CleanupRestoresIff(s, CHAINED);
  }
}
