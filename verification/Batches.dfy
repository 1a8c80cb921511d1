/** Connecting several blocks in one batch against connecting them one at a time.

    Inside a batch the spending references of already spent outputs are checked
    in the database as it was before the batch.  A marker set earlier in the same
    batch is therefore never confirmed, and the batch lets its output be spent
    again.  BatchIsSequential says exactly when that makes a difference. */
module Batches {
  import opened Wrappers
  import opened ChainTypes
  import opened Storage
  import opened Connect
  import opened Undo
  import opened Replay
  import opened Chains

  /** The view after a batch of blocks, references checked in refs throughout. */
  function AppendAll(refs: Refs, s: Store, blocks: seq<Block>): Result<Store, ChainError> {
    if blocks == [] then Ok(s)
    else
      match AppendAll(refs, s, blocks[..|blocks| - 1])
      case Err(e) => Err(e)
      case Ok(v) => Append(refs, v, blocks[|blocks| - 1])
  }

  /** The same blocks, each connected to the committed result of the one before. */
  function AppendEach(s: Store, blocks: seq<Block>): Result<Store, ChainError> {
    if blocks == [] then Ok(s)
    else
      match AppendEach(s, blocks[..|blocks| - 1])
      case Err(e) => Err(e)
      case Ok(v) => Append(v.SpendRefs(), v, blocks[|blocks| - 1])
  }

  /** Every block of the batch is new and on top of the one before it. */
  ghost predicate ExtendsAll(refs: Refs, s: Store, blocks: seq<Block>) {
    blocks == [] || (
      var front := blocks[..|blocks| - 1];
      && ExtendsAll(refs, s, front)
      && (AppendAll(refs, s, front).Ok? ==> Extends(AppendAll(refs, s, front).value, blocks[|blocks| - 1])))
  }

  /** Outpoints spent by any of the blocks. */
  function SpentBy(blocks: seq<Block>): set<Outpoint> {
    if blocks == [] then {}
    else SpentBy(blocks[..|blocks| - 1]) + InputsOf(blocks[|blocks| - 1].txs)
  }

  /** No outpoint is spent by two different blocks. */
  ghost predicate NoCrossSpend(blocks: seq<Block>) {
    blocks == [] || (
      && NoCrossSpend(blocks[..|blocks| - 1])
      && InputsOf(blocks[|blocks| - 1].txs) !! SpentBy(blocks[..|blocks| - 1]))
  }

  // ---------------------------------------------------------------- one block under two databases

  lemma {:induction false} SpendInputsSame(r1: Refs, r2: Refs, a: Applied, inputs: seq<Outpoint>, h: nat, txid: Hash)
    requires SpendInputs(r1, a, inputs, h, txid).Ok? && SpendInputs(r2, a, inputs, h, txid).Ok?
    ensures SpendInputs(r1, a, inputs, h, txid) == SpendInputs(r2, a, inputs, h, txid)
  {
    if inputs != [] {
      SpendInputsSame(r1, r2, a, inputs[..|inputs| - 1], h, txid);
    }
  }

  /** A database that confirms less accepts at least the same blocks, with the same result. */
  lemma {:induction false} ApplyTxsWeaken(weak: Refs, strong: Refs, a: Applied, txs: seq<Transaction>, h: nat)
    requires forall u: Utxo :: weak.Confirms(u) ==> strong.Confirms(u)
    requires ApplyTxs(strong, a, txs, h).Ok?
    ensures ApplyTxs(weak, a, txs, h) == ApplyTxs(strong, a, txs, h)
  {
    if txs != [] {
      var front, last := txs[..|txs| - 1], txs[|txs| - 1];
      ApplyTxsWeaken(weak, strong, a, front, h);
      var p := ApplyTxs(strong, a, front, h).value;
      SpendInputsOkIff(weak, p, last.Spends(), h, last.txid);
      SpendInputsOkIff(strong, p, last.Spends(), h, last.txid);
      SpendInputsSame(weak, strong, p, last.Spends(), h, last.txid);
    }
  }

  /** A block whose inputs were unspent before it is accepted whatever the
      database confirms, as long as it knows no block at this height. */
  lemma {:induction false} ApplyTxsUnspent(r1: Refs, r2: Refs, a: Applied, txs: seq<Transaction>, h: nat)
    requires ApplyTxs(r1, a, txs, h).Ok? && h !in r2.heightToHash
    requires forall op | op in InputsOf(txs) && op in a.utxos :: !a.utxos[op].IsSpent()
    ensures ApplyTxs(r2, a, txs, h) == ApplyTxs(r1, a, txs, h)
    ensures forall op | op in ApplyTxs(r1, a, txs, h).value.utxos ::
      var u := ApplyTxs(r1, a, txs, h).value.utxos[op];
      u.spentHeight == 0 || u.spentHeight == h || (op in a.utxos && u == a.utxos[op])
  {
    if txs != [] {
      var front, last := txs[..|txs| - 1], txs[|txs| - 1];
      ApplyTxsUnspent(r1, r2, a, front, h);
      var p := ApplyTxs(r1, a, front, h).value;
      SpendInputsOkIff(r1, p, last.Spends(), h, last.txid);
      SpendInputsOkIff(r2, p, last.Spends(), h, last.txid);
      SpendInputsSpec(r1, p, last.Spends(), h, last.txid);
      SpendInputsSame(r1, r2, p, last.Spends(), h, last.txid);
    }
  }

  // ---------------------------------------------------------------- the state inside a batch

  lemma MarksStep(u: UtxoSet, tx: Transaction, h: nat, made: set<Outpoint>, ins: set<Outpoint>)
    requires h > 0 && made <= u.Keys && Created(tx) !! u.Keys && Outpoints(tx.Spends()) <= u.Keys && ins <= u.Keys
    requires forall op | op in made :: u[op].spentHeight == if op in ins then h else 0
    ensures var v := SpendAll(u, tx.Spends(), h, tx.txid) + NewUtxos(tx, h);
      && v.Keys == u.Keys + Created(tx)
      && forall op | op in made + Created(tx) :: v[op].spentHeight == if op in ins + Outpoints(tx.Spends()) then h else 0
  {
  }

  /** Outputs created in a block carry a marker exactly if the block spends them. */
  lemma {:induction false} ApplyTxsMarks(refs: Refs, a: Applied, txs: seq<Transaction>, h: nat)
    requires ApplyTxs(refs, a, txs, h).Ok? && h > 0
    requires CreatedBy(txs) !! a.utxos.Keys && DistinctTxids(txs)
    ensures var r := ApplyTxs(refs, a, txs, h).value;
      && r.utxos.Keys == a.utxos.Keys + CreatedBy(txs)
      && forall op | op in CreatedBy(txs) :: r.utxos[op].spentHeight == if op in InputsOf(txs) then h else 0
  {
    hide Created, Outpoints, SpendAll, NewUtxos, SpendInputs;
    if txs != [] {
      var front, last := txs[..|txs| - 1], txs[|txs| - 1];
      ApplyTxsMarks(refs, a, front, h);
      ApplyTxsUndoReady(refs, a, front, h);
      LastTxFresh(refs, a, txs, h);
      var p := ApplyTxs(refs, a, front, h).value;
      SpendInputsSpec(refs, p, last.Spends(), h, last.txid);
      assert Outpoints(last.Spends()) <= p.utxos.Keys by { OutpointsIn(last.Spends(), p.utxos); }
      MarksStep(p.utxos, last, h, CreatedBy(front), InputsOf(front));
    }
  }

  lemma OutpointsIn(inputs: seq<Outpoint>, u: UtxoSet)
    requires forall op | op in inputs :: op in u
    ensures Outpoints(inputs) <= u.Keys
  {
  }

  /** v is s after a batch of blocks: the records of s are kept, later ones lie
      above its tip, and so do exactly the markers of outputs the batch spent. */
  ghost predicate BatchView(s: Store, v: Store, blocks: seq<Block>) {
    && WellFormed(v)
    && Height(v) == Height(s) + |blocks|
    && RecordsKept(s, v)
    && MarkedAbove(v.utxos, Height(s), SpentBy(blocks))
  }

  ghost predicate RecordsKept(s: Store, v: Store) {
    HeightsKept(s.heightToHash, v.heightToHash) && TxsKept(s.txs, v.txs, Height(s))
  }

  ghost predicate HeightsKept(m: map<nat, Hash>, n: map<nat, Hash>) {
    forall k | k in m :: k in n && n[k] == m[k]
  }

  ghost predicate TxsKept(m: TxIndex, n: TxIndex, top: nat) {
    && (forall t | t in m :: t in n && n[t] == m[t])
    && (forall t | t in n && t !in m :: n[t].height > top)
  }

  ghost predicate MarkedAbove(u: UtxoSet, top: nat, spent: set<Outpoint>) {
    && spent <= u.Keys
    && forall op | op in u :: u[op].spentHeight > top <==> op in spent
  }

  lemma BatchViewStart(s: Store)
    requires WellFormed(s)
    ensures BatchView(s, s, [])
  {
    forall op | op in s.utxos ensures s.utxos[op].spentHeight <= Height(s) {
      if s.utxos[op].IsSpent() { MarkersConfirmed(s, op); }
    }
  }

  lemma MarkedStep(refs: Refs, v: Store, b: Block, top: nat, spent: set<Outpoint>)
    requires WellFormed(v) && Extends(v, b) && Append(refs, v, b).Ok?
    requires MarkedAbove(v.utxos, top, spent) && top <= Height(v)
    ensures MarkedAbove(Append(refs, v, b).value.utxos, top, spent + InputsOf(b.txs))
  {
    hide StoreTxs, IndexTxs, OneLine, TxsAgree;
    var h := Height(v) + 1;
    CreatedFresh(v, b);
    ApplyTxsShape(refs, StartApply(v.utxos), b.txs, h);
    ApplyTxsMarks(refs, StartApply(v.utxos), b.txs, h);
    ApplyTxsUndoReady(refs, StartApply(v.utxos), b.txs, h);
  }

  lemma TxsKeptStep(m: TxIndex, n: TxIndex, top: nat, b: Block, h: nat)
    requires TxsKept(m, n, top) && h > top && DistinctTxids(b.txs) && TxidSet(b.txs) !! n.Keys
    ensures TxsKept(m, StoreTxs(n, b, h, |b.txs|), top)
  {
    hide StoreTxs;
    assert b.txs[..|b.txs|] == b.txs;
    StoreTxsSpec(n, b, h, |b.txs|);
  }

  lemma RecordsStep(refs: Refs, s: Store, v: Store, b: Block)
    requires WellFormed(v) && Extends(v, b) && Append(refs, v, b).Ok?
    requires RecordsKept(s, v) && Height(s) <= Height(v)
    ensures RecordsKept(s, Append(refs, v, b).value)
  {
    NextHeightFree(v);
    FreshTxidSet(v, b);
    hide WellFormed, Append, StoreTxs, TxsKept;
    AppendFields(refs, v, b);
    TxsKeptStep(s.txs, v.txs, Height(s), b, Height(v) + 1);
  }

  lemma NextHeightFree(v: Store)
    requires WellFormed(v)
    ensures v.tip.Some? && Height(v) + 1 !in v.heightToHash
  {
  }

  lemma SpentByAppend(front: seq<Block>, b: Block)
    ensures SpentBy(front + [b]) == SpentBy(front) + InputsOf(b.txs)
  {
    assert (front + [b])[..|front|] == front;
  }

  lemma BatchViewStep(refs: Refs, s: Store, v: Store, front: seq<Block>, b: Block)
    requires BatchView(s, v, front) && Extends(v, b) && Append(refs, v, b).Ok?
    ensures BatchView(s, Append(refs, v, b).value, front + [b])
  {
    hide Append, WellFormed, RecordsKept, MarkedAbove, InputsOf, Extends, SpentBy;
    AppendKeeps(refs, v, b);
    MarkedStep(refs, v, b, Height(s), SpentBy(front));
    RecordsStep(refs, s, v, b);
    SpentByAppend(front, b);
  }

  // ---------------------------------------------------------------- batch against sequence

  /** The result of Append depends on the committed database only through ApplyTxs. */
  lemma AppendSame(r1: Refs, r2: Refs, v: Store, b: Block)
    ensures Append(r1, v, b).Ok? <==> ApplyTxs(r1, StartApply(v.utxos), b.txs, Height(v) + 1).Ok?
    ensures ApplyTxs(r1, StartApply(v.utxos), b.txs, Height(v) + 1) == ApplyTxs(r2, StartApply(v.utxos), b.txs, Height(v) + 1)
      ==> Append(r1, v, b) == Append(r2, v, b)
  {
    hide ApplyTxs, StoreTxs, IndexTxs;
  }

  lemma AloneThenBatched(s: Store, v: Store, front: seq<Block>, b: Block)
    requires BatchView(s, v, front) && Extends(v, b) && Append(v.SpendRefs(), v, b).Ok?
    ensures Append(s.SpendRefs(), v, b) == Append(v.SpendRefs(), v, b)
    ensures InputsOf(b.txs) !! SpentBy(front)
  {
    hide ConnectBlock;
    AppendSame(v.SpendRefs(), s.SpendRefs(), v, b);
    AppendSame(s.SpendRefs(), v.SpendRefs(), v, b);
    ConfirmsKept(s, v);
    ApplyTxsWeaken(s.SpendRefs(), v.SpendRefs(), StartApply(v.utxos), b.txs, Height(v) + 1);
    InputsUnspent(v, b);
  }

  lemma BatchedThenAlone(s: Store, v: Store, front: seq<Block>, b: Block)
    requires WellFormed(s) && BatchView(s, v, front) && Extends(v, b)
    requires Append(s.SpendRefs(), v, b).Ok? && InputsOf(b.txs) !! SpentBy(front)
    ensures Append(v.SpendRefs(), v, b).Ok?
  {
    hide ConnectBlock;
    var h, a := Height(v) + 1, StartApply(v.utxos);
    AppendSame(v.SpendRefs(), s.SpendRefs(), v, b);
    AppendSame(s.SpendRefs(), v.SpendRefs(), v, b);
    CreatedFresh(v, b);
    ApplyTxsShape(s.SpendRefs(), a, b.txs, h);
    forall op | op in InputsOf(b.txs) && op in v.utxos
      ensures !v.utxos[op].IsSpent()
    {
      if v.utxos[op].IsSpent() { OldMarkerConfirmed(s, v, front, op); }
    }
    ApplyTxsUnspent(s.SpendRefs(), v.SpendRefs(), a, b.txs, h);
  }

  /** At a batch view, the next block connects on its own exactly if it spends
      nothing the batch already spent; either way the resulting stores agree. */
  lemma StepAgrees(s: Store, v: Store, front: seq<Block>, b: Block)
    requires WellFormed(s) && BatchView(s, v, front) && Extends(v, b)
    ensures Append(v.SpendRefs(), v, b).Ok? ==> Append(s.SpendRefs(), v, b) == Append(v.SpendRefs(), v, b)
    ensures Append(s.SpendRefs(), v, b).Ok? ==>
      (Append(v.SpendRefs(), v, b).Ok? <==> InputsOf(b.txs) !! SpentBy(front))
  {
    hide ConnectBlock, WellFormed, BatchView, Extends, InputsOf;
    if Append(v.SpendRefs(), v, b).Ok? {
      AloneThenBatched(s, v, front, b);
    } else if Append(s.SpendRefs(), v, b).Ok? && InputsOf(b.txs) !! SpentBy(front) {
      BatchedThenAlone(s, v, front, b);
    }
  }

  lemma ConfirmsKept(s: Store, v: Store)
    requires RecordsKept(s, v)
    ensures forall u: Utxo :: s.SpendRefs().Confirms(u) ==> v.SpendRefs().Confirms(u)
  {
  }

  lemma OldMarkerConfirmed(s: Store, v: Store, front: seq<Block>, op: Outpoint)
    requires WellFormed(s) && BatchView(s, v, front)
    requires op in v.utxos && v.utxos[op].IsSpent() && op !in SpentBy(front)
    ensures s.SpendRefs().Confirms(v.utxos[op]) && v.utxos[op].spentHeight <= Height(s)
  {
    MarkersConfirmed(v, op);
  }

  /** A batch that goes through leaves the store that connecting its blocks one
      by one leaves, provided that goes through; and it does exactly if no
      outpoint is spent by two different blocks of the batch. */
  lemma {:induction false} BatchIsSequential(s: Store, blocks: seq<Block>)
    requires WellFormed(s) && ExtendsAll(s.SpendRefs(), s, blocks)
    requires AppendAll(s.SpendRefs(), s, blocks).Ok?
    ensures BatchView(s, AppendAll(s.SpendRefs(), s, blocks).value, blocks)
    ensures AppendEach(s, blocks).Ok? <==> NoCrossSpend(blocks)
    ensures AppendEach(s, blocks).Ok? ==> AppendEach(s, blocks) == AppendAll(s.SpendRefs(), s, blocks)
  {
    hide ConnectBlock, WellFormed, BatchView, Extends, InputsOf;
    if blocks == [] {
      BatchViewStart(s);
    } else {
      var front, b := blocks[..|blocks| - 1], blocks[|blocks| - 1];
      BatchIsSequential(s, front);
      var v := AppendAll(s.SpendRefs(), s, front).value;
      StepAgrees(s, v, front, b);
      BatchViewStep(s.SpendRefs(), s, v, front, b);
      assert front + [b] == blocks;
    }
  }

  // ---------------------------------------------------------------- conditions on a batch before it is connected

  function LastHash(h: Hash, blocks: seq<Block>): Hash {
    if blocks == [] then h else blocks[|blocks| - 1].hash
  }

  /** The blocks follow one another, the first one after the block with this hash. */
  ghost predicate LinkedFrom(h: Hash, blocks: seq<Block>) {
    blocks == [] || (
      && LinkedFrom(h, blocks[..|blocks| - 1])
      && blocks[|blocks| - 1].prev == LastHash(h, blocks[..|blocks| - 1]))
  }

  function HashesOf(blocks: seq<Block>): set<Hash> {
    if blocks == [] then {} else HashesOf(blocks[..|blocks| - 1]) + {blocks[|blocks| - 1].hash}
  }

  function TxidsOf(blocks: seq<Block>): set<Hash> {
    if blocks == [] then {} else TxidsOf(blocks[..|blocks| - 1]) + TxidSet(blocks[|blocks| - 1].txs)
  }

  /** What block hashes and transaction ids being hashes gives: no zero hash, a
      hash stands for one header, and transactions are new. */
  ghost predicate Genuine(s: Store, blocks: seq<Block>) {
    blocks == [] || (
      var b := blocks[|blocks| - 1];
      && Genuine(s, blocks[..|blocks| - 1])
      && b.hash != ZERO_HASH
      && (b.hash in s.blocks ==> s.blocks[b.hash].prev == b.prev)
      && DistinctTxids(b.txs)
      && TxidSet(b.txs) !! s.txs.Keys + TxidsOf(blocks[..|blocks| - 1]))
  }

  ghost predicate DistinctHashes(blocks: seq<Block>) {
    blocks == [] || (
      && DistinctHashes(blocks[..|blocks| - 1])
      && blocks[|blocks| - 1].hash !in HashesOf(blocks[..|blocks| - 1]))
  }

  /** In a linked batch whose first block is new, the last block is new. */
  lemma {:induction false} LastBlockNew(s: Store, blocks: seq<Block>)
    requires OneLine(s) && Genuine(s, blocks) && LinkedFrom(s.tip.value.hash, blocks)
    requires blocks != [] && blocks[0].hash !in s.blocks
    ensures blocks[|blocks| - 1].hash !in s.blocks
  {
    if |blocks| > 1 {
      var front, b := blocks[..|blocks| - 1], blocks[|blocks| - 1];
      assert front[0] == blocks[0];
      LastBlockNew(s, front);
      var parent := front[|front| - 1].hash;
      assert Genuine(s, front) && parent != ZERO_HASH && b.prev == parent;
      if b.hash in s.blocks {
        ParentStored(s, b.hash);
      }
    }
  }

  lemma ParentStored(s: Store, x: Hash)
    requires OneLine(s) && x in s.blocks
    ensures s.blocks[x].prev == ZERO_HASH || s.blocks[x].prev in s.blocks
  {
  }

  /** v is s moved forward by these blocks. */
  ghost predicate Advanced(s: Store, v: Store, blocks: seq<Block>)
    requires s.tip.Some?
  {
    && WellFormed(v)
    && v.tip == Some(Tip(Height(s) + |blocks|, LastHash(s.tip.value.hash, blocks)))
    && v.blocks.Keys == s.blocks.Keys + HashesOf(blocks)
    && v.txs.Keys == s.txs.Keys + TxidsOf(blocks)
  }

  /** Such a batch extends the tip block by block. */
  lemma {:induction false} GenuineExtends(refs: Refs, s: Store, blocks: seq<Block>)
    requires WellFormed(s) && Genuine(s, blocks) && DistinctHashes(blocks)
    requires LinkedFrom(s.tip.value.hash, blocks) && (blocks != [] ==> blocks[0].hash !in s.blocks)
    ensures ExtendsAll(refs, s, blocks)
    ensures AppendAll(refs, s, blocks).Ok? ==> Advanced(s, AppendAll(refs, s, blocks).value, blocks)
  {
    hide Append, TxidSet, WellFormed, Extends;
    assert s.tip.Some? by { WellFormedTip(s); }
    if blocks != [] {
      var front, b := blocks[..|blocks| - 1], blocks[|blocks| - 1];
      GenuineExtends(refs, s, front);
      if AppendAll(refs, s, front).Ok? {
        var v := AppendAll(refs, s, front).value;
        NextExtends(s, v, blocks);
        if Append(refs, v, b).Ok? {
          AppendKeeps(refs, v, b);
          AppendKeys(refs, v, b);
        }
      }
    }
  }

  lemma WellFormedTip(s: Store)
    requires WellFormed(s)
    ensures s.tip.Some?
  {
  }

  lemma NextExtends(s: Store, v: Store, blocks: seq<Block>)
    requires WellFormed(s) && blocks != [] && Genuine(s, blocks) && DistinctHashes(blocks)
    requires LinkedFrom(s.tip.value.hash, blocks) && blocks[0].hash !in s.blocks
    requires Advanced(s, v, blocks[..|blocks| - 1])
    ensures Extends(v, blocks[|blocks| - 1])
  {
    LastBlockNew(s, blocks);
    LastParts(s, blocks);
    hide WellFormed, Genuine, DistinctHashes, LinkedFrom, LastHash, HashesOf, TxidsOf, TxidSet, DistinctTxids;
    var b := blocks[|blocks| - 1];
    assert v.blocks.Keys == s.blocks.Keys + HashesOf(blocks[..|blocks| - 1]);
    NotStored(v.txs, b);
  }

  lemma LastParts(s: Store, blocks: seq<Block>)
    requires s.tip.Some? && blocks != [] && Genuine(s, blocks) && DistinctHashes(blocks) && LinkedFrom(s.tip.value.hash, blocks)
    ensures var front, b := blocks[..|blocks| - 1], blocks[|blocks| - 1];
      && b.hash != ZERO_HASH && DistinctTxids(b.txs) && TxidSet(b.txs) !! s.txs.Keys + TxidsOf(front)
      && b.hash !in HashesOf(front) && b.prev == LastHash(s.tip.value.hash, front)
  {
  }

  lemma NotStored(txs: TxIndex, b: Block)
    requires TxidSet(b.txs) !! txs.Keys
    ensures forall i | 0 <= i < |b.txs| :: b.txs[i].txid !in txs
  {
    assert forall i | 0 <= i < |b.txs| :: b.txs[i].txid in TxidSet(b.txs);
  }

  lemma AppendKeys(refs: Refs, v: Store, b: Block)
    requires Extends(v, b) && Append(refs, v, b).Ok?
    ensures Append(refs, v, b).value.blocks.Keys == v.blocks.Keys + {b.hash}
    ensures Append(refs, v, b).value.txs.Keys == v.txs.Keys + TxidSet(b.txs)
  {
    AppendFields(refs, v, b);
    hide ConnectBlock, StoreTxs;
    assert b.txs[..|b.txs|] == b.txs;
    StoreTxsSpec(v.txs, b, Height(v) + 1, |b.txs|);
  }

  /** The last block of a batch that goes through one by one connects on its own. */
  lemma LastAlone(s: Store, blocks: seq<Block>)
    requires WellFormed(s) && ExtendsAll(s.SpendRefs(), s, blocks) && blocks != []
    requires AppendAll(s.SpendRefs(), s, blocks).Ok? && NoCrossSpend(blocks)
    ensures var v := AppendAll(s.SpendRefs(), s, blocks[..|blocks| - 1]).value;
      Append(v.SpendRefs(), v, blocks[|blocks| - 1]) == AppendAll(s.SpendRefs(), s, blocks)
  {
    hide Append, WellFormed, Extends, BatchView;
    BatchIsSequential(s, blocks);
    BatchIsSequential(s, blocks[..|blocks| - 1]);
  }

  /** A batch without cross spends on a store that holds c leads to one that holds c + blocks. */
  lemma {:induction false} HoldsBatch(s: Store, c: seq<Block>, blocks: seq<Block>)
    requires Holds(s, c) && ExtendsAll(s.SpendRefs(), s, blocks)
    requires AppendAll(s.SpendRefs(), s, blocks).Ok? && NoCrossSpend(blocks)
    ensures Holds(AppendAll(s.SpendRefs(), s, blocks).value, c + blocks)
  {
    hide Append, Extends, Holds, WellFormed;
    if blocks == [] {
      assert c + blocks == c;
    } else {
      var front, b := blocks[..|blocks| - 1], blocks[|blocks| - 1];
      HoldsBatch(s, c, front);
      HoldsWellFormed(s, c);
      LastAlone(s, blocks);
      HoldsAppend(AppendAll(s.SpendRefs(), s, front).value, c + front, b);
      assert c + front + [b] == c + blocks;
    }
  }

  /** The last block of a replayable chain connects to any store that holds the rest. */
  lemma ReplayNext(v: Store, c: seq<Block>, b: Block)
    requires Holds(v, c) && Replayable(c + [b])
    ensures Extends(v, b) && Append(v.SpendRefs(), v, b).Ok?
  {
    assert (c + [b])[..|c|] == c;
    ReplayWellFormed(c);
    AppendTrim(v.SpendRefs(), v, b);
  }

  /** What a longer replayable chain adds connects one by one. */
  lemma {:induction false} ReplayEach(s: Store, c: seq<Block>, blocks: seq<Block>)
    requires Holds(s, c) && Replayable(c + blocks)
    ensures AppendEach(s, blocks).Ok? && Holds(AppendEach(s, blocks).value, c + blocks)
  {
    hide Append, Extends, Holds, Replayable;
    if blocks == [] {
      assert c + blocks == c;
    } else {
      var front, b := blocks[..|blocks| - 1], blocks[|blocks| - 1];
      HoldsReplayed(s, c);
      assert c + blocks == c + front + [b] && (c + blocks)[..|c + front|] == c + front;
      assert c != [] by { ReplayableSome(c); }
      ReplayablePrefix(c + blocks, |c + front|);
      ReplayEach(s, c, front);
      var v := AppendEach(s, front).value;
      ReplayNext(v, c + front, b);
      HoldsAppend(v, c + front, b);
    }
  }

  lemma ReplayableSome(c: seq<Block>)
    requires Replayable(c)
    ensures c != []
  {
  }

  /** A batch that goes through on a store that holds c leads to one that holds
      c + blocks exactly if no outpoint is spent by two different blocks. */
  lemma HoldsBatchIff(s: Store, c: seq<Block>, blocks: seq<Block>)
    requires Holds(s, c) && ExtendsAll(s.SpendRefs(), s, blocks) && AppendAll(s.SpendRefs(), s, blocks).Ok?
    ensures Holds(AppendAll(s.SpendRefs(), s, blocks).value, c + blocks) <==> NoCrossSpend(blocks)
  {
    hide Append, Extends, Holds, Replayable, NoCrossSpend, BatchView, WellFormed, ExtendsAll, AppendAll, AppendEach;
    var v := AppendAll(s.SpendRefs(), s, blocks).value;
    if NoCrossSpend(blocks) { HoldsBatch(s, c, blocks); }
    if Holds(v, c + blocks) {
      HoldsReplayed(v, c + blocks);
      ReplayEach(s, c, blocks);
      HoldsWellFormed(s, c);
      BatchIsSequential(s, blocks);
    }
  }

  // ---------------------------------------------------------------- markers inside a batch

  lemma SpentStays(refs: Refs, v: Store, b: Block, op: Outpoint)
    requires WellFormed(v) && Extends(v, b) && Append(refs, v, b).Ok? && op in v.utxos
    ensures var w := Append(refs, v, b).value;
      && op in w.utxos
      && (op !in InputsOf(b.txs) ==> w.utxos[op] == v.utxos[op])
      && (v.utxos[op].IsSpent() || op in InputsOf(b.txs) ==> w.utxos[op].IsSpent())
    ensures op in InputsOf(b.txs) ==>
      !v.utxos[op].IsSpent() || v.utxos[op].spentHeight == Height(v) + 1 || !refs.Confirms(v.utxos[op])
  {
    hide StoreTxs, IndexTxs, OneLine, TxsAgree;
    CreatedFresh(v, b);
    ApplyTxsShape(refs, StartApply(v.utxos), b.txs, Height(v) + 1);
  }

  lemma ViewHeight(s: Store, v: Store, blocks: seq<Block>)
    requires BatchView(s, v, blocks)
    ensures Height(v) == Height(s) + |blocks| && WellFormed(v)
  {
  }

  lemma ViewMarked(s: Store, v: Store, blocks: seq<Block>)
    requires BatchView(s, v, blocks)
    ensures forall op | op in SpentBy(blocks) :: op in v.utxos && v.utxos[op].IsSpent()
  {
  }
}
