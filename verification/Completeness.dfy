/** The second half of the stored invariant: nothing is missing.

    Replay.WellFormed says that every stored entry is justified.  Complete says that
    every output of a stored transaction is there, every input is known, every
    marker names a transaction that spends the output, and every history entry
    belongs to its transaction.  Together they are kept by every connect, whatever
    the spending references are checked against, and by every disconnect of the tip. */
module Completeness {
  import opened Wrappers
  import opened ChainTypes
  import opened Storage
  import opened Connect
  import opened Undo
  import opened Replay

  /** a stands before b in the chain. */
  predicate Before(a: TxRecord, b: TxRecord) {
    a.height < b.height || (a.height == b.height && a.index < b.index)
  }

  /** Every input of the record's transaction is an output of an earlier transaction. */
  ghost predicate KnowsInputs(index: TxIndex, r: TxRecord) {
    forall op | op in r.tx.Spends() :: PrevOutput(index, op).Some? && Before(index[op.hash], r)
  }

  ghost predicate InputsKnown(index: TxIndex) {
    forall t | t in index :: KnowsInputs(index, index[t])
  }

  ghost predicate OutputsHeld(index: TxIndex, utxos: UtxoSet) {
    forall t, i: nat | t in index && i < |index[t].tx.outputs| :: Outpoint(t, i) in utxos
  }

  ghost predicate OutputsReal(index: TxIndex, utxos: UtxoSet) {
    forall op | op in utxos :: PrevOutput(index, op).Some?
  }

  ghost predicate MarkersNamed(index: TxIndex, utxos: UtxoSet) {
    forall op | op in utxos && utxos[op].IsSpent() ::
      utxos[op].spentBy in index && op in index[utxos[op].spentBy].tx.Spends()
  }

  /** The history keys of one transaction. */
  function KeysOf(index: TxIndex, r: TxRecord): set<HistoryKey> {
    OutputKeys(r.tx, r.height) + InputKeys(index, r.tx, r.height)
  }

  ghost predicate HistoryPlaced(index: TxIndex, hist: History) {
    forall k | k in hist :: k.txid in index && k in KeysOf(index, index[k.txid])
  }

  ghost predicate Linked(index: TxIndex, utxos: UtxoSet) {
    && InputsKnown(index)
    && OutputsHeld(index, utxos)
    && OutputsReal(index, utxos)
    && MarkersNamed(index, utxos)
  }

  ghost predicate Complete(s: Store) {
    Linked(s.txs, s.utxos) && HistoryPlaced(s.txs, s.history)
  }

  // ---------------------------------------------------------------- connecting keeps it

  lemma InputsStep(index: TxIndex, u: UtxoSet, rec: TxRecord)
    requires InputsKnown(index) && OutputsReal(index, u) && rec.tx.txid !in index
    requires forall op | op in rec.tx.Spends() :: op in u
    requires forall t | t in index :: Before(index[t], rec)
    ensures InputsKnown(index[rec.tx.txid := rec])
  {
    var more := index[rec.tx.txid := rec];
    forall t | t in more ensures KnowsInputs(more, more[t]) {
      if t == rec.tx.txid {
        assert forall op | op in rec.tx.Spends() :: PrevOutput(index, op).Some?;
      } else {
        assert KnowsInputs(index, index[t]);
      }
    }
  }

  lemma MarkersStep(index: TxIndex, u: UtxoSet, rec: TxRecord)
    requires MarkersNamed(index, u) && rec.tx.txid !in index
    ensures MarkersNamed(index[rec.tx.txid := rec], SpendAll(u, rec.tx.Spends(), rec.height, rec.tx.txid) + NewUtxos(rec.tx, rec.height))
  {
  }

  lemma OutputsStep(index: TxIndex, u: UtxoSet, rec: TxRecord)
    requires OutputsHeld(index, u) && OutputsReal(index, u) && rec.tx.txid !in index
    ensures var more, v := index[rec.tx.txid := rec], SpendAll(u, rec.tx.Spends(), rec.height, rec.tx.txid) + NewUtxos(rec.tx, rec.height);
      OutputsHeld(more, v) && OutputsReal(more, v)
  {
  }

  lemma LinkedTx(refs: Refs, p: Applied, index: TxIndex, rec: TxRecord)
    requires Linked(index, p.utxos) && rec.tx.txid !in index && ApplyTx(refs, p, rec.tx, rec.height).Ok?
    requires forall t | t in index :: Before(index[t], rec)
    ensures Linked(index[rec.tx.txid := rec], ApplyTx(refs, p, rec.tx, rec.height).value.utxos)
  {
    SpendInputsSpec(refs, p, rec.tx.Spends(), rec.height, rec.tx.txid);
    InputsStep(index, p.utxos, rec);
    MarkersStep(index, p.utxos, rec);
    OutputsStep(index, p.utxos, rec);
    hide InputsKnown, OutputsHeld, OutputsReal, MarkersNamed, SpendInputs, SpendAll, NewUtxos;
  }

  lemma StoredBefore(index: TxIndex, b: Block, h: nat, n: nat)
    requires n < |b.txs| && DistinctTxids(b.txs) && forall t | t in index :: index[t].height < h
    ensures forall t | t in StoreTxs(index, b, h, n) :: Before(StoreTxs(index, b, h, n)[t], TxRecord(b.hash, h, n, b.txs[n]))
  {
    hide StoreTxs;
    StoreTxsSpec(index, b, h, n);
    forall t | t in StoreTxs(index, b, h, n)
      ensures Before(StoreTxs(index, b, h, n)[t], TxRecord(b.hash, h, n, b.txs[n]))
    {
      if t in TxidSet(b.txs[..n]) {
        var i :| 0 <= i < n && b.txs[..n][i].txid == t;
        assert b.txs[i].txid == t;
      }
    }
  }

  lemma {:induction false} LinkedTxs(refs: Refs, a: Applied, index: TxIndex, b: Block, h: nat, n: nat)
    requires n <= |b.txs| && DistinctTxids(b.txs) && Linked(index, a.utxos)
    requires TxidSet(b.txs) !! index.Keys && forall t | t in index :: index[t].height < h
    requires ApplyTxs(refs, a, b.txs[..n], h).Ok?
    ensures Linked(StoreTxs(index, b, h, n), ApplyTxs(refs, a, b.txs[..n], h).value.utxos)
  {
    hide Linked, ApplyTx, TxidSet;
    if n > 0 {
      assert b.txs[..n][..n - 1] == b.txs[..n - 1];
      LinkedTxs(refs, a, index, b, h, n - 1);
      NewTxid(index, b, h, n - 1);
      StoredBefore(index, b, h, n - 1);
      LinkedTx(refs, ApplyTxs(refs, a, b.txs[..n - 1], h).value, StoreTxs(index, b, h, n - 1), TxRecord(b.hash, h, n - 1, b.txs[n - 1]));
    }
  }

  // ---------------------------------------------------------------- history

  lemma {:induction false} UndoKeysOf(index: TxIndex, txs: seq<Transaction>, h: nat, k: HistoryKey)
    requires k in UndoKeys(index, txs, h)
    ensures exists i :: 0 <= i < |txs| && k.txid == txs[i].txid && k in OutputKeys(txs[i], h) + InputKeys(index, txs[i], h)
  {
    var front, last := txs[..|txs| - 1], txs[|txs| - 1];
    if k in UndoKeys(index, front, h) {
      UndoKeysOf(index, front, h, k);
      var i :| 0 <= i < |front| && k.txid == front[i].txid && k in OutputKeys(front[i], h) + InputKeys(index, front[i], h);
      assert txs[i] == front[i];
    } else {
      assert k in OutputKeys(txs[|txs| - 1], h) + InputKeys(index, txs[|txs| - 1], h);
    }
  }

  /** Keys of a transaction stay its keys when the index grows. */
  lemma KeysGrow(index: TxIndex, more: TxIndex, r: TxRecord)
    requires forall t | t in index :: t in more && more[t] == index[t]
    ensures KeysOf(index, r) <= KeysOf(more, r)
  {
    forall k | k in InputKeys(index, r.tx, r.height) ensures k in InputKeys(more, r.tx, r.height) {
      var i :| 0 <= i < |r.tx.Spends()| && i <= INDEX_IO_MASK && PrevOutput(index, r.tx.Spends()[i]).Some?
        && AddressOf(PrevOutput(index, r.tx.Spends()[i]).value.script).Some?
        && k == KeyFor(AddressOf(PrevOutput(index, r.tx.Spends()[i]).value.script).value, r.height, r.tx.txid, i, true);
      assert PrevOutput(more, r.tx.Spends()[i]) == PrevOutput(index, r.tx.Spends()[i]);
    }
  }

  lemma HistoryStep(hist: History, more: History, index: TxIndex, b: Block, h: nat)
    requires DistinctTxids(b.txs) && TxidSet(b.txs) !! index.Keys && HistoryPlaced(index, hist)
    requires more.Keys <= hist.Keys + UndoKeys(StoreTxs(index, b, h, |b.txs|), b.txs, h)
    ensures HistoryPlaced(StoreTxs(index, b, h, |b.txs|), more)
  {
    hide StoreTxs, UndoKeys, KeysOf;
    var index' := StoreTxs(index, b, h, |b.txs|);
    assert b.txs[..|b.txs|] == b.txs;
    StoreTxsSpec(index, b, h, |b.txs|);
    forall k | k in more ensures k.txid in index' && k in KeysOf(index', index'[k.txid]) {
      if k in hist {
        KeysGrow(index, index', index[k.txid]);
      } else {
        UndoKeysOf(index', b.txs, h, k);
        var i :| 0 <= i < |b.txs| && k.txid == b.txs[i].txid && k in OutputKeys(b.txs[i], h) + InputKeys(index', b.txs[i], h);
        assert index'[k.txid] == TxRecord(b.hash, h, i, b.txs[i]);
        KeysAre(index', index'[k.txid]);
      }
    }
  }

  lemma KeysAre(index: TxIndex, r: TxRecord)
    ensures KeysOf(index, r) == OutputKeys(r.tx, r.height) + InputKeys(index, r.tx, r.height)
  {
  }

  // ---------------------------------------------------------------- whole blocks

  /** No indexed transaction lies above the tip. */
  lemma RecordsBelow(s: Store)
    requires OneLine(s) && TxsAgree(s)
    ensures forall t | t in s.txs :: s.txs[t].height <= Height(s)
  {
    forall t | t in s.txs ensures s.txs[t].height <= Height(s) {
      assert Placed(s.blocks, s.txs[t], t);
    }
  }

  lemma AppendHistoryKeys(refs: Refs, s: Store, b: Block)
    requires WellFormed(s) && Extends(s, b) && Append(refs, s, b).Ok?
    ensures var r := Append(refs, s, b).value; r.history.Keys <= s.history.Keys + UndoKeys(r.txs, b.txs, Height(s) + 1)
  {
    hide StoreTxs, OneLine, TxsAgree, UtxosAgree;
    var h := Height(s) + 1;
    var r, a := Append(refs, s, b).value, ApplyTxs(refs, StartApply(s.utxos), b.txs, h).value;
    AppendHistoryAgrees(refs, s, b);
    ApplyTxsSpent(refs, StartApply(s.utxos), b.txs, h);
    IndexTxsSpec(s.history, r.txs, b.txs, h, b.hash, a.spent);
  }

  lemma AppendUtxos(refs: Refs, s: Store, b: Block)
    ensures var a := ApplyTxs(refs, StartApply(s.utxos), b.txs, Height(s) + 1);
      && (Append(refs, s, b).Ok? <==> a.Ok?)
      && (a.Ok? ==> Append(refs, s, b).value.utxos == a.value.utxos)
  {
    hide ApplyTxs, StoreTxs, IndexTxs;
  }

  /** Connecting a new block on the tip keeps the stored state complete, whatever
      database the spending references are checked against. */
  lemma AppendComplete(refs: Refs, s: Store, b: Block)
    requires WellFormed(s) && Complete(s) && Extends(s, b) && Append(refs, s, b).Ok?
    ensures Complete(Append(refs, s, b).value)
  {
    var h := Height(s) + 1;
    RecordsBelow(s);
    FreshTxidSet(s, b);
    AppendFields(refs, s, b);
    AppendUtxos(refs, s, b);
    AppendHistoryKeys(refs, s, b);
    assert b.txs[..|b.txs|] == b.txs;
    hide Append, WellFormed, Linked, HistoryPlaced, ApplyTxs, StoreTxs;
    LinkedTxs(refs, StartApply(s.utxos), s.txs, b, h, |b.txs|);
    HistoryStep(s.history, Append(refs, s, b).value.history, s.txs, b, h);
  }

  // ---------------------------------------------------------------- disconnecting the tip keeps it

  /** b is the block stored on top, whole. */
  ghost predicate OnTop(s: Store, b: Block) {
    && s.tip.Some? && s.tip.value.hash == b.hash
    && s.GetBlock(b.hash) == Some(b)
  }

  /** The index holds the transactions of b, each at its place. */
  ghost predicate AtPlace(index: TxIndex, b: Block, h: nat) {
    && DistinctTxids(b.txs)
    && (forall i | 0 <= i < |b.txs| :: b.txs[i].txid in index && index[b.txs[i].txid] == TxRecord(b.hash, h, i, b.txs[i]))
    && (forall t | t in index && index[t].blockHash == b.hash :: t in TxidSet(b.txs))
  }

  lemma TopAtPlace(s: Store, b: Block)
    requires OneLine(s) && TxsAgree(s) && OnTop(s, b)
    ensures AtPlace(s.txs, b, Height(s)) && b.hash in s.hashToHeight && s.hashToHeight[b.hash] == Height(s)
    ensures b.prev == s.blocks[b.hash].prev && s.blocks[b.hash].height == Height(s)
  {
    var txids := s.blocks[b.hash].txids;
    assert TxidsIndexed(txids, s.txs, b.hash);
    forall i | 0 <= i < |b.txs|
      ensures b.txs[i].txid == txids[i] && s.txs[txids[i]] == TxRecord(b.hash, Height(s), i, b.txs[i])
    {
      assert Placed(s.blocks, s.txs[txids[i]], txids[i]);
    }
    forall i, j | 0 <= i < j < |b.txs| ensures b.txs[i].txid != b.txs[j].txid {
      assert s.txs[txids[i]].index == i && s.txs[txids[j]].index == j;
    }
    forall t | t in s.txs && s.txs[t].blockHash == b.hash ensures t in TxidSet(b.txs) {
      assert Placed(s.blocks, s.txs[t], t);
      assert b.txs[s.txs[t].index].txid == t;
    }
  }

  /** No transaction spends an output of its own or of a later transaction of the list. */
  ghost predicate SpendsBack(txs: seq<Transaction>) {
    forall i, j | 0 <= i <= j < |txs| :: Outpoints(txs[i].Spends()) !! Created(txs[j])
  }

  /** Undone from the end, such transactions find their inputs. */
  lemma {:induction false} ReadyPrefix(keys: set<Outpoint>, txs: seq<Transaction>)
    requires SpendsBack(txs) && forall i | 0 <= i < |txs| :: Outpoints(txs[i].Spends()) <= keys
    ensures UndoReady(keys, txs)
  {
    hide Created, Outpoints;
    if txs != [] {
      var front, last := txs[..|txs| - 1], txs[|txs| - 1];
      assert forall i | 0 <= i < |front| :: front[i] == txs[i];
      assert Outpoints(txs[|txs| - 1].Spends()) !! Created(txs[|txs| - 1]);
      forall i | 0 <= i < |front| ensures Outpoints(front[i].Spends()) <= keys - Created(last) {
        assert Outpoints(txs[i].Spends()) !! Created(txs[|txs| - 1]);
      }
      ReadyPrefix(keys - Created(last), front);
    }
  }

  lemma TopReady(s: Store, b: Block)
    requires AtPlace(s.txs, b, Height(s)) && Linked(s.txs, s.utxos)
    ensures UndoReady(s.utxos.Keys, b.txs) && Indexed(s.txs, b.txs)
  {
    forall i, op | 0 <= i < |b.txs| && op in b.txs[i].Spends()
      ensures op in s.utxos.Keys
      ensures forall j | i <= j < |b.txs| :: op !in Created(b.txs[j])
    {
      assert KnowsInputs(s.txs, s.txs[b.txs[i].txid]);
      assert op == Outpoint(op.hash, op.index);
    }
    ReadyPrefix(s.utxos.Keys, b.txs);
  }

  /** The state a disconnect of the top block leads to. */
  lemma DisconnectFields(s: Store, b: Block)
    requires OneLine(s) && TxsAgree(s) && Linked(s.txs, s.utxos) && OnTop(s, b)
    ensures var h := Height(s);
      DisconnectBlock(s, b) == Ok(s.(
        blocks := s.blocks - {b.hash},
        txs := s.txs - TxidSet(b.txs),
        hashToHeight := s.hashToHeight - {b.hash},
        heightToHash := s.heightToHash - {h},
        utxos := UnspendAll(s.utxos - CreatedBy(b.txs), InputsOf(b.txs)),
        history := s.history - UndoKeys(s.txs, b.txs, h),
        tip := Some(Tip(PredHeight(h), b.prev))))
  {
    TopAtPlace(s, b);
    TopReady(s, b);
    hide OneLine, TxsAgree, Linked, UndoReady, Indexed, UndoTxs, UndoKeys, InputsOf, CreatedBy;
    UndoTxsSpec(s.txs, Undone(s.utxos, s.txs, s.history), b.txs, Height(s));
  }

  lemma IndexesWithoutTop(hashToHeight: map<Hash, nat>, heightToHash: map<nat, Hash>, top: nat)
    requires IndexesInverse(hashToHeight, heightToHash, top) && top > 0
    ensures top in heightToHash && top - 1 in heightToHash
    ensures IndexesInverse(hashToHeight - {heightToHash[top]}, heightToHash - {top}, top - 1)
  {
  }

  lemma ParentsWithoutTop(blocks: map<Hash, CompactBlock>, hashToHeight: map<Hash, nat>, heightToHash: map<nat, Hash>, top: nat)
    requires IndexesInverse(hashToHeight, heightToHash, top) && ParentsLinked(blocks, hashToHeight, heightToHash) && top > 0
    ensures ParentsLinked(blocks - {heightToHash[top]}, hashToHeight - {heightToHash[top]}, heightToHash - {top})
  {
    var x, rest := heightToHash[top], blocks - {heightToHash[top]};
    forall y | y in rest
      ensures y in blocks && rest[y] == blocks[y] && rest[y].prev == ParentAt(heightToHash - {top}, rest[y].height)
    {
      ParentKept(blocks, hashToHeight, heightToHash, top, y);
    }
    hide ParentAt, IndexesInverse;
    assert rest.Keys == (hashToHeight - {x}).Keys;
  }

  lemma ParentKept(
      blocks: map<Hash, CompactBlock>, hashToHeight: map<Hash, nat>, heightToHash: map<nat, Hash>, top: nat, y: Hash)
    requires IndexesInverse(hashToHeight, heightToHash, top) && ParentsLinked(blocks, hashToHeight, heightToHash) && top > 0
    requires y in blocks && y != heightToHash[top]
    ensures blocks[y].prev == ParentAt(heightToHash - {top}, blocks[y].height)
  {
    assert hashToHeight[y] in heightToHash && hashToHeight[y] < top;
  }

  lemma OneLineWithoutTop(s: Store, d: Store, b: Block)
    requires OneLine(s) && s.tip.value.hash == b.hash && Height(s) > 0
    requires b.hash in s.blocks && s.blocks[b.hash].prev == b.prev && s.blocks[b.hash].height == Height(s)
    requires d.blocks == s.blocks - {b.hash} && d.hashToHeight == s.hashToHeight - {b.hash}
    requires d.heightToHash == s.heightToHash - {Height(s)} && d.tip == Some(Tip(PredHeight(Height(s)), b.prev))
    ensures OneLine(d)
  {
    IndexesWithoutTop(s.hashToHeight, s.heightToHash, Height(s));
    ParentsWithoutTop(s.blocks, s.hashToHeight, s.heightToHash, Height(s));
    assert b.prev == ParentAt(s.heightToHash, Height(s));
    hide IndexesInverse, ParentsLinked;
  }

  lemma TopTxids(index: TxIndex, b: Block, h: nat)
    requires AtPlace(index, b, h)
    ensures forall t | t in index :: t in TxidSet(b.txs) <==> index[t].blockHash == b.hash
    ensures forall t | t in TxidSet(b.txs) :: t in index && index[t].height == h
  {
  }

  lemma TxsWithoutTop(s: Store, b: Block, blocks: map<Hash, CompactBlock>, index: TxIndex)
    requires TxsAgree(s) && AtPlace(s.txs, b, Height(s))
    requires blocks == s.blocks - {b.hash} && index == s.txs - TxidSet(b.txs)
    ensures RecordsPlaced(blocks, index) && BlocksIndexed(blocks, index)
  {
    TopTxids(s.txs, b, Height(s));
    hide TxidSet, AtPlace;
    forall t | t in index ensures Placed(blocks, index[t], t) {
      assert Placed(s.blocks, s.txs[t], t);
    }
    forall x | x in blocks ensures TxidsIndexed(blocks[x].txids, index, x) {
      assert TxidsIndexed(s.blocks[x].txids, s.txs, x);
    }
  }

  // ---------------------------------------------------------------- outputs, markers and history without the top block

  /** What is known about the index when its top block goes: what stays lies below. */
  ghost predicate Lowered(index: TxIndex, rest: TxIndex, gone: set<Hash>, h: nat) {
    && rest == index - gone
    && (forall t | t in gone :: t in index && index[t].height == h)
    && (forall t | t in rest :: index[t].height < h)
    && (forall t | t in index :: index[t].tx.txid == t)
  }

  lemma PrevKept(index: TxIndex, rest: TxIndex, gone: set<Hash>, h: nat, t: Hash)
    requires Lowered(index, rest, gone, h) && InputsKnown(index) && t in rest
    ensures KnowsInputs(rest, rest[t])
    ensures forall op | op in rest[t].tx.Spends() :: op.hash in rest && PrevOutput(rest, op) == PrevOutput(index, op)
  {
    assert KnowsInputs(index, index[t]);
  }

  lemma KeysKept(index: TxIndex, rest: TxIndex, gone: set<Hash>, h: nat, t: Hash)
    requires Lowered(index, rest, gone, h) && InputsKnown(index) && t in rest
    ensures KeysOf(rest, rest[t]) == KeysOf(index, index[t])
  {
    PrevKept(index, rest, gone, h, t);
    var r := index[t];
    assert forall i | 0 <= i < |r.tx.Spends()| :: r.tx.Spends()[i] in r.tx.Spends();
    assert InputKeys(rest, r.tx, r.height) == InputKeys(index, r.tx, r.height);
  }

  lemma UtxosWithoutTop(index: TxIndex, rest: TxIndex, b: Block, h: nat, u: UtxoSet)
    requires Lowered(index, rest, TxidSet(b.txs), h) && AtPlace(index, b, h) && UtxosAgree(index, u) && MarkersNamed(index, u)
    ensures UtxosAgree(rest, UnspendAll(u - CreatedBy(b.txs), InputsOf(b.txs)))
    ensures MarkersNamed(rest, UnspendAll(u - CreatedBy(b.txs), InputsOf(b.txs)))
    ensures OutputsReal(rest, UnspendAll(u - CreatedBy(b.txs), InputsOf(b.txs)))
  {
    var v := UnspendAll(u - CreatedBy(b.txs), InputsOf(b.txs));
    forall op | op in v ensures op.hash in rest && PrevOutput(rest, op) == PrevOutput(index, op) {
      if op.hash in TxidSet(b.txs) {
        CreatedInBlock(index, b, h, op);
      }
    }
    forall op | op in v && v[op].IsSpent() ensures v[op].spentBy in rest && op in rest[v[op].spentBy].tx.Spends() {
      SpentInBlock(index, b, h, u[op].spentBy, op);
    }
  }

  /** An output of a transaction of the block is one the block created. */
  lemma CreatedInBlock(index: TxIndex, b: Block, h: nat, op: Outpoint)
    requires AtPlace(index, b, h) && op.hash in TxidSet(b.txs) && PrevOutput(index, op).Some?
    ensures op in CreatedBy(b.txs)
  {
    var i: nat :| 0 <= i < |b.txs| && b.txs[i].txid == op.hash;
    CreatedHas(b.txs, i, op);
  }

  lemma {:induction false} CreatedHas(txs: seq<Transaction>, i: nat, op: Outpoint)
    requires i < |txs| && op in Created(txs[i])
    ensures op in CreatedBy(txs)
  {
    hide Created;
    if i < |txs| - 1 { CreatedHas(txs[..|txs| - 1], i, op); }
  }

  lemma {:induction false} InputsHas(txs: seq<Transaction>, i: nat, op: Outpoint)
    requires i < |txs| && op in txs[i].Spends()
    ensures op in InputsOf(txs)
  {
    if i < |txs| - 1 { InputsHas(txs[..|txs| - 1], i, op); }
  }

  /** A marker that names a transaction of the block is on an input of the block. */
  lemma SpentInBlock(index: TxIndex, b: Block, h: nat, t: Hash, op: Outpoint)
    requires AtPlace(index, b, h) && t in index && op in index[t].tx.Spends()
    ensures t in TxidSet(b.txs) ==> op in InputsOf(b.txs)
  {
    if t in TxidSet(b.txs) {
      var i: nat :| 0 <= i < |b.txs| && b.txs[i].txid == t;
      InputsHas(b.txs, i, op);
    }
  }

  lemma LinkedWithoutTop(index: TxIndex, rest: TxIndex, b: Block, h: nat, u: UtxoSet)
    requires Lowered(index, rest, TxidSet(b.txs), h) && AtPlace(index, b, h) && UtxosAgree(index, u) && Linked(index, u)
    ensures UtxosAgree(rest, UnspendAll(u - CreatedBy(b.txs), InputsOf(b.txs)))
    ensures Linked(rest, UnspendAll(u - CreatedBy(b.txs), InputsOf(b.txs)))
  {
    UtxosWithoutTop(index, rest, b, h, u);
    CreatedByHashes(b.txs);
    forall t | t in rest ensures KnowsInputs(rest, rest[t]) {
      PrevKept(index, rest, TxidSet(b.txs), h, t);
    }
    hide UtxosAgree, MarkersNamed, OutputsReal, AtPlace, InputsOf, KnowsInputs;
  }

  lemma HistoryWithoutTop(index: TxIndex, rest: TxIndex, b: Block, h: nat, hist: History)
    requires Lowered(index, rest, TxidSet(b.txs), h) && AtPlace(index, b, h) && InputsKnown(index) && HistoryPlaced(index, hist)
    ensures HistoryPlaced(rest, hist - UndoKeys(index, b.txs, h))
  {
    hide InputsKnown, UndoKeys, KeysOf;
    forall k | k in hist && k !in UndoKeys(index, b.txs, h)
      ensures k.txid in rest && k in KeysOf(rest, rest[k.txid])
    {
      if k.txid in TxidSet(b.txs) {
        BlockKeysUndone(index, b, h, k);
      } else {
        KeysKept(index, rest, TxidSet(b.txs), h, k.txid);
      }
    }
  }

  lemma {:induction false} UndoKeysHas(index: TxIndex, txs: seq<Transaction>, h: nat, i: nat)
    requires i < |txs|
    ensures OutputKeys(txs[i], h) + InputKeys(index, txs[i], h) <= UndoKeys(index, txs, h)
  {
    hide OutputKeys, InputKeys;
    if i < |txs| - 1 { UndoKeysHas(index, txs[..|txs| - 1], h, i); }
  }

  /** Every history key of a transaction of the block is undone. */
  lemma BlockKeysUndone(index: TxIndex, b: Block, h: nat, k: HistoryKey)
    requires AtPlace(index, b, h) && k.txid in TxidSet(b.txs) && k.txid in index && k in KeysOf(index, index[k.txid])
    ensures k in UndoKeys(index, b.txs, h)
  {
    var i: nat :| 0 <= i < |b.txs| && b.txs[i].txid == k.txid;
    UndoKeysHas(index, b.txs, h, i);
  }

  /** Disconnecting the block on top of a store that satisfies the invariant always
      succeeds, and the store below satisfies it again. */
  lemma DisconnectKeeps(s: Store, b: Block)
    requires WellFormed(s) && Complete(s) && OnTop(s, b) && Height(s) > 0
    ensures DisconnectBlock(s, b).Ok?
    ensures var d := DisconnectBlock(s, b).value;
      && WellFormed(d) && Complete(d)
      && d.tip == Some(Tip(Height(s) - 1, b.prev))
  {
    var h := Height(s);
    DisconnectFields(s, b);
    TopAtPlace(s, b);
    var d := DisconnectBlock(s, b).value;
    TopCut(s, b);
    OneLineWithoutTop(s, d, b);
    TxsWithoutTop(s, b, d.blocks, d.txs);
    LinkedWithoutTop(s.txs, d.txs, b, h, s.utxos);
    HistoryWithoutTop(s.txs, d.txs, b, h, s.history);
    HistoryNamed(d);
    hide DisconnectBlock, OneLine, RecordsPlaced, BlocksIndexed, UtxosAgree, Linked, HistoryPlaced;
  }

  lemma HistoryNamed(s: Store)
    ensures HistoryPlaced(s.txs, s.history) ==> HistoryAgrees(s)
  {
  }

  lemma TopCut(s: Store, b: Block)
    requires OneLine(s) && TxsAgree(s) && AtPlace(s.txs, b, Height(s)) && s.tip.value.hash == b.hash
    ensures Lowered(s.txs, s.txs - TxidSet(b.txs), TxidSet(b.txs), Height(s))
  {
    TopTxids(s.txs, b, Height(s));
    hide TxidSet, AtPlace;
    forall t | t in s.txs
      ensures s.txs[t].tx.txid == t
      ensures t !in TxidSet(b.txs) ==> s.txs[t].height < Height(s)
    {
      assert Placed(s.blocks, s.txs[t], t);
    }
  }
}
