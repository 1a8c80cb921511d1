/** The invariant of the stored chain state, the connect/disconnect round trip,
    and Replay: the state reached by connecting a list of blocks one by one. */
module Replay {
  import opened Wrappers
  import opened ChainTypes
  import opened Storage
  import opened Connect
  import opened Undo

  // ---------------------------------------------------------------- the invariant

  /** The two height indexes are mutually inverse over heights 0..top. */
  ghost predicate IndexesInverse(hashToHeight: map<Hash, nat>, heightToHash: map<nat, Hash>, top: nat) {
    && (forall k: nat :: k in heightToHash <==> k <= top)
    && (forall k: nat | k in heightToHash ::
          heightToHash[k] in hashToHeight && hashToHeight[heightToHash[k]] == k)
    && (forall x | x in hashToHeight ::
          hashToHeight[x] in heightToHash && heightToHash[hashToHeight[x]] == x)
  }

  /** Exactly the indexed blocks are stored, each pointing to the block one height below. */
  ghost predicate ParentsLinked(
      blocks: map<Hash, CompactBlock>, hashToHeight: map<Hash, nat>, heightToHash: map<nat, Hash>) {
    && blocks.Keys == hashToHeight.Keys
    && (forall x | x in blocks :: x != ZERO_HASH && blocks[x].height == hashToHeight[x])
    && (forall x {:trigger blocks[x].prev} | x in blocks ::
          blocks[x].prev == ParentAt(heightToHash, blocks[x].height))
  }

  /** The stored blocks form one line with the tip on top. */
  ghost predicate OneLine(s: Store) {
    && s.tip.Some?
    && IndexesInverse(s.hashToHeight, s.heightToHash, s.tip.value.height)
    && ParentsLinked(s.blocks, s.hashToHeight, s.heightToHash)
    && s.tip.value.hash == s.heightToHash[s.tip.value.height]
  }

  /** The hash a block at height h must point back to. */
  function ParentAt(heightToHash: map<nat, Hash>, h: nat): Hash {
    if h > 0 && h - 1 in heightToHash then heightToHash[h - 1] else ZERO_HASH
  }

  /** Every indexed transaction stands where its record says. */
  ghost predicate RecordsPlaced(blocks: map<Hash, CompactBlock>, index: TxIndex) {
    forall t | t in index :: Placed(blocks, index[t], t)
  }

  ghost predicate Placed(blocks: map<Hash, CompactBlock>, r: TxRecord, t: Hash) {
    && r.tx.txid == t
    && r.blockHash in blocks
    && r.height == blocks[r.blockHash].height
    && r.index < |blocks[r.blockHash].txids|
    && blocks[r.blockHash].txids[r.index] == t
  }

  /** Every transaction of a stored block is indexed, at its own place. */
  ghost predicate BlocksIndexed(blocks: map<Hash, CompactBlock>, index: TxIndex) {
    forall x | x in blocks :: TxidsIndexed(blocks[x].txids, index, x)
  }

  ghost predicate TxidsIndexed(txids: seq<Hash>, index: TxIndex, x: Hash) {
    forall i | 0 <= i < |txids| ::
      txids[i] in index && index[txids[i]].blockHash == x && index[txids[i]].index == i
  }

  /** The transaction index lists exactly the transactions of the stored blocks. */
  ghost predicate TxsAgree(s: Store) {
    RecordsPlaced(s.blocks, s.txs) && BlocksIndexed(s.blocks, s.txs)
  }

  /** Every UTXO entry is an output of an indexed transaction, and every spending
      marker names an indexed transaction at the marked height. */
  ghost predicate UtxosAgree(index: TxIndex, utxos: UtxoSet) {
    forall op | op in utxos :: var u := utxos[op];
      && PrevOutput(index, op) == Some(u.output)
      && u.height == index[op.hash].height
      && (u.IsSpent() ==> u.spentBy in index && index[u.spentBy].height == u.spentHeight)
      && (!u.IsSpent() ==> u.spentBy == ZERO_HASH)
  }

  ghost predicate HistoryAgrees(s: Store) {
    forall k | k in s.history :: k.txid in s.txs
  }

  ghost predicate WellFormed(s: Store) {
    && OneLine(s)
    && TxsAgree(s)
    && UtxosAgree(s.txs, s.utxos)
    && HistoryAgrees(s)
  }

  /** A block that is new to the store, with transactions that are new as well. */
  ghost predicate Fresh(s: Store, b: Block) {
    && b.hash != ZERO_HASH
    && b.hash !in s.blocks
    && DistinctTxids(b.txs)
    && (forall i | 0 <= i < |b.txs| :: b.txs[i].txid !in s.txs)
  }

  /** b extends the tip of s. */
  ghost predicate Extends(s: Store, b: Block) {
    s.tip.Some? && b.prev == s.tip.value.hash && Fresh(s, b)
  }

  function Height(s: Store): nat {
    if s.tip.Some? then s.tip.value.height else 0
  }

  /** Connecting b on the tip of s, with spending references checked in refs. */
  function Append(refs: Refs, s: Store, b: Block): Result<Store, ChainError> {
    ConnectBlock(refs, s, b, Height(s) + 1, Height(s))
  }

  // ---------------------------------------------------------------- connecting keeps the invariant

  lemma FreshTxidSet(s: Store, b: Block)
    requires Fresh(s, b)
    ensures TxidSet(b.txs) !! s.txs.Keys
  {
  }

  /** The tables Append writes, apart from UTXOs, history and supply. */
  lemma AppendFields(refs: Refs, s: Store, b: Block)
    requires s.tip.Some? && Append(refs, s, b).Ok?
    ensures var h, r := Height(s) + 1, Append(refs, s, b).value;
      && r.blocks == s.blocks[b.hash := CompactBlock(h, b.prev, Txids(b))]
      && r.txs == StoreTxs(s.txs, b, h, |b.txs|)
      && r.hashToHeight == s.hashToHeight[b.hash := h]
      && r.heightToHash == s.heightToHash[h := b.hash]
      && r.tip == Some(Tip(h, b.hash))
  {
    hide ApplyTxs, StoreTxs, IndexTxs;
  }

  lemma InverseExtend(hashToHeight: map<Hash, nat>, heightToHash: map<nat, Hash>, top: nat, x: Hash)
    requires IndexesInverse(hashToHeight, heightToHash, top) && x !in hashToHeight
    ensures IndexesInverse(hashToHeight[x := top + 1], heightToHash[top + 1 := x], top + 1)
  {
  }

  lemma LinksExtend(
      blocks: map<Hash, CompactBlock>, hashToHeight: map<Hash, nat>, heightToHash: map<nat, Hash>,
      top: nat, x: Hash, cb: CompactBlock)
    requires IndexesInverse(hashToHeight, heightToHash, top) && ParentsLinked(blocks, hashToHeight, heightToHash)
    requires x !in blocks && x != ZERO_HASH && cb.height == top + 1 && cb.prev == heightToHash[top]
    ensures ParentsLinked(blocks[x := cb], hashToHeight[x := top + 1], heightToHash[top + 1 := x])
  {
    assert forall y | y in blocks :: blocks[y].height <= top;
  }

  lemma RecordsExtend(blocks: map<Hash, CompactBlock>, index: TxIndex, b: Block, h: nat)
    requires RecordsPlaced(blocks, index) && b.hash !in blocks && DistinctTxids(b.txs)
    ensures RecordsPlaced(blocks[b.hash := CompactBlock(h, b.prev, Txids(b))], StoreTxs(index, b, h, |b.txs|))
  {
    hide StoreTxs;
    var cb, index' := CompactBlock(h, b.prev, Txids(b)), StoreTxs(index, b, h, |b.txs|);
    assert b.txs[..|b.txs|] == b.txs;
    StoreTxsSpec(index, b, h, |b.txs|);
    forall t | t in index' ensures Placed(blocks[b.hash := cb], index'[t], t) {
      if t in TxidSet(b.txs) {
        var i :| 0 <= i < |b.txs| && b.txs[i].txid == t;
        assert index'[t] == TxRecord(b.hash, h, i, b.txs[i]);
      } else {
        assert Placed(blocks, index[t], t);
      }
    }
  }

  lemma TxidsExtend(blocks: map<Hash, CompactBlock>, index: TxIndex, b: Block, h: nat)
    requires BlocksIndexed(blocks, index) && b.hash !in blocks
    requires DistinctTxids(b.txs) && TxidSet(b.txs) !! index.Keys
    ensures BlocksIndexed(blocks[b.hash := CompactBlock(h, b.prev, Txids(b))], StoreTxs(index, b, h, |b.txs|))
  {
    hide StoreTxs;
    var cb, index' := CompactBlock(h, b.prev, Txids(b)), StoreTxs(index, b, h, |b.txs|);
    assert b.txs[..|b.txs|] == b.txs;
    StoreTxsSpec(index, b, h, |b.txs|);
    assert TxidsIndexed(Txids(b), index', b.hash);
    forall x | x in blocks ensures TxidsIndexed(blocks[x].txids, index', x) {
      assert TxidsIndexed(blocks[x].txids, index, x);
    }
  }

  lemma AppendOneLine(refs: Refs, s: Store, b: Block)
    requires OneLine(s) && TxsAgree(s) && Extends(s, b) && Append(refs, s, b).Ok?
    ensures OneLine(Append(refs, s, b).value) && TxsAgree(Append(refs, s, b).value)
  {
    var h, cb := Height(s) + 1, CompactBlock(Height(s) + 1, b.prev, Txids(b));
    assert s.tip.value.height in s.heightToHash;
    AppendFields(refs, s, b);
    FreshTxidSet(s, b);
    InverseExtend(s.hashToHeight, s.heightToHash, Height(s), b.hash);
    LinksExtend(s.blocks, s.hashToHeight, s.heightToHash, Height(s), b.hash, cb);
    RecordsExtend(s.blocks, s.txs, b, h);
    TxidsExtend(s.blocks, s.txs, b, h);
    hide ConnectBlock, StoreTxs, IndexesInverse, ParentsLinked, RecordsPlaced, BlocksIndexed;
  }

  lemma NewTxid(index: TxIndex, b: Block, h: nat, n: nat)
    requires n < |b.txs| && DistinctTxids(b.txs) && TxidSet(b.txs) !! index.Keys
    ensures b.txs[n].txid !in StoreTxs(index, b, h, n)
  {
    StoreTxsSpec(index, b, h, n);
    assert b.txs[n].txid !in TxidSet(b.txs[..n]);
    assert b.txs[n].txid in TxidSet(b.txs);
  }

  /** The UTXO set stays in step with the transaction index, one transaction at a time. */
  lemma {:induction false} ApplyTxsAgree(refs: Refs, a: Applied, index: TxIndex, b: Block, h: nat, n: nat)
    requires n <= |b.txs| && h > 0 && DistinctTxids(b.txs) && UtxosAgree(index, a.utxos)
    requires TxidSet(b.txs) !! index.Keys
    requires ApplyTxs(refs, a, b.txs[..n], h).Ok?
    ensures UtxosAgree(StoreTxs(index, b, h, n), ApplyTxs(refs, a, b.txs[..n], h).value.utxos)
  {
    hide UtxosAgree, ApplyTx, TxidSet;
    if n > 0 {
      var front, tx := b.txs[..n - 1], b.txs[n - 1];
      assert b.txs[..n][..n - 1] == front;
      ApplyTxsAgree(refs, a, index, b, h, n - 1);
      var p := ApplyTxs(refs, a, front, h).value;
      NewTxid(index, b, h, n - 1);
      ApplyTxAgree(refs, p, StoreTxs(index, b, h, n - 1), TxRecord(b.hash, h, n - 1, tx), h);
    }
  }

  /** Marking inputs for a transaction that is about to be indexed. */
  lemma SpendAgree(index: TxIndex, u: UtxoSet, inputs: seq<Outpoint>, rec: TxRecord)
    requires UtxosAgree(index, u) && rec.height > 0 && rec.tx.txid !in index
    ensures UtxosAgree(index[rec.tx.txid := rec], SpendAll(u, inputs, rec.height, rec.tx.txid))
  {
  }

  lemma CreateAgree(index: TxIndex, u: UtxoSet, rec: TxRecord)
    requires rec.tx.txid in index && index[rec.tx.txid] == rec && UtxosAgree(index, u)
    ensures UtxosAgree(index, u + NewUtxos(rec.tx, rec.height))
  {
  }

  lemma ApplyTxAgree(refs: Refs, p: Applied, index: TxIndex, rec: TxRecord, h: nat)
    requires UtxosAgree(index, p.utxos) && h > 0 && rec.height == h
    requires rec.tx.txid !in index && ApplyTx(refs, p, rec.tx, h).Ok?
    ensures UtxosAgree(index[rec.tx.txid := rec], ApplyTx(refs, p, rec.tx, h).value.utxos)
  {
    hide UtxosAgree, SpendAll, NewUtxos;
    SpendInputsSpec(refs, p, rec.tx.Spends(), h, rec.tx.txid);
    SpendAgree(index, p.utxos, rec.tx.Spends(), rec);
    CreateAgree(index[rec.tx.txid := rec], SpendAll(p.utxos, rec.tx.Spends(), h, rec.tx.txid), rec);
  }

  lemma AppendHistoryAgrees(refs: Refs, s: Store, b: Block)
    requires WellFormed(s) && Extends(s, b) && Append(refs, s, b).Ok?
    ensures HistoryAgrees(Append(refs, s, b).value)
    ensures forall op | op in ApplyTxs(refs, StartApply(s.utxos), b.txs, Height(s) + 1).value.spent ::
      PrevOutput(Append(refs, s, b).value.txs, op)
        == Some(ApplyTxs(refs, StartApply(s.utxos), b.txs, Height(s) + 1).value.spent[op])
  {
    var h, r := Height(s) + 1, Append(refs, s, b).value;
    var a := ApplyTxs(refs, StartApply(s.utxos), b.txs, h).value;
    FreshTxidSet(s, b);
    assert b.txs[..|b.txs|] == b.txs;
    ApplyTxsAgree(refs, StartApply(s.utxos), s.txs, b, h, |b.txs|);
    CreatedFresh(s, b);
    SpentAreOutputs(refs, StartApply(s.utxos), b.txs, h);
    ApplyTxsSpent(refs, StartApply(s.utxos), b.txs, h);
    IndexTxsSpec(s.history, r.txs, b.txs, h, b.hash, a.spent);
    UndoKeysTxids(r.txs, b.txs, h);
    StoreTxsSpec(s.txs, b, h, |b.txs|);
  }

  lemma CreatedFresh(s: Store, b: Block)
    requires UtxosAgree(s.txs, s.utxos) && Fresh(s, b)
    ensures CreatedBy(b.txs) !! s.utxos.Keys
  {
    CreatedByHashes(b.txs);
  }

  lemma LastTxFresh(refs: Refs, a: Applied, txs: seq<Transaction>, h: nat)
    requires txs != [] && ApplyTxs(refs, a, txs, h).Ok?
    requires CreatedBy(txs) !! a.utxos.Keys && DistinctTxids(txs)
    ensures Created(txs[|txs| - 1]) !! ApplyTxs(refs, a, txs[..|txs| - 1], h).value.utxos.Keys
  {
    var front, last := txs[..|txs| - 1], txs[|txs| - 1];
    ApplyTxsShape(refs, a, front, h);
    CreatedApart(txs);
  }

  lemma ApplyTxSpent(refs: Refs, p: Applied, tx: Transaction, h: nat)
    requires ApplyTx(refs, p, tx, h).Ok? && Created(tx) !! p.utxos.Keys
    requires forall op | op in p.spent :: op in p.utxos && p.spent[op] == p.utxos[op].output
    ensures var r := ApplyTx(refs, p, tx, h).value;
      && r.spent.Keys == p.spent.Keys + Outpoints(tx.Spends())
      && forall op | op in r.spent :: op in r.utxos && r.spent[op] == r.utxos[op].output
  {
    SpendInputsSpec(refs, p, tx.Spends(), h, tx.txid);
  }

  /** The captured spent outputs are the outputs of the entries they came from. */
  lemma {:induction false} SpentAreOutputs(refs: Refs, a: Applied, txs: seq<Transaction>, h: nat)
    requires ApplyTxs(refs, a, txs, h).Ok?
    requires CreatedBy(txs) !! a.utxos.Keys && DistinctTxids(txs)
    requires forall op | op in a.spent :: op in a.utxos && a.spent[op] == a.utxos[op].output
    ensures var r := ApplyTxs(refs, a, txs, h).value;
      && r.spent.Keys == a.spent.Keys + InputsOf(txs)
      && forall op | op in r.spent :: op in r.utxos && r.spent[op] == r.utxos[op].output
  {
    hide ApplyTx, Created;
    if txs != [] {
      var front, last := txs[..|txs| - 1], txs[|txs| - 1];
      SpentAreOutputs(refs, a, front, h);
      LastTxFresh(refs, a, txs, h);
      ApplyTxSpent(refs, ApplyTxs(refs, a, front, h).value, last, h);
    }
  }

  /** Connecting a new block on the tip keeps the invariant, whatever database
      the spending references are checked against. */
  lemma AppendKeeps(refs: Refs, s: Store, b: Block)
    requires WellFormed(s) && Extends(s, b) && Append(refs, s, b).Ok?
    ensures WellFormed(Append(refs, s, b).value)
    ensures Append(refs, s, b).value.tip == Some(Tip(Height(s) + 1, b.hash))
  {
    hide IndexesInverse, ParentsLinked, TxsAgree, UtxosAgree, ApplyTxs, StoreTxs, IndexTxs;
    var h := Height(s) + 1;
    AppendOneLine(refs, s, b);
    AppendHistoryAgrees(refs, s, b);
    FreshTxidSet(s, b);
    assert b.txs[..|b.txs|] == b.txs;
    ApplyTxsAgree(refs, StartApply(s.utxos), s.txs, b, h, |b.txs|);
  }

  // ---------------------------------------------------------------- connect then disconnect

  /** In a well-formed store no spending marker is stale. */
  lemma MarkersConfirmed(s: Store, op: Outpoint)
    requires WellFormed(s) && op in s.utxos && s.utxos[op].IsSpent()
    ensures s.SpendRefs().Confirms(s.utxos[op])
    ensures s.utxos[op].spentHeight <= Height(s)
  {
  }

  lemma InputsUnspent(s: Store, b: Block)
    requires WellFormed(s) && Extends(s, b) && Append(s.SpendRefs(), s, b).Ok?
    ensures forall op | op in s.utxos && op in InputsOf(b.txs) ::
      !s.utxos[op].IsSpent() && s.utxos[op].spentBy == ZERO_HASH
  {
    CreatedFresh(s, b);
    ApplyTxsShape(s.SpendRefs(), StartApply(s.utxos), b.txs, Height(s) + 1);
    forall op | op in s.utxos && op in InputsOf(b.txs)
      ensures !s.utxos[op].IsSpent()
    {
      if s.utxos[op].IsSpent() { MarkersConfirmed(s, op); }
    }
  }

  lemma UndoneUtxos(s: Store, b: Block)
    requires WellFormed(s) && Extends(s, b) && Append(s.SpendRefs(), s, b).Ok?
    ensures UnspendAll(Append(s.SpendRefs(), s, b).value.utxos - CreatedBy(b.txs), InputsOf(b.txs)) == s.utxos
    ensures UndoReady(Append(s.SpendRefs(), s, b).value.utxos.Keys, b.txs)
  {
    hide StoreTxs, IndexTxs, OneLine, TxsAgree;
    var refs, h := s.SpendRefs(), Height(s) + 1;
    CreatedFresh(s, b);
    InputsUnspent(s, b);
    UndoUtxos(refs, s.utxos, b.txs, h);
    ApplyTxsShape(refs, StartApply(s.utxos), b.txs, h);
    ApplyTxsUndoReady(refs, StartApply(s.utxos), b.txs, h);
  }

  lemma UndoneTxs(refs: Refs, s: Store, b: Block)
    requires s.tip.Some? && Fresh(s, b) && Append(refs, s, b).Ok?
    ensures Append(refs, s, b).value.txs - TxidSet(b.txs) == s.txs
    ensures Indexed(Append(refs, s, b).value.txs, b.txs)
  {
    AppendFields(refs, s, b);
    FreshTxidSet(s, b);
    hide *;
    StoredThenRemoved(s.txs, b, Height(s) + 1);
  }

  lemma StoredThenRemoved(index: TxIndex, b: Block, h: nat)
    requires DistinctTxids(b.txs) && TxidSet(b.txs) !! index.Keys
    ensures StoreTxs(index, b, h, |b.txs|) - TxidSet(b.txs) == index
    ensures Indexed(StoreTxs(index, b, h, |b.txs|), b.txs)
  {
    hide StoreTxs;
    assert b.txs[..|b.txs|] == b.txs;
    StoreTxsSpec(index, b, h, |b.txs|);
  }

  lemma UndoneHistory(refs: Refs, s: Store, b: Block)
    requires WellFormed(s) && Extends(s, b) && Append(refs, s, b).Ok?
    ensures var r := Append(refs, s, b).value;
      r.history - UndoKeys(r.txs, b.txs, Height(s) + 1) == s.history
  {
    hide StoreTxs, OneLine, TxsAgree, UtxosAgree;
    var h := Height(s) + 1;
    var r, a := Append(refs, s, b).value, ApplyTxs(refs, StartApply(s.utxos), b.txs, h).value;
    FreshTxidSet(s, b);
    AppendHistoryAgrees(refs, s, b);
    ApplyTxsSpent(refs, StartApply(s.utxos), b.txs, h);
    UndoHistory(s.history, r.txs, b.txs, h, b.hash, a.spent);
  }

  lemma UndoTxsOfAppend(s: Store, b: Block)
    requires WellFormed(s) && Extends(s, b) && Append(s.SpendRefs(), s, b).Ok?
    ensures var r := Append(s.SpendRefs(), s, b).value;
      UndoTxs(r.txs, Undone(r.utxos, r.txs, r.history), b.txs, Height(s) + 1) == Ok(Undone(s.utxos, s.txs, s.history))
  {
    UndoneUtxos(s, b);
    UndoneTxs(s.SpendRefs(), s, b);
    UndoneHistory(s.SpendRefs(), s, b);
    hide ConnectBlock, WellFormed, UndoTxs, UndoReady, Indexed, InputsOf, CreatedBy, UndoKeys;
    var r := Append(s.SpendRefs(), s, b).value;
    UndoTxsSpec(r.txs, Undone(r.utxos, r.txs, r.history), b.txs, Height(s) + 1);
  }

  /** Disconnecting the block just connected restores the UTXO set with its
      spending markers, the transaction index, the address history, the blocks,
      both height indexes and the tip.  Only the money supply entry of the
      removed height stays behind. */
  lemma DisconnectUndoesAppend(s: Store, b: Block)
    requires WellFormed(s) && Extends(s, b) && Append(s.SpendRefs(), s, b).Ok?
    ensures var r := Append(s.SpendRefs(), s, b).value;
      DisconnectBlock(r, b) == Ok(s.(supply := r.supply))
  {
    var h, r := Height(s) + 1, Append(s.SpendRefs(), s, b).value;
    UndoTxsOfAppend(s, b);
    InsertRemove(s.blocks, b.hash, CompactBlock(h, b.prev, Txids(b)));
    InsertRemove(s.hashToHeight, b.hash, h);
    InsertRemove(s.heightToHash, h, b.hash);
  }

  lemma InsertRemove<K, V>(m: map<K, V>, k: K, v: V)
    requires k !in m
    ensures m[k := v] - {k} == m
  {
  }
}
