/** The stored chain state and the effect of every storage primitive on it.

    A Store is one durable database state.  Pebble's indexed batch reads its own
    writes, so a batch is the Store its commit would produce; lookups the batch
    makes in the committed database instead take that database as an extra
    argument (Refs, TxIndex). */
module Storage {
  import opened Wrappers
  import opened ChainTypes

  // ---------------------------------------------------------------- data

  datatype Utxo = Utxo(output: TxOutput, height: nat, coinbase: bool, spentHeight: nat, spentBy: Hash) {

    predicate IsSpent() {
      spentHeight != 0
    }

    function Spend(h: nat, txid: Hash): Utxo {
      this.(spentHeight := h, spentBy := txid)
    }

    function Unspend(): Utxo {
      if IsSpent() then this.(spentHeight := 0, spentBy := ZERO_HASH) else this
    }
  }

  datatype CompactBlock = CompactBlock(height: nat, prev: Hash, txids: seq<Hash>)

  datatype TxRecord = TxRecord(blockHash: Hash, height: nat, index: nat, tx: Transaction)

  datatype HistoryKey = HistoryKey(scriptHash: nat, height: nat, txid: Hash, index: nat)

  datatype HistoryEntry = HistoryEntry(isInput: bool, value: int, blockHash: Hash)

  datatype Tip = Tip(height: nat, hash: Hash)

  type UtxoSet = map<Outpoint, Utxo>
  type TxIndex = map<Hash, TxRecord>
  type History = map<HistoryKey, HistoryEntry>

  /** The part of the committed database that spending references are checked against. */
  datatype Refs = Refs(heightToHash: map<nat, Hash>, txs: TxIndex) {

    /** The recorded spender still exists, in the block at the recorded height. */
    predicate Confirms(u: Utxo) {
      && u.spentHeight in heightToHash
      && u.spentBy in txs
      && txs[u.spentBy].blockHash == heightToHash[u.spentHeight]
    }
  }

  datatype Store = Store(
    blocks: map<Hash, CompactBlock>,
    txs: TxIndex,
    hashToHeight: map<Hash, nat>,
    heightToHash: map<nat, Hash>,
    utxos: UtxoSet,
    history: History,
    supply: map<nat, int>,
    tip: Option<Tip>) {

    function SpendRefs(): Refs {
      Refs(heightToHash, txs)
    }

    /** Reassembles a block from its compact form and the transaction index. */
    function GetBlock(hash: Hash): Option<Block> {
      if hash in blocks && forall i | 0 <= i < |blocks[hash].txids| :: blocks[hash].txids[i] in txs then
        Some(Block(hash, blocks[hash].prev, LoadTxs(blocks[hash].txids)))
      else
        None
    }

    function LoadTxs(txids: seq<Hash>): seq<Transaction>
      requires forall i | 0 <= i < |txids| :: txids[i] in txs
    {
      seq(|txids|, i requires 0 <= i < |txids| => txs[txids[i]].tx)
    }

    function GetBlockByHeight(h: nat): Option<Block> {
      if h in heightToHash then GetBlock(heightToHash[h]) else None
    }

    /** Missing entries read as zero. */
    function GetMoneySupply(h: nat): int {
      if h in supply then supply[h] else 0
    }
  }

  const EMPTY_STORE: Store := Store(map[], map[], map[], map[], map[], map[], map[], None)

  // ---------------------------------------------------------------- UTXO primitives

  /** Marks an output as spent.  A recorded spend that the committed database no
      longer confirms counts as stale and may be overwritten. */
  function MarkSpent(refs: Refs, utxos: UtxoSet, op: Outpoint, h: nat, txid: Hash): (r: Result<UtxoSet, ChainError>)
    ensures r.Ok? ==> op in utxos && r.value == utxos[op := utxos[op].Spend(h, txid)]
  {
    if op !in utxos then
      Err(UtxoNotFound)
    else
      var u := utxos[op];
      if u.IsSpent() && u.spentHeight == h && u.spentBy == txid then
        assert u == u.Spend(h, txid);
        assert utxos == utxos[op := u];
        Ok(utxos)
      else if u.IsSpent() && refs.Confirms(u) then
        if u.spentBy == txid then Err(ForkDuplicateSpend(u.spentHeight)) else Err(AlreadySpent)
      else
        Ok(utxos[op := u.Spend(h, txid)])
  }

  /** The outpoints of the first n outputs of a transaction. */
  function CreatedUpTo(tx: Transaction, n: nat): (s: set<Outpoint>)
    requires n <= |tx.outputs|
    ensures forall op :: op in s <==> op.hash == tx.txid && op.index < n
  {
    var s := set i | 0 <= i < n :: Outpoint(tx.txid, i);
    assert forall op: Outpoint :: op.hash == tx.txid && op.index < n ==> op == Outpoint(tx.txid, op.index) && op in s;
    s
  }

  function Created(tx: Transaction): set<Outpoint> {
    CreatedUpTo(tx, |tx.outputs|)
  }

  function NewUtxo(tx: Transaction, i: nat, h: nat): Utxo
    requires i < |tx.outputs|
  {
    Utxo(tx.outputs[i], h, tx.IsCoinbase() || tx.IsCoinStake(), 0, ZERO_HASH)
  }

  function NewUtxosUpTo(tx: Transaction, h: nat, n: nat): UtxoSet
    requires n <= |tx.outputs|
  {
    map op | op in CreatedUpTo(tx, n) :: NewUtxo(tx, op.index, h)
  }

  function NewUtxos(tx: Transaction, h: nat): UtxoSet {
    NewUtxosUpTo(tx, h, |tx.outputs|)
  }

  // ---------------------------------------------------------------- block and transaction records

  function Txids(b: Block): seq<Hash> {
    seq(|b.txs|, i requires 0 <= i < |b.txs| => b.txs[i].txid)
  }

  /** The transaction index after the first n transactions of b are stored. */
  function StoreTxs(index: TxIndex, b: Block, h: nat, n: nat): TxIndex
    requires n <= |b.txs|
  {
    if n == 0 then index
    else StoreTxs(index, b, h, n - 1)[b.txs[n - 1].txid := TxRecord(b.hash, h, n - 1, b.txs[n - 1])]
  }

  // ---------------------------------------------------------------- address history

  const INDEX_INPUT_BIT: nat := 0x8000
  const INDEX_IO_MASK: nat := 0x7fff

  /** Packs an input or output position and its direction into the 16-bit key field. */
  function EncodeHistoryIndex(i: nat, isInput: bool): nat {
    i % INDEX_INPUT_BIT + if isInput then INDEX_INPUT_BIT else 0
  }

  function KeyFor(a: nat, h: nat, txid: Hash, i: nat, isInput: bool): HistoryKey {
    HistoryKey(a, h, txid, EncodeHistoryIndex(i, isInput))
  }

  /** The history keys of the first n outputs of a transaction. */
  function OutputKeysUpTo(tx: Transaction, h: nat, n: nat): set<HistoryKey>
    requires n <= |tx.outputs|
  {
    set i | 0 <= i < n && i <= INDEX_IO_MASK && AddressOf(tx.outputs[i].script).Some?
      :: KeyFor(AddressOf(tx.outputs[i].script).value, h, tx.txid, i, false)
  }

  function OutputKeys(tx: Transaction, h: nat): set<HistoryKey> {
    OutputKeysUpTo(tx, h, |tx.outputs|)
  }

  /** The output an input refers to, looked up in the transaction index. */
  function PrevOutput(index: TxIndex, op: Outpoint): Option<TxOutput> {
    if op.hash in index && op.index < |index[op.hash].tx.outputs| then
      Some(index[op.hash].tx.outputs[op.index])
    else
      None
  }

  /** The history keys of the first n inputs, found through the transaction index. */
  function InputKeysUpTo(index: TxIndex, tx: Transaction, h: nat, n: nat): set<HistoryKey>
    requires n <= |tx.Spends()|
  {
    set i | 0 <= i < n && i <= INDEX_IO_MASK && PrevOutput(index, tx.Spends()[i]).Some?
            && AddressOf(PrevOutput(index, tx.Spends()[i]).value.script).Some?
      :: KeyFor(AddressOf(PrevOutput(index, tx.Spends()[i]).value.script).value, h, tx.txid, i, true)
  }

  function InputKeys(index: TxIndex, tx: Transaction, h: nat): set<HistoryKey> {
    InputKeysUpTo(index, tx, h, |tx.Spends()|)
  }
}
