/** Chains of blocks and the store each of them replays to. */
module Chains {
  import opened Wrappers
  import opened ChainTypes
  import opened Storage
  import opened Connect
  import opened Undo
  import opened Replay

  /** The genesis block spends nothing and points to no parent. */
  ghost predicate GoodGenesis(g: Block) {
    && g.hash != ZERO_HASH
    && g.prev == ZERO_HASH
    && DistinctTxids(g.txs)
    && forall i | 0 <= i < |g.txs| :: g.txs[i].IsCoinbase()
  }

  /** Genesis connected to an empty database and then made the tip. */
  function InitGenesis(g: Block): Result<Store, ChainError> {
    match ConnectBlock(EMPTY_STORE.SpendRefs(), EMPTY_STORE, g, 0, 0)
    case Err(e) => Err(e)
    case Ok(s) => Ok(s.(tip := Some(Tip(0, g.hash))))
  }

  /** The store after connecting the blocks of c one at a time. */
  function ReplayChain(c: seq<Block>): Result<Store, ChainError> {
    if c == [] then Err(BlockNotFound)
    else if |c| == 1 then InitGenesis(c[0])
    else
      match ReplayChain(c[..|c| - 1])
      case Err(e) => Err(e)
      case Ok(s) => Append(s.SpendRefs(), s, c[|c| - 1])
  }

  /** c can be connected block by block, each block new and on top of the last. */
  ghost predicate Replayable(c: seq<Block>) {
    && c != []
    && (if |c| == 1 then GoodGenesis(c[0])
        else
          && Replayable(c[..|c| - 1])
          && ReplayChain(c[..|c| - 1]).Ok?
          && Extends(ReplayChain(c[..|c| - 1]).value, c[|c| - 1]))
    && ReplayChain(c).Ok?
  }

  ghost function Replayed(c: seq<Block>): Store
    requires Replayable(c)
  {
    ReplayChain(c).value
  }

  /** The last step of a replay. */
  lemma ReplayStep(c: seq<Block>)
    requires Replayable(c)
    ensures c != []
    ensures |c| == 1 ==> GoodGenesis(c[0]) && InitGenesis(c[0]) == Ok(Replayed(c))
    ensures |c| > 1 ==>
      var front, b := c[..|c| - 1], c[|c| - 1];
      && Replayable(front) && Extends(Replayed(front), b) && front + [b] == c
      && Append(Replayed(front).SpendRefs(), Replayed(front), b) == Ok(Replayed(c))
  {
    hide Append, InitGenesis, Extends, GoodGenesis;
  }

  // ---------------------------------------------------------------- genesis

  lemma {:induction false} CoinbasesApply(refs: Refs, a: Applied, index: TxIndex, b: Block, h: nat, n: nat)
    requires n <= |b.txs| && DistinctTxids(b.txs) && UtxosAgree(index, a.utxos)
    requires TxidSet(b.txs) !! index.Keys
    requires forall i | 0 <= i < |b.txs| :: b.txs[i].IsCoinbase()
    ensures var r := ApplyTxs(refs, a, b.txs[..n], h);
      r.Ok? && UtxosAgree(StoreTxs(index, b, h, n), r.value.utxos) && r.value.spent == a.spent
  {
    if n > 0 {
      var front, tx := b.txs[..n - 1], b.txs[n - 1];
      assert b.txs[..n][..n - 1] == front;
      CoinbasesApply(refs, a, index, b, h, n - 1);
      StoreTxsSpec(index, b, h, n - 1);
      assert tx.txid !in TxidSet(front);
      assert tx.txid in TxidSet(b.txs);
      var p := ApplyTxs(refs, a, front, h).value;
      assert tx.Spends() == [];
      assert ApplyTx(refs, p, tx, h) == Ok(CreateOutputs(p, tx, h));
      var rec := TxRecord(b.hash, h, n - 1, tx);
      SpendNone(StoreTxs(index, b, h, n - 1), p.utxos, rec);
      CreateAgree(StoreTxs(index, b, h, n - 1)[tx.txid := rec], p.utxos, rec);
    }
  }

  lemma SpendNone(index: TxIndex, u: UtxoSet, rec: TxRecord)
    requires UtxosAgree(index, u) && rec.tx.txid !in index
    ensures UtxosAgree(index[rec.tx.txid := rec], u)
  {
  }

  lemma GenesisTxs(g: Block)
    requires GoodGenesis(g)
    ensures InitGenesis(g).Ok?
    ensures var s := InitGenesis(g).value;
      && UtxosAgree(s.txs, s.utxos)
      && s.txs.Keys == TxidSet(g.txs)
      && (forall i | 0 <= i < |g.txs| :: s.txs[g.txs[i].txid] == TxRecord(g.hash, 0, i, g.txs[i]))
      && HistoryAgrees(s)
  {
    var refs, a0 := EMPTY_STORE.SpendRefs(), StartApply(EMPTY_STORE.utxos);
    assert g.txs[..|g.txs|] == g.txs;
    CoinbasesApply(refs, a0, map[], g, 0, |g.txs|);
    StoreTxsSpec(map[], g, 0, |g.txs|);
    var s, a := InitGenesis(g).value, ApplyTxs(refs, a0, g.txs, 0).value;
    ApplyTxsSpent(refs, a0, g.txs, 0);
    IndexTxsSpec(map[], s.txs, g.txs, 0, g.hash, a.spent);
    UndoKeysTxids(s.txs, g.txs, 0);
  }

  lemma GenesisWellFormed(g: Block)
    requires GoodGenesis(g)
    ensures InitGenesis(g).Ok? && WellFormed(InitGenesis(g).value)
    ensures InitGenesis(g).value.tip == Some(Tip(0, g.hash))
    ensures InitGenesis(g).value.GetBlockByHeight(0) == Some(g)
  {
    hide ApplyTxs, StoreTxs, IndexTxs, UtxosAgree;
    GenesisTxs(g);
    var s := InitGenesis(g).value;
    assert s.blocks == map[g.hash := CompactBlock(0, g.prev, Txids(g))];
    assert OneLine(s);
    assert TxsAgree(s) by {
      forall t | t in s.txs ensures Placed(s.blocks, s.txs[t], t) {
        var i :| 0 <= i < |g.txs| && g.txs[i].txid == t;
        assert s.txs[t] == TxRecord(g.hash, 0, i, g.txs[i]);
      }
    }
    assert s.LoadTxs(Txids(g)) == g.txs;
  }

  // ---------------------------------------------------------------- replayed chains

  lemma {:induction false} ReplayWellFormed(c: seq<Block>)
    requires Replayable(c)
    ensures WellFormed(Replayed(c))
    ensures Replayed(c).tip == Some(Tip(|c| - 1, c[|c| - 1].hash))
  {
    if |c| == 1 {
      GenesisWellFormed(c[0]);
    } else {
      var front := c[..|c| - 1];
      ReplayWellFormed(front);
      AppendKeeps(Replayed(front).SpendRefs(), Replayed(front), c[|c| - 1]);
    }
  }

  lemma {:induction false} ReplaySupply(c: seq<Block>)
    requires Replayable(c)
    ensures forall k: nat :: k in Replayed(c).supply <==> k < |c|
  {
    hide ApplyTxs, StoreTxs, IndexTxs, WellFormed, Extends;
    if |c| > 1 {
      ReplaySupply(c[..|c| - 1]);
      ReplayWellFormed(c[..|c| - 1]);
    }
  }

  lemma {:induction false} ReplayablePrefix(c: seq<Block>, n: nat)
    requires Replayable(c) && 1 <= n <= |c|
    ensures Replayable(c[..n])
  {
    if n < |c| {
      ReplayablePrefix(c[..|c| - 1], n);
      assert c[..|c| - 1][..n] == c[..n];
    } else {
      assert c[..n] == c;
    }
  }

  /** Loading a stored block gives the block back. */
  lemma AppendGetBlock(refs: Refs, s: Store, b: Block)
    requires s.tip.Some? && Fresh(s, b) && Append(refs, s, b).Ok?
    ensures Append(refs, s, b).value.GetBlock(b.hash) == Some(b)
  {
    AppendFields(refs, s, b);
    hide ConnectBlock, StoreTxs;
    var h, r := Height(s) + 1, Append(refs, s, b).value;
    assert b.txs[..|b.txs|] == b.txs;
    StoreTxsSpec(s.txs, b, h, |b.txs|);
    assert r.blocks[b.hash].txids == Txids(b);
    assert r.LoadTxs(Txids(b)) == b.txs;
  }

  /** Connecting a block does not disturb the blocks stored before. */
  lemma AppendKeepsBlock(refs: Refs, s: Store, b: Block, x: Hash)
    requires s.tip.Some? && Fresh(s, b) && Append(refs, s, b).Ok?
    requires x in s.blocks && s.GetBlock(x).Some?
    ensures Append(refs, s, b).value.GetBlock(x) == s.GetBlock(x)
  {
    AppendFields(refs, s, b);
    hide ConnectBlock, StoreTxs;
    var h, r := Height(s) + 1, Append(refs, s, b).value;
    FreshTxidSet(s, b);
    assert b.txs[..|b.txs|] == b.txs;
    StoreTxsSpec(s.txs, b, h, |b.txs|);
    var txids := s.blocks[x].txids;
    assert forall i | 0 <= i < |txids| :: txids[i] in r.txs && r.txs[txids[i]] == s.txs[txids[i]];
    assert r.LoadTxs(txids) == s.LoadTxs(txids);
  }

  /** Height k of a replayed chain holds block k, whole. */
  lemma {:induction false} ReplayGetBlock(c: seq<Block>, k: nat)
    requires Replayable(c) && k < |c|
    ensures Replayed(c).GetBlockByHeight(k) == Some(c[k])
    ensures k in Replayed(c).heightToHash && Replayed(c).heightToHash[k] == c[k].hash
  {
    ReplayWellFormed(c);
    if |c| == 1 {
      GenesisWellFormed(c[0]);
    } else {
      var front := c[..|c| - 1];
      var s := Replayed(front);
      ReplayWellFormed(front);
      AppendGetBlock(s.SpendRefs(), s, c[|c| - 1]);
      if k < |c| - 1 {
        ReplayGetBlock(front, k);
        assert front[k] == c[k];
        AppendKeepsBlock(s.SpendRefs(), s, c[|c| - 1], s.heightToHash[k]);
      }
    }
  }

  /** One block per height, the indexes mutually inverse, every parent link one
      block down, and no hash twice. */
  ghost predicate SingleLine(s: Store, c: seq<Block>) {
    && s.heightToHash == (map k: nat | k < |c| :: c[k].hash)
    && s.hashToHeight.Keys == (set k | 0 <= k < |c| :: c[k].hash)
    && s.blocks.Keys == s.hashToHeight.Keys
    && (forall k | 0 <= k < |c| :: s.hashToHeight[c[k].hash] == k)
    && (forall j, k | 0 <= j < k < |c| :: c[j].hash != c[k].hash)
    && (forall k | 0 <= k < |c| :: c[k].prev == if k == 0 then ZERO_HASH else c[k - 1].hash)
    && c != [] && s.tip == Some(Tip(|c| - 1, c[|c| - 1].hash))
  }

  lemma ReplaySingleLine(c: seq<Block>)
    requires Replayable(c)
    ensures SingleLine(Replayed(c), c)
    ensures forall k | 0 <= k < |c| :: Replayed(c).GetBlockByHeight(k) == Some(c[k])
  {
    hide SingleLine, HoldsAt, OneLine;
    ReplayWellFormed(c);
    forall k | 0 <= k < |c|
      ensures HoldsAt(Replayed(c), c, k) && Replayed(c).GetBlockByHeight(k) == Some(c[k])
    {
      ReplayGetBlock(c, k);
      BlockAt(Replayed(c), c, k);
    }
    LineOf(Replayed(c), c);
  }

  lemma LineOf(s: Store, c: seq<Block>)
    requires OneLine(s) && c != [] && s.tip == Some(Tip(|c| - 1, c[|c| - 1].hash))
    requires forall k | 0 <= k < |c| :: HoldsAt(s, c, k)
    ensures SingleLine(s, c)
  {
    hide OneLine, HoldsAt;
    LineMaps(s, c);
    forall k | 0 <= k < |c| ensures c[k].prev == if k == 0 then ZERO_HASH else c[k - 1].hash {
      LineLinks(s, c, k);
    }
  }

  /** The store holds block k of c at height k. */
  ghost predicate HoldsAt(s: Store, c: seq<Block>, k: nat)
    requires k < |c|
  {
    && k in s.heightToHash && s.heightToHash[k] == c[k].hash
    && c[k].hash in s.blocks && s.blocks[c[k].hash].prev == c[k].prev && s.blocks[c[k].hash].height == k
  }

  lemma BlockAt(s: Store, c: seq<Block>, k: nat)
    requires OneLine(s) && k < |c| && s.GetBlockByHeight(k) == Some(c[k]) && k in s.heightToHash
    ensures HoldsAt(s, c, k)
  {
  }

  lemma LineMaps(s: Store, c: seq<Block>)
    requires OneLine(s) && c != [] && s.tip.Some? && s.tip.value.height == |c| - 1
    requires forall k | 0 <= k < |c| :: HoldsAt(s, c, k)
    ensures s.blocks.Keys == s.hashToHeight.Keys
    ensures s.heightToHash == (map k: nat | k < |c| :: c[k].hash)
    ensures s.hashToHeight.Keys == (set k | 0 <= k < |c| :: c[k].hash)
    ensures forall k | 0 <= k < |c| :: s.hashToHeight[c[k].hash] == k
    ensures forall j, k | 0 <= j < k < |c| :: c[j].hash != c[k].hash
  {
    hide ParentAt;
    forall x | x in s.hashToHeight ensures exists k :: 0 <= k < |c| && x == c[k].hash {
      assert HoldsAt(s, c, s.hashToHeight[x]);
    }
    forall k | 0 <= k < |c| ensures c[k].hash in s.hashToHeight && s.hashToHeight[c[k].hash] == k {
      assert HoldsAt(s, c, k);
    }
    forall k: nat | k < |c| ensures k in s.heightToHash && s.heightToHash[k] == c[k].hash {
      assert HoldsAt(s, c, k);
    }
  }

  lemma LineLinks(s: Store, c: seq<Block>, k: nat)
    requires OneLine(s) && k < |c|
    requires HoldsAt(s, c, k) && (k > 0 ==> HoldsAt(s, c, k - 1))
    ensures c[k].prev == if k == 0 then ZERO_HASH else c[k - 1].hash
  {
  }

  // ---------------------------------------------------------------- what stays behind above the tip

  /** The store without money supply entries above height h. */
  function Trim(s: Store, h: nat): Store {
    s.(supply := map k | k in s.supply && k <= h :: s.supply[k])
  }

  /** s is the store c replays to, up to supply entries above the tip. */
  ghost predicate Holds(s: Store, c: seq<Block>) {
    Replayable(c) && Trim(s, |c| - 1) == Replayed(c)
  }

  /** Money supply entries only influence money supply entries. */
  lemma AppendSupply(refs: Refs, s: Store, x: map<nat, int>, b: Block)
    requires s.tip.Some? && s.(supply := x).GetMoneySupply(Height(s)) == s.GetMoneySupply(Height(s))
    ensures var t := s.(supply := x);
      && (Append(refs, s, b).Ok? <==> Append(refs, t, b).Ok?)
      && (Append(refs, s, b).Ok? ==>
            var h := Height(s) + 1;
            var r := Append(refs, s, b).value;
            h in r.supply && Append(refs, t, b).value == r.(supply := x[h := r.supply[h]]))
  {
    hide ApplyTxs, StoreTxs, IndexTxs;
  }

  /** A store that holds c satisfies the invariant, loads every block of c, and
      has c's last block as its tip. */
  lemma HoldsWellFormed(s: Store, c: seq<Block>)
    requires Holds(s, c)
    ensures WellFormed(s) && s.tip == Some(Tip(|c| - 1, c[|c| - 1].hash))
  {
    ReplayWellFormed(c);
    hide Replayable, ReplayChain;
    var t := Replayed(c);
    assert s == t.(supply := s.supply);
  }

  lemma AppendTrim(refs: Refs, s: Store, b: Block)
    requires s.tip.Some?
    ensures Append(refs, s, b).Ok? <==> Append(refs, Trim(s, Height(s)), b).Ok?
    ensures Append(refs, s, b).Ok? ==>
      Trim(Append(refs, s, b).value, Height(s) + 1) == Append(refs, Trim(s, Height(s)), b).value
  {
    hide ApplyTxs, StoreTxs, IndexTxs;
    var t, h := Trim(s, Height(s)), Height(s) + 1;
    AppendSupply(refs, s, t.supply, b);
    if Append(refs, s, b).Ok? {
      var r := Append(refs, s, b).value;
      assert r.supply == s.supply[h := r.supply[h]];
      assert Trim(r, h).supply == t.supply[h := r.supply[h]];
    }
  }

  /** A connect accepted on a store that holds c leads to one that holds c + [b]. */
  lemma HoldsAppend(s: Store, c: seq<Block>, b: Block)
    requires Holds(s, c) && Extends(s, b) && Append(s.SpendRefs(), s, b).Ok?
    ensures Holds(Append(s.SpendRefs(), s, b).value, c + [b])
  {
    var t := Replayed(c);
    ReplayWellFormed(c);
    AppendTrim(s.SpendRefs(), s, b);
    var d := c + [b];
    assert d[..|d| - 1] == c;
  }

  lemma DisconnectSupply(s: Store, x: map<nat, int>, b: Block)
    requires DisconnectBlock(s, b).Ok?
    ensures DisconnectBlock(s.(supply := x), b) == Ok(DisconnectBlock(s, b).value.(supply := x))
  {
  }

  /** Disconnecting the last block of the chain a store holds leads to the chain without it. */
  lemma HoldsDisconnect(s: Store, c: seq<Block>)
    requires Holds(s, c) && |c| > 1
    ensures DisconnectBlock(s, c[|c| - 1]).Ok?
    ensures Holds(DisconnectBlock(s, c[|c| - 1]).value, c[..|c| - 1])
  {
    var front, b, r := c[..|c| - 1], c[|c| - 1], Replayed(c);
    var t := Replayed(front);
    ReplayWellFormed(front);
    DisconnectUndoesAppend(t, b);
    DisconnectSupply(r, s.supply, b);
    assert r.(supply := s.supply) == s;
    ReplaySupply(front);
    SupplyBelow(s.supply, r.supply, t.supply, |c| - 1);
  }

  lemma SupplyBelow(x: map<nat, int>, r: map<nat, int>, t: map<nat, int>, h: nat)
    requires h > 0 && r == (map k | k in x && k <= h :: x[k])
    requires h in r && r == t[h := r[h]] && forall k: nat :: k in t <==> k <= h - 1
    ensures t == (map k | k in x && k <= h - 1 :: x[k])
  {
    forall k: nat | k <= h - 1 ensures k in x && x[k] == t[k] {
      assert k in r && r[k] == t[k];
    }
  }

  lemma HoldsReplayed(s: Store, c: seq<Block>)
    requires Holds(s, c)
    ensures Replayable(c)
  {
  }

  lemma LineLink(s: Store, c: seq<Block>, k: nat)
    requires SingleLine(s, c) && 0 < k < |c|
    ensures c[k].prev == c[k - 1].hash
  {
  }

  /** A store that holds c is the single line of c's blocks. */
  lemma HoldsSingleLine(s: Store, c: seq<Block>)
    requires Holds(s, c)
    ensures SingleLine(s, c)
  {
    ReplaySingleLine(c);
    hide Replayable, ReplayChain, SingleLine;
    assert s == Replayed(c).(supply := s.supply);
    SameLine(s, Replayed(c), c);
  }

  lemma SameLine(s: Store, t: Store, c: seq<Block>)
    requires SingleLine(t, c) && s == t.(supply := s.supply)
    ensures SingleLine(s, c)
  {
  }
}
