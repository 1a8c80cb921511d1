/** Disconnecting several blocks in a row, from the last to the first.

    A batch may spend an output in two of its blocks.  Disconnecting one of them then
    frees the output too early, but disconnecting all of them puts everything right:
    BatchUndone.  So a database that was exact below such a batch is exact again once
    the batch is gone, whatever was connected and disconnected above in between. */
module Unwinding {
  import opened Wrappers
  import opened ChainTypes
  import opened Storage
  import opened Connect
  import opened Undo
  import opened Replay
  import opened Chains
  import opened Batches
  import opened Completeness
  import opened Lines
  import opened Chunks

  /** The store after the blocks are disconnected, the last one first. */
  function DisconnectAll(s: Store, blocks: seq<Block>): Result<Store, ChainError>
    decreases |blocks|
  {
    if blocks == [] then Ok(s)
    else
      match DisconnectBlock(s, blocks[|blocks| - 1])
      case Err(e) => Err(e)
      case Ok(d) => DisconnectAll(d, blocks[..|blocks| - 1])
  }

  /** v with other supply entries and with the markers of some outputs cleared. */
  function Freed(v: Store, x: map<nat, int>, ops: set<Outpoint>): Store {
    v.(supply := x, utxos := UnspendAll(v.utxos, ops))
  }

  // ---------------------------------------------------------------- one block, some markers already cleared

  lemma FreedMap(u: UtxoSet, v: UtxoSet, txs: seq<Transaction>, made: set<Outpoint>, ops: set<Outpoint>, h: nat)
    requires v.Keys == u.Keys + made && made !! u.Keys && MarksOnly(u, v, txs, h) && h > 0
    requires forall op | op in u && !u[op].IsSpent() :: u[op].spentBy == ZERO_HASH
    ensures UnspendAll(UnspendAll(v, ops) - made, InputsOf(txs)) == UnspendAll(u, ops + InputsOf(txs))
    ensures UnspendAll(v, ops).Keys == v.Keys
  {
    hide InputsOf;
  }

  lemma AppendShape(refs: Refs, u: Store, b: Block)
    requires UtxosAgree(u.txs, u.utxos) && Fresh(u, b) && Append(refs, u, b).Ok?
    ensures var v := Append(refs, u, b).value.utxos;
      && v.Keys == u.utxos.Keys + CreatedBy(b.txs) && CreatedBy(b.txs) !! u.utxos.Keys
      && MarksOnly(u.utxos, v, b.txs, Height(u) + 1)
      && UndoReady(v.Keys, b.txs)
    ensures forall op | op in u.utxos && !u.utxos[op].IsSpent() :: u.utxos[op].spentBy == ZERO_HASH
  {
    var h := Height(u) + 1;
    CreatedFresh(u, b);
    AppendUtxos(refs, u, b);
    ApplyTxsShape(refs, StartApply(u.utxos), b.txs, h);
    ApplyTxsUndoReady(refs, StartApply(u.utxos), b.txs, h);
    hide Append, UndoReady, MarksOnly, CreatedBy;
  }

  lemma FreedUtxos(refs: Refs, u: Store, b: Block, ops: set<Outpoint>)
    requires WellFormed(u) && Extends(u, b) && Append(refs, u, b).Ok?
    ensures var w := UnspendAll(Append(refs, u, b).value.utxos, ops);
      && UnspendAll(w - CreatedBy(b.txs), InputsOf(b.txs)) == UnspendAll(u.utxos, ops + InputsOf(b.txs))
      && UndoReady(w.Keys, b.txs)
  {
    hide Append, OneLine, TxsAgree, UtxosAgree, HistoryAgrees, UndoReady, MarksOnly, UnspendAll, InputsOf, CreatedBy;
    AppendShape(refs, u, b);
    FreedMap(u.utxos, Append(refs, u, b).value.utxos, b.txs, CreatedBy(b.txs), ops, Height(u) + 1);
  }

  lemma FreedFields(v: Store, x: map<nat, int>, ops: set<Outpoint>)
    ensures var d := Freed(v, x, ops);
      && d.txs == v.txs && d.history == v.history && d.hashToHeight == v.hashToHeight
      && d.utxos == UnspendAll(v.utxos, ops)
  {
  }

  lemma AppendHeight(refs: Refs, u: Store, b: Block)
    requires WellFormed(u) && Extends(u, b) && Append(refs, u, b).Ok?
    ensures var v := Append(refs, u, b).value;
      && b.hash in v.hashToHeight && v.hashToHeight[b.hash] == Height(u) + 1
      && v.blocks - {b.hash} == u.blocks && v.hashToHeight - {b.hash} == u.hashToHeight
      && v.heightToHash - {Height(u) + 1} == u.heightToHash
      && u.tip == Some(Tip(Height(u), b.prev))
  {
    AppendFields(refs, u, b);
    InsertRemove(u.blocks, b.hash, CompactBlock(Height(u) + 1, b.prev, Txids(b)));
    InsertRemove(u.hashToHeight, b.hash, Height(u) + 1);
    InsertRemove(u.heightToHash, Height(u) + 1, b.hash);
    hide ConnectBlock, TxsAgree, UtxosAgree;
  }

  lemma FreedUndone(refs: Refs, u: Store, b: Block, x: map<nat, int>, ops: set<Outpoint>)
    requires WellFormed(u) && Extends(u, b) && Append(refs, u, b).Ok?
    ensures var v := Append(refs, u, b).value;
      var d := Freed(v, x, ops);
      UndoTxs(d.txs, Undone(d.utxos, d.txs, d.history), b.txs, Height(u) + 1)
        == Ok(Undone(UnspendAll(u.utxos, ops + InputsOf(b.txs)), u.txs, u.history))
  {
    var v := Append(refs, u, b).value;
    ExtendsFresh(u, b);
    hide *;
    FreedFields(v, x, ops);
    FreedUtxos(refs, u, b, ops);
    UndoneTxs(refs, u, b);
    UndoneHistory(refs, u, b);
    UndoTxsSpec(v.txs, Undone(UnspendAll(v.utxos, ops), v.txs, v.history), b.txs, Height(u) + 1);
  }

  lemma ExtendsFresh(s: Store, b: Block)
    requires Extends(s, b)
    ensures s.tip.Some? && Fresh(s, b)
  {
  }

  lemma UnwindStep(refs: Refs, u: Store, b: Block, x: map<nat, int>, ops: set<Outpoint>)
    requires WellFormed(u) && Extends(u, b) && Append(refs, u, b).Ok?
    ensures DisconnectBlock(Freed(Append(refs, u, b).value, x, ops), b) == Ok(Freed(u, x, ops + InputsOf(b.txs)))
  {
    AppendHeight(refs, u, b);
    FreedUndone(refs, u, b, x, ops);
    hide Append, WellFormed, Extends, UndoTxs, UnspendAll, InputsOf;
  }

  // ---------------------------------------------------------------- a whole batch

  lemma {:induction false} UnwindAll(refs: Refs, s: Store, blocks: seq<Block>, x: map<nat, int>, ops: set<Outpoint>)
    requires WellFormed(s) && ExtendsAll(refs, s, blocks) && AppendAll(refs, s, blocks).Ok?
    ensures WellFormed(AppendAll(refs, s, blocks).value)
    ensures DisconnectAll(Freed(AppendAll(refs, s, blocks).value, x, ops), blocks) == Ok(Freed(s, x, ops + SpentBy(blocks)))
  {
    hide Append, WellFormed, Extends, Freed, DisconnectBlock, InputsOf;
    if blocks == [] {
      assert ops + {} == ops;
    } else {
      var front, b := blocks[..|blocks| - 1], blocks[|blocks| - 1];
      var u := AppendAll(refs, s, front).value;
      UnwindAll(refs, s, front, x, ops + InputsOf(b.txs));
      AppendKeeps(refs, u, b);
      UnwindStep(refs, u, b, x, ops);
      assert ops + InputsOf(b.txs) + SpentBy(front) == ops + SpentBy(blocks);
    }
  }

  lemma NothingFreed(s: Store, x: map<nat, int>, ops: set<Outpoint>)
    requires forall op | op in s.utxos && op in ops :: !s.utxos[op].IsSpent()
    ensures Freed(s, x, ops) == s.(supply := x)
  {
    assert UnspendAll(s.utxos, ops) == s.utxos;
  }

  /** Disconnecting all blocks of an accepted batch restores the state before it, apart
      from supply entries, whatever its blocks spend. */
  lemma BatchUndone(s: Store, blocks: seq<Block>)
    requires WellFormed(s) && ExtendsAll(s.SpendRefs(), s, blocks) && AppendAll(s.SpendRefs(), s, blocks).Ok?
    ensures var w := AppendAll(s.SpendRefs(), s, blocks).value;
      DisconnectAll(w, blocks) == Ok(s.(supply := w.supply))
  {
    hide *;
    var w := AppendAll(s.SpendRefs(), s, blocks).value;
    UnwindAll(s.SpendRefs(), s, blocks, w.supply, {});
    NothingFreed(w, w.supply, {});
    forall op | op in s.utxos && op in {} + SpentBy(blocks) ensures !s.utxos[op].IsSpent() {
      if s.utxos[op].IsSpent() { SpentNotAgain(s, blocks, op); }
    }
    NothingFreed(s, w.supply, {} + SpentBy(blocks));
  }

  // ---------------------------------------------------------------- supply entries play no part

  lemma DisconnectAnySupply(s: Store, x: map<nat, int>, b: Block)
    ensures DisconnectBlock(s, b).Ok? <==> DisconnectBlock(s.(supply := x), b).Ok?
    ensures DisconnectBlock(s, b).Ok? ==> DisconnectBlock(s.(supply := x), b) == Ok(DisconnectBlock(s, b).value.(supply := x))
    ensures DisconnectBlock(s, b).Ok? ==> DisconnectBlock(s, b).value.supply == s.supply
  {
    hide UndoTxs;
  }

  lemma {:induction false} DisconnectAllSupply(s: Store, x: map<nat, int>, blocks: seq<Block>)
    ensures DisconnectAll(s, blocks).Ok? <==> DisconnectAll(s.(supply := x), blocks).Ok?
    ensures DisconnectAll(s, blocks).Ok? ==> DisconnectAll(s.(supply := x), blocks) == Ok(DisconnectAll(s, blocks).value.(supply := x))
    ensures DisconnectAll(s, blocks).Ok? ==> DisconnectAll(s, blocks).value.supply == s.supply
    decreases |blocks|
  {
    hide DisconnectBlock;
    if blocks != [] {
      var b := blocks[|blocks| - 1];
      DisconnectAnySupply(s, x, b);
      if DisconnectBlock(s, b).Ok? { DisconnectAllSupply(DisconnectBlock(s, b).value, x, blocks[..|blocks| - 1]); }
    }
  }

  lemma {:induction false} DisconnectAllConcat(s: Store, a: seq<Block>, b: seq<Block>)
    requires DisconnectAll(s, b).Ok?
    ensures DisconnectAll(s, a + b) == DisconnectAll(DisconnectAll(s, b).value, a)
    decreases |b|
  {
    hide DisconnectBlock;
    if b == [] {
      assert a + b == a;
    } else {
      var front, last := b[..|b| - 1], b[|b| - 1];
      assert (a + b)[..|a + b| - 1] == a + front;
      DisconnectAllConcat(DisconnectBlock(s, last).value, a, front);
    }
  }

  /** A batch leaves the supply entries up to the old tip alone. */
  lemma {:induction false} AppendAllSupply(refs: Refs, s: Store, blocks: seq<Block>)
    requires s.tip.Some? && AppendAll(refs, s, blocks).Ok?
    ensures var w := AppendAll(refs, s, blocks).value;
      && w.tip.Some? && Height(w) >= Height(s)
      && forall k | k <= Height(s) :: (k in w.supply <==> k in s.supply) && (k in s.supply ==> w.supply[k] == s.supply[k])
  {
    hide Append;
    if blocks != [] {
      var front, b := blocks[..|blocks| - 1], blocks[|blocks| - 1];
      AppendAllSupply(refs, s, front);
      SupplyAppended(refs, AppendAll(refs, s, front).value, b);
    }
  }

  lemma SupplyAppended(refs: Refs, v: Store, b: Block)
    requires v.tip.Some? && Append(refs, v, b).Ok?
    ensures var r, h := Append(refs, v, b).value, Height(v) + 1;
      r.tip.Some? && Height(r) == h && h in r.supply && r.supply == v.supply[h := r.supply[h]]
  {
    hide ApplyTxs, StoreTxs, IndexTxs;
  }

  lemma HoldsOtherSupply(s: Store, x: map<nat, int>, c: seq<Block>)
    requires c != [] && forall k: nat | k < |c| :: (k in x <==> k in s.supply) && (k in x ==> x[k] == s.supply[k])
    ensures Holds(s, c) <==> Holds(s.(supply := x), c)
  {
    hide Replayable, ReplayChain;
    assert Trim(s, |c| - 1) == Trim(s.(supply := x), |c| - 1);
  }

  // ---------------------------------------------------------------- exact from a height down

  /** Once the blocks from height n on are disconnected, the database is exactly what
      the first n blocks lead to. */
  ghost predicate ExactBelow(s: Store, c: seq<Block>, n: nat) {
    && 1 <= n <= |c|
    && DisconnectAll(s, c[n..]).Ok? && Holds(DisconnectAll(s, c[n..]).value, c[..n])
  }

  lemma ExactAtTop(s: Store, c: seq<Block>)
    requires c != []
    ensures ExactBelow(s, c, |c|) <==> Holds(s, c)
  {
    hide Holds;
    assert c[|c|..] == [] && c[..|c|] == c;
  }

  /** Disconnecting the last block changes nothing below it. */
  lemma ExactBelowDisconnect(s: Store, c: seq<Block>, d: Store, n: nat)
    requires |c| > 1 && DisconnectBlock(s, c[|c| - 1]) == Ok(d) && n < |c|
    ensures ExactBelow(d, c[..|c| - 1], n) <==> ExactBelow(s, c, n)
  {
    hide Holds, DisconnectBlock;
    if 1 <= n {
      assert c[n..][..|c[n..]| - 1] == c[..|c| - 1][n..];
      assert c[..|c| - 1][..n] == c[..n];
    }
  }

  /** A database that holds a chain is exact from every height down. */
  lemma {:induction false} HoldsBelow(s: Store, c: seq<Block>, n: nat)
    requires Holds(s, c) && 1 <= n <= |c|
    ensures ExactBelow(s, c, n)
    decreases |c|
  {
    hide Holds, DisconnectBlock, ExactBelow;
    if n == |c| {
      ExactAtTop(s, c);
    } else {
      HoldsDisconnect(s, c);
      HoldsBelow(DisconnectBlock(s, c[|c| - 1]).value, c[..|c| - 1], n);
      ExactBelowDisconnect(s, c, DisconnectBlock(s, c[|c| - 1]).value, n);
    }
  }

  lemma ExactBelowIs(s: Store, c: seq<Block>, rest: seq<Block>, n: nat)
    requires 1 <= n <= |c| && rest == c[n..]
    ensures ExactBelow(s, c, n) <==> DisconnectAll(s, rest).Ok? && Holds(DisconnectAll(s, rest).value, c[..n])
  {
    hide Holds, DisconnectAll;
  }

  lemma AboveSame(refs: Refs, s: Store, blocks: seq<Block>, w: Store, c: seq<Block>)
    requires s.tip.Some? && |c| <= Height(s) + 1 && AppendAll(refs, s, blocks) == Ok(w)
    ensures forall k: nat | k < |c| :: (k in w.supply <==> k in s.supply) && (k in w.supply ==> w.supply[k] == s.supply[k])
  {
    AppendAllSupply(refs, s, blocks);
    hide AppendAll;
  }

  /** Neither does an accepted batch, whatever it spends. */
  lemma ExactBelowBatch(s: Store, c: seq<Block>, blocks: seq<Block>, w: Store, n: nat)
    requires Stands(s, c) && ExtendsAll(s.SpendRefs(), s, blocks) && AppendAll(s.SpendRefs(), s, blocks) == Ok(w)
    requires 1 <= n <= |c|
    ensures ExactBelow(w, c + blocks, n) <==> ExactBelow(s, c, n)
  {
    hide *;
    StandsTip(s, c);
    var rest := c[n..];
    assert (c + blocks)[n..] == rest + blocks && (c + blocks)[..n] == c[..n];
    ExactBelowIs(s, c, rest, n);
    ExactBelowIs(w, c + blocks, rest + blocks, n);
    BatchUndone(s, blocks);
    DisconnectAllConcat(w, rest, blocks);
    DisconnectAllSupply(s, w.supply, rest);
    if DisconnectAll(s, rest).Ok? {
      AboveSame(s.SpendRefs(), s, blocks, w, c[..n]);
      HoldsOtherSupply(DisconnectAll(s, rest).value, w.supply, c[..n]);
    }
  }

  /** A database that held a chain before a batch holds it again once all blocks of
      the batch are disconnected, whatever they spend. */
  lemma ExactAgain(s: Store, c: seq<Block>, blocks: seq<Block>, w: Store)
    requires Holds(s, c) && ExtendsAll(s.SpendRefs(), s, blocks) && AppendAll(s.SpendRefs(), s, blocks) == Ok(w)
    ensures DisconnectAll(w, blocks).Ok? && Holds(DisconnectAll(w, blocks).value, c)
  {
    hide *;
    HoldsStands(s, c);
    StandsTip(s, c);
    HoldsBelow(s, c, |c|);
    ExactBelowBatch(s, c, blocks, w, |c|);
    assert (c + blocks)[|c|..] == blocks && (c + blocks)[..|c|] == c;
    ExactBelowIs(w, c + blocks, blocks, |c|);
  }

  // ---------------------------------------------------------------- over a run

  /** At every height both chains reach, the one database is exact from there down
      exactly if the other is. */
  ghost predicate SameExact(s: Store, c: seq<Block>, t: Store, d: seq<Block>) {
    forall n | 1 <= n <= |c| && n <= |d| :: ExactBelow(t, d, n) <==> ExactBelow(s, c, n)
  }

  lemma SameExactStart(s: Store, c: seq<Block>)
    ensures SameExact(s, c, s, c)
  {
  }

  /** What it means at the top of the shorter chain. */
  lemma SameExactAt(s: Store, c: seq<Block>, t: Store, d: seq<Block>)
    requires SameExact(s, c, t, d) && d != [] && |d| <= |c|
    ensures Holds(t, d) <==> ExactBelow(s, c, |d|)
  {
    hide ExactBelow, Holds;
    ExactAtTop(t, d);
  }

  lemma SameExactTrans(s: Store, c: seq<Block>, t: Store, d: seq<Block>, u: Store, e: seq<Block>)
    requires SameExact(s, c, t, d) && SameExact(t, d, u, e) && (|c| <= |d| || |e| <= |d|)
    ensures SameExact(s, c, u, e)
  {
    hide ExactBelow;
  }

  lemma SameExactBatch(s: Store, c: seq<Block>, blocks: seq<Block>, w: Store)
    requires Stands(s, c) && ExtendsAll(s.SpendRefs(), s, blocks) && AppendAll(s.SpendRefs(), s, blocks) == Ok(w)
    ensures SameExact(s, c, w, c + blocks)
  {
    hide ExactBelow, Stands, ExtendsAll, AppendAll;
    forall n | 1 <= n <= |c| && n <= |c + blocks| ensures ExactBelow(w, c + blocks, n) <==> ExactBelow(s, c, n) {
      ExactBelowBatch(s, c, blocks, w, n);
    }
  }

  lemma SameExactDisconnect(s: Store, c: seq<Block>, d: Store)
    requires |c| > 1 && DisconnectBlock(s, c[|c| - 1]) == Ok(d)
    ensures SameExact(s, c, d, c[..|c| - 1])
  {
    hide ExactBelow, DisconnectBlock;
    forall n | 1 <= n <= |c| && n <= |c| - 1 ensures ExactBelow(d, c[..|c| - 1], n) <==> ExactBelow(s, c, n) {
      ExactBelowDisconnect(s, c, d, n);
    }
  }
}
