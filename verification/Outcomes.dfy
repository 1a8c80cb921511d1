/** What a batch of blocks does in any state, as a function: which of its blocks
    count as new, why they are refused, and the state they lead to.

    The methods in module BlockChain are proved equal to Outcome and RunChunks
    without any condition on the state or on the blocks. */
module Outcomes {
  import opened Wrappers
  import opened ChainTypes
  import opened Storage
  import opened Connect
  import opened Undo
  import opened Replay
  import opened Batches
  import opened Chunks

  // ---------------------------------------------------------------- data

  /** What a block has to pass at its height before it is applied. */
  datatype Rules = Rules(checkpoints: map<nat, Hash>, badBlocks: map<nat, Hash>, accepts: (Block, nat, bool) -> bool) {

    predicate Permits(height: nat, hash: Hash) {
      && (height in badBlocks ==> badBlocks[height] != hash)
      && (height in checkpoints ==> checkpoints[height] == hash)
    }

    predicate Passes(b: Block, height: nat, alone: bool) {
      Permits(height, b.hash) && accepts(b, height, alone)
    }
  }

  /** The database with its durable history, and the in-memory views a batch reads
      and moves; indexed are the hashes in the block tree. */
  datatype State = State(
    db: Store, log: seq<Store>,
    bestBlock: Option<Block>, bestHeight: nat, bestHash: Hash,
    knownBlocks: map<Hash, nat>, indexed: set<Hash>) {

    /** The lookup used while processing: the tree first, then the database. */
    predicate Has(hash: Hash) {
      hash in indexed || hash in db.blocks
    }

    /** The state once new blocks, the first at height h, are committed as w. */
    function After(added: seq<Block>, h: nat, w: Store): State
      requires added != []
    {
      var last, top := added[|added| - 1], h + |added| - 1;
      var s := if top > bestHeight then this.(bestBlock := Some(last), bestHeight := top, bestHash := last.hash) else this;
      s.(db := w, log := log + [w], knownBlocks := knownBlocks + HeightsFrom(added, h), indexed := indexed + HashesOf(added))
    }
  }

  // ---------------------------------------------------------------- one batch

  /** The first transaction is a coinbase or a coinstake. */
  predicate StartsRight(b: Block) {
    b.txs != [] && (b.txs[0].IsCoinbase() || b.txs[0].IsCoinStake())
  }

  /** The blocks follow each other, none comes twice, and each starts right. */
  ghost predicate Sound(blocks: seq<Block>) {
    && InLine(blocks)
    && (forall i | 0 <= i < |blocks| :: StartsRight(blocks[i]))
  }

  /** What is left of a batch after the known blocks at its start. */
  function Unknown(v: State, blocks: seq<Block>): seq<Block> {
    if blocks != [] && v.Has(blocks[0].hash) then Unknown(v, blocks[1..]) else blocks
  }

  /** Height of the first block of a batch, from its stored parent. */
  function FirstHeight(s: Store, b: Block): Result<nat, ChainError> {
    if b.prev == ZERO_HASH then Ok(0)
    else if b.prev in s.hashToHeight then Ok(s.hashToHeight[b.prev] + 1)
    else Err(ParentNotFound)
  }

  /** The blocks with their heights, the first one at h. */
  function HeightsFrom(blocks: seq<Block>, h: nat): map<Hash, nat> {
    if blocks == [] then map[]
    else HeightsFrom(blocks[..|blocks| - 1], h)[blocks[|blocks| - 1].hash := h + |blocks| - 1]
  }

  /** The view after blocks at height h and up, or the error of the first that stops it. */
  function Filled(rules: Rules, s: Store, blocks: seq<Block>, h: nat, best: nat, alone: bool): Result<Store, ChainError> {
    if blocks == [] then Ok(s)
    else
      var b, height := blocks[|blocks| - 1], h + |blocks| - 1;
      match Filled(rules, s, blocks[..|blocks| - 1], h, best, alone)
      case Err(e) => Err(e)
      case Ok(v) =>
        if !rules.Permits(height, b.hash) then Err(CheckpointFailed)
        else if !rules.accepts(b, height, alone) then Err(InvalidBlock)
        else ConnectBlock(s.SpendRefs(), v, b, height, best)
  }

  /** New blocks, checked and put into one batch: the height of the first, and the view. */
  ghost function Prepared(rules: Rules, v: State, added: seq<Block>): Result<(nat, Store), ChainError>
    requires added != []
  {
    if (added[0].prev != ZERO_HASH && !v.Has(added[0].prev)) || !Sound(added) then Err(PreValidationFailed)
    else
      match FirstHeight(v.db, added[0])
      case Err(e) => Err(e)
      case Ok(h) =>
        match Filled(rules, v.db, added, h, v.bestHeight, |added| == 1)
        case Err(e) => Err(e)
        case Ok(w) => Ok((h, w))
  }

  ghost function Committed(rules: Rules, v: State, added: seq<Block>): Result<State, ChainError>
    requires added != []
  {
    match Prepared(rules, v, added)
    case Err(e) => Err(e)
    case Ok(p) => Ok(v.After(added, p.0, p.1))
  }

  /** A single block needs a known parent and must land above the tip. */
  function SingleCheck(v: State, b: Block): Result<(), ChainError> {
    if b.prev == ZERO_HASH then Ok(())
    else if !v.Has(b.prev) then Err(ParentNotFound)
    else if b.prev in v.db.hashToHeight && v.db.hashToHeight[b.prev] + 1 <= v.bestHeight then Err(HeightNotAdvancing)
    else Ok(())
  }

  /** What a batch of at most MAX_BATCH_SIZE blocks leads to. */
  ghost function Outcome(rules: Rules, orphans: set<Hash>, v: State, blocks: seq<Block>): Result<State, ChainError> {
    var added := Unknown(v, blocks);
    if blocks == [] then Ok(v)
    else if added == [] then Err(AllBlocksExist)
    else if |added| == 1 && added[0].hash in orphans then Ok(v)
    else if |added| == 1 && SingleCheck(v, added[0]).Err? then Err(SingleCheck(v, added[0]).error)
    else Committed(rules, v, added)
  }

  /** What the chunks of a longer batch from position i on lead to: an error stops
      the run and leaves what was committed before. */
  ghost function RunChunks(rules: Rules, orphans: set<Hash>, v: State, blocks: seq<Block>, i: nat): (State, Result<(), ChainError>)
    decreases |blocks| - i
  {
    if i >= |blocks| then (v, Ok(()))
    else
      var end := if i + MAX_BATCH_SIZE > |blocks| then |blocks| else i + MAX_BATCH_SIZE;
      match Outcome(rules, orphans, v, blocks[i..end])
      case Err(e) => (v, Err(e))
      case Ok(w) => RunChunks(rules, orphans, w, blocks, end)
  }

  // ---------------------------------------------------------------- reading the fold

  lemma FilledNone(rules: Rules, s: Store, blocks: seq<Block>, h: nat, best: nat, alone: bool)
    ensures Filled(rules, s, blocks[..0], h, best, alone) == Ok(s) && HeightsFrom(blocks[..0], h) == map[]
  {
  }

  /** One more block. */
  lemma FilledNext(rules: Rules, s: Store, blocks: seq<Block>, h: nat, best: nat, alone: bool, i: nat, v: Store)
    requires i < |blocks| && Filled(rules, s, blocks[..i], h, best, alone) == Ok(v)
    ensures Filled(rules, s, blocks[..i + 1], h, best, alone)
         == if !rules.Permits(h + i, blocks[i].hash) then Err(CheckpointFailed)
            else if !rules.accepts(blocks[i], h + i, alone) then Err(InvalidBlock)
            else ConnectBlock(s.SpendRefs(), v, blocks[i], h + i, best)
    ensures HeightsFrom(blocks[..i + 1], h) == HeightsFrom(blocks[..i], h)[blocks[i].hash := h + i]
  {
    hide ConnectBlock;
    assert blocks[..i + 1][..i] == blocks[..i];
  }

  lemma {:induction false} FilledStops(rules: Rules, s: Store, blocks: seq<Block>, h: nat, best: nat, alone: bool, n: nat)
    requires n <= |blocks| && Filled(rules, s, blocks[..n], h, best, alone).Err?
    ensures Filled(rules, s, blocks, h, best, alone) == Filled(rules, s, blocks[..n], h, best, alone)
  {
    hide ConnectBlock;
    if n == |blocks| {
      assert blocks[..n] == blocks;
    } else {
      assert blocks[..|blocks| - 1][..n] == blocks[..n];
      FilledStops(rules, s, blocks[..|blocks| - 1], h, best, alone, n);
    }
  }

  lemma UnknownNext(v: State, blocks: seq<Block>, n: nat)
    requires n < |blocks| && v.Has(blocks[n].hash)
    ensures Unknown(v, blocks[n..]) == Unknown(v, blocks[n + 1..])
  {
    assert blocks[n..][1..] == blocks[n + 1..];
  }

  /** Where the tree lists stored blocks only, a block is known if it is stored. */
  lemma {:induction false} UnknownIsNew(v: State, blocks: seq<Block>)
    requires v.indexed <= v.db.blocks.Keys
    ensures Unknown(v, blocks) == NewPart(v.db, blocks)
  {
    if blocks != [] { UnknownIsNew(v, blocks[1..]); }
  }

  // ---------------------------------------------------------------- errors

  /** Applying transactions never reports that all blocks exist. */
  lemma {:induction false} ApplyTxsErrors(refs: Refs, a: Applied, txs: seq<Transaction>, h: nat)
    ensures ApplyTxs(refs, a, txs, h).Err? ==> ApplyTxs(refs, a, txs, h).error != AllBlocksExist
  {
    if txs != [] {
      var front, last := txs[..|txs| - 1], txs[|txs| - 1];
      ApplyTxsErrors(refs, a, front, h);
      if ApplyTxs(refs, a, front, h).Ok? {
        SpendInputsErrors(refs, ApplyTxs(refs, a, front, h).value, last.Spends(), h, last.txid);
      }
    }
  }

  lemma {:induction false} SpendInputsErrors(refs: Refs, a: Applied, inputs: seq<Outpoint>, h: nat, txid: Hash)
    ensures SpendInputs(refs, a, inputs, h, txid).Err? ==> SpendInputs(refs, a, inputs, h, txid).error != AllBlocksExist
  {
    if inputs != [] { SpendInputsErrors(refs, a, inputs[..|inputs| - 1], h, txid); }
  }

  lemma {:induction false} FilledErrors(rules: Rules, s: Store, blocks: seq<Block>, h: nat, best: nat, alone: bool)
    ensures var r := Filled(rules, s, blocks, h, best, alone); r.Err? ==> r.error != AllBlocksExist
  {
    hide ApplyTxs, StoreTxs, IndexTxs;
    if blocks != [] {
      var front, b := blocks[..|blocks| - 1], blocks[|blocks| - 1];
      FilledErrors(rules, s, front, h, best, alone);
      var f := Filled(rules, s, front, h, best, alone);
      if f.Ok? { ApplyTxsErrors(s.SpendRefs(), StartApply(f.value.utxos), b.txs, h + |front|); }
    }
  }

  /** The error for known blocks means that every block is known. */
  lemma OutcomeKnown(rules: Rules, orphans: set<Hash>, v: State, blocks: seq<Block>)
    ensures Outcome(rules, orphans, v, blocks) == Err(AllBlocksExist) <==> blocks != [] && Unknown(v, blocks) == []
  {
    hide Filled, Unknown, Sound;
    var added := Unknown(v, blocks);
    if added != [] && FirstHeight(v.db, added[0]).Ok? {
      FilledErrors(rules, v.db, added, FirstHeight(v.db, added[0]).value, v.bestHeight, |added| == 1);
    }
  }

  // ---------------------------------------------------------------- on the tip

  lemma {:induction false} AppendAllTip(refs: Refs, s: Store, blocks: seq<Block>)
    requires s.tip.Some? && AppendAll(refs, s, blocks).Ok?
    ensures var v := AppendAll(refs, s, blocks).value; v.tip.Some? && Height(v) == Height(s) + |blocks|
  {
    if blocks != [] {
      var front := blocks[..|blocks| - 1];
      AppendAllTip(refs, s, front);
      AppendFields(refs, AppendAll(refs, s, front).value, blocks[|blocks| - 1]);
      hide ConnectBlock;
    }
  }

  lemma AppendIsConnect(refs: Refs, v: Store, b: Block, best: nat)
    requires v.tip.Some? && best <= Height(v)
    ensures ConnectBlock(refs, v, b, Height(v) + 1, best) == Append(refs, v, b)
  {
    hide ApplyTxs, StoreTxs, IndexTxs;
  }

  /** A batch that starts right above the tip is filled if every block passes and the
      batch of them can be connected, and then has its view. */
  lemma {:induction false} FilledOnTip(rules: Rules, s: Store, blocks: seq<Block>, alone: bool)
    requires s.tip.Some?
    ensures var f, all := Filled(rules, s, blocks, Height(s) + 1, Height(s), alone), AppendAll(s.SpendRefs(), s, blocks);
      && (f.Ok? <==> all.Ok? && forall i | 0 <= i < |blocks| :: rules.Passes(blocks[i], Height(s) + 1 + i, alone))
      && (f.Ok? ==> f == all)
  {
    hide ConnectBlock;
    if blocks != [] {
      var front, b, n := blocks[..|blocks| - 1], blocks[|blocks| - 1], |blocks| - 1;
      FilledOnTip(rules, s, front, alone);
      assert forall i | 0 <= i < n :: front[i] == blocks[i];
      var all := AppendAll(s.SpendRefs(), s, front);
      if all.Ok? {
        AppendAllTip(s.SpendRefs(), s, front);
        AppendIsConnect(s.SpendRefs(), all.value, b, Height(s));
      }
    }
  }

  // ---------------------------------------------------------------- anywhere

  lemma {:induction false} HeightsFromIs(blocks: seq<Block>, h: nat)
    requires DistinctHashes(blocks)
    ensures HeightsFrom(blocks, h).Keys == HashesOf(blocks)
    ensures forall i | 0 <= i < |blocks| :: blocks[i].hash in HashesOf(blocks) && HeightsFrom(blocks, h)[blocks[i].hash] == h + i
  {
    if blocks != [] {
      var front := blocks[..|blocks| - 1];
      HeightsFromIs(front, h);
      assert forall i | 0 <= i < |front| :: front[i] == blocks[i];
    }
  }

  /** What the indexes list after a batch that is filled, wherever it starts. */
  ghost predicate Overwritten(s: Store, w: Store, blocks: seq<Block>, h: nat, best: nat) {
    && w.hashToHeight == s.hashToHeight + HeightsFrom(blocks, h)
    && w.blocks.Keys == s.blocks.Keys + HashesOf(blocks)
    && (forall k: nat :: k in w.heightToHash <==> k in s.heightToHash || h <= k < h + |blocks|)
    && (forall k | k in w.heightToHash ::
          w.heightToHash[k] == if h <= k < h + |blocks| then blocks[k - h].hash else s.heightToHash[k])
    && s.utxos.Keys <= w.utxos.Keys
    && w.tip == (if blocks != [] && h + |blocks| - 1 > best then Some(Tip(h + |blocks| - 1, blocks[|blocks| - 1].hash)) else s.tip)
  }

  lemma {:induction false} ApplyKeepsOutputs(refs: Refs, a: Applied, txs: seq<Transaction>, h: nat)
    requires ApplyTxs(refs, a, txs, h).Ok?
    ensures a.utxos.Keys <= ApplyTxs(refs, a, txs, h).value.utxos.Keys
  {
    if txs != [] {
      var front, last := txs[..|txs| - 1], txs[|txs| - 1];
      ApplyKeepsOutputs(refs, a, front, h);
      SpendInputsSpec(refs, ApplyTxs(refs, a, front, h).value, last.Spends(), h, last.txid);
    }
  }

  lemma ConnectFields(refs: Refs, v: Store, b: Block, h: nat, best: nat)
    requires ConnectBlock(refs, v, b, h, best).Ok?
    ensures var w := ConnectBlock(refs, v, b, h, best).value;
      && w.hashToHeight == v.hashToHeight[b.hash := h] && w.heightToHash == v.heightToHash[h := b.hash]
      && w.blocks.Keys == v.blocks.Keys + {b.hash} && v.utxos.Keys <= w.utxos.Keys
      && w.tip == (if h > best then Some(Tip(h, b.hash)) else v.tip)
  {
    ApplyKeepsOutputs(refs, StartApply(v.utxos), b.txs, h);
    hide ApplyTxs, StoreTxs, IndexTxs;
  }

  lemma HeightsSnoc(front: seq<Block>, b: Block, h: nat)
    ensures HeightsFrom(front + [b], h) == HeightsFrom(front, h)[b.hash := h + |front|]
    ensures HashesOf(front + [b]) == HashesOf(front) + {b.hash}
  {
    assert (front + [b])[..|front|] == front;
  }

  lemma JoinUpdate<K, V>(m: map<K, V>, n: map<K, V>, k: K, v: V)
    ensures (m + n)[k := v] == m + n[k := v]
  {
  }

  lemma OverwrittenStep(s: Store, v: Store, w: Store, front: seq<Block>, b: Block, h: nat, best: nat)
    requires Overwritten(s, v, front, h, best)
    requires w.hashToHeight == v.hashToHeight[b.hash := h + |front|] && w.heightToHash == v.heightToHash[h + |front| := b.hash]
    requires w.blocks.Keys == v.blocks.Keys + {b.hash} && v.utxos.Keys <= w.utxos.Keys
    requires w.tip == (if h + |front| > best then Some(Tip(h + |front|, b.hash)) else v.tip)
    ensures Overwritten(s, w, front + [b], h, best)
  {
    HeightsSnoc(front, b, h);
    JoinUpdate(s.hashToHeight, HeightsFrom(front, h), b.hash, h + |front|);
    hide HeightsFrom, HashesOf;
    var all := front + [b];
    assert forall i | 0 <= i < |front| :: all[i] == front[i];
    assert w.hashToHeight == s.hashToHeight + HeightsFrom(all, h);
  }

  lemma {:induction false} FilledOverwrites(rules: Rules, s: Store, blocks: seq<Block>, h: nat, best: nat, alone: bool)
    requires Filled(rules, s, blocks, h, best, alone).Ok?
    ensures Overwritten(s, Filled(rules, s, blocks, h, best, alone).value, blocks, h, best)
  {
    hide ConnectBlock, Overwritten;
    if blocks == [] {
      NothingOverwritten(s, h, best);
    } else {
      var front, b := blocks[..|blocks| - 1], blocks[|blocks| - 1];
      assert front + [b] == blocks;
      FilledOverwrites(rules, s, front, h, best, alone);
      var v, w := Filled(rules, s, front, h, best, alone).value, Filled(rules, s, blocks, h, best, alone).value;
      ConnectFields(s.SpendRefs(), v, b, h + |front|, best);
      OverwrittenStep(s, v, w, front, b, h, best);
    }
  }

  lemma NothingOverwritten(s: Store, h: nat, best: nat)
    ensures Overwritten(s, s, [], h, best)
  {
    assert s.hashToHeight + map[] == s.hashToHeight;
  }

  // ---------------------------------------------------------------- below the tip

  /** In a batch in order whose first block is new, every block is new. */
  lemma {:induction false} AllNew(s: Store, blocks: seq<Block>)
    requires OneLine(s) && Genuine(s, blocks) && blocks != [] && blocks[0].hash !in s.blocks
    requires forall i | 0 < i < |blocks| :: blocks[i].prev == blocks[i - 1].hash
    ensures forall i | 0 <= i < |blocks| :: blocks[i].hash !in s.blocks && blocks[i].hash != ZERO_HASH
  {
    GenuineParts(s, blocks);
    hide Genuine, OneLine;
    if |blocks| > 1 {
      var front, b := blocks[..|blocks| - 1], blocks[|blocks| - 1];
      assert forall i | 0 <= i < |front| :: front[i] == blocks[i];
      AllNew(s, front);
      assert b.prev == front[|front| - 1].hash;
      if b.hash in s.blocks { ParentStored(s, b.hash); }
    }
  }

  lemma GenuineParts(s: Store, blocks: seq<Block>)
    requires Genuine(s, blocks) && blocks != []
    ensures var b := blocks[|blocks| - 1];
      Genuine(s, blocks[..|blocks| - 1]) && b.hash != ZERO_HASH && (b.hash in s.blocks ==> s.blocks[b.hash].prev == b.prev)
  {
    hide TxidSet, TxidsOf;
  }

  /** A block other than the tip has a block above it in the line. */
  lemma BelowTip(s: Store, b: Block, h: nat)
    requires OneLine(s) && FirstHeight(s, b) == Ok(h) && b.prev != s.tip.value.hash
    ensures h <= s.tip.value.height
  {
  }

  lemma StoredAt(s: Store, k: nat)
    requires OneLine(s) && k <= s.tip.value.height
    ensures k in s.heightToHash && s.heightToHash[k] in s.hashToHeight && s.hashToHeight[s.heightToHash[k]] == k
    ensures s.heightToHash[k] in s.blocks
  {
  }

  /** A new batch that starts anywhere but on the tip takes over the heights of stored
      blocks without disconnecting them: these stay stored and indexed at the same
      heights, their outputs stay too, and the stored blocks are no single line any
      more.  The tip moves if the last block lands above the best height. */
  lemma BranchDisplaces(rules: Rules, s: Store, blocks: seq<Block>, h: nat, best: nat, alone: bool)
    requires OneLine(s) && Genuine(s, blocks) && InLine(blocks) && blocks != [] && blocks[0].hash !in s.blocks
    requires FirstHeight(s, blocks[0]) == Ok(h) && blocks[0].prev != s.tip.value.hash
    requires Filled(rules, s, blocks, h, best, alone).Ok?
    ensures var w := Filled(rules, s, blocks, h, best, alone).value;
      && h <= s.tip.value.height && !OneLine(w)
      && (forall k: nat | h <= k < h + |blocks| && k <= s.tip.value.height ::
            && k in s.heightToHash && k in w.heightToHash && w.heightToHash[k] == blocks[k - h].hash
            && var x := s.heightToHash[k];
               x != w.heightToHash[k] && x in w.blocks && x in w.hashToHeight && w.hashToHeight[x] == k)
      && s.utxos.Keys <= w.utxos.Keys
      && w.tip == (if h + |blocks| - 1 > best then Some(Tip(h + |blocks| - 1, blocks[|blocks| - 1].hash)) else s.tip)
  {
    hide *;
    var w := Filled(rules, s, blocks, h, best, alone).value;
    SingleLineTip(s);
    InLineParts(blocks);
    AllNew(s, blocks);
    BelowTip(s, blocks[0], h);
    HeightsFromIs(blocks, h);
    FilledOverwrites(rules, s, blocks, h, best, alone);
    OverwrittenParts(s, w, blocks, h, best);
    forall k: nat | h <= k < h + |blocks| && k <= s.tip.value.height
      ensures k in s.heightToHash && k in w.heightToHash && w.heightToHash[k] == blocks[k - h].hash
      ensures var x := s.heightToHash[k];
        x != w.heightToHash[k] && x in w.blocks && x in w.hashToHeight && w.hashToHeight[x] == k
    {
      StoredAt(s, k);
      StoredNotIn(s, blocks, s.heightToHash[k]);
      assert blocks[k - h].hash !in s.blocks;
    }
    TwoAtHeight(w, h, s.heightToHash[h]);
  }

  lemma SingleLineTip(s: Store)
    requires OneLine(s)
    ensures s.tip.Some?
  {
  }

  lemma InLineParts(blocks: seq<Block>)
    requires InLine(blocks)
    ensures DistinctHashes(blocks) && forall i | 0 < i < |blocks| :: blocks[i].prev == blocks[i - 1].hash
  {
    hide DistinctHashes;
  }

  lemma OverwrittenParts(s: Store, w: Store, blocks: seq<Block>, h: nat, best: nat)
    requires Overwritten(s, w, blocks, h, best)
    ensures w.hashToHeight == s.hashToHeight + HeightsFrom(blocks, h) && w.blocks.Keys == s.blocks.Keys + HashesOf(blocks)
    ensures forall k: nat :: k in w.heightToHash <==> k in s.heightToHash || h <= k < h + |blocks|
    ensures forall k: nat | h <= k < h + |blocks| :: w.heightToHash[k] == blocks[k - h].hash
    ensures s.utxos.Keys <= w.utxos.Keys
    ensures w.tip == (if blocks != [] && h + |blocks| - 1 > best then Some(Tip(h + |blocks| - 1, blocks[|blocks| - 1].hash)) else s.tip)
  {
    hide HeightsFrom, HashesOf;
  }

  lemma {:induction false} StoredNotIn(s: Store, blocks: seq<Block>, x: Hash)
    requires x in s.blocks && forall i | 0 <= i < |blocks| :: blocks[i].hash !in s.blocks
    ensures x !in HashesOf(blocks)
  {
    if blocks != [] {
      var front := blocks[..|blocks| - 1];
      assert forall i | 0 <= i < |front| :: front[i] == blocks[i];
      StoredNotIn(s, front, x);
    }
  }

  lemma TwoAtHeight(w: Store, k: nat, x: Hash)
    requires k in w.heightToHash && x != w.heightToHash[k] && x in w.hashToHeight && w.hashToHeight[x] == k
    ensures !OneLine(w)
  {
  }

  /** A new batch keeps the single line exactly if it starts on the tip. */
  lemma LineKeptIff(rules: Rules, s: Store, blocks: seq<Block>, h: nat, best: nat, alone: bool)
    requires WellFormed(s) && best == Height(s)
    requires Genuine(s, blocks) && InLine(blocks) && blocks != [] && blocks[0].hash !in s.blocks
    requires FirstHeight(s, blocks[0]) == Ok(h) && Filled(rules, s, blocks, h, best, alone).Ok?
    ensures s.tip.Some? && (OneLine(Filled(rules, s, blocks, h, best, alone).value) <==> blocks[0].prev == s.tip.value.hash)
  {
    hide *;
    WellFormedTip(s);
    if blocks[0].prev == s.tip.value.hash {
      AboveTip(s, blocks[0], h);
      OnTipStaysLine(rules, s, blocks, alone);
    } else {
      LineOfWellFormed(s);
      BranchBreaksLine(rules, s, blocks, h, best, alone);
    }
  }

  lemma BranchBreaksLine(rules: Rules, s: Store, blocks: seq<Block>, h: nat, best: nat, alone: bool)
    requires OneLine(s) && Genuine(s, blocks) && InLine(blocks) && blocks != [] && blocks[0].hash !in s.blocks
    requires FirstHeight(s, blocks[0]) == Ok(h) && blocks[0].prev != s.tip.value.hash
    requires Filled(rules, s, blocks, h, best, alone).Ok?
    ensures !OneLine(Filled(rules, s, blocks, h, best, alone).value)
  {
    BranchDisplaces(rules, s, blocks, h, best, alone);
    hide *;
  }

  lemma AboveTip(s: Store, b: Block, h: nat)
    requires WellFormed(s) && s.tip.Some? && b.prev == s.tip.value.hash && FirstHeight(s, b) == Ok(h)
    ensures h == Height(s) + 1
  {
    TipIndexed(s);
    hide WellFormed;
  }

  lemma OnTipStaysLine(rules: Rules, s: Store, blocks: seq<Block>, alone: bool)
    requires WellFormed(s) && s.tip.Some? && Genuine(s, blocks) && InLine(blocks)
    requires blocks != [] && blocks[0].hash !in s.blocks && blocks[0].prev == s.tip.value.hash
    requires Filled(rules, s, blocks, Height(s) + 1, Height(s), alone).Ok?
    ensures OneLine(Filled(rules, s, blocks, Height(s) + 1, Height(s), alone).value)
  {
    hide WellFormed, OneLine, Filled, Genuine, HashesOf, DistinctHashes, AppendAll, LinkedFrom;
    FilledOnTip(rules, s, blocks, alone);
    LinkFlat(s.tip.value.hash, blocks);
    GenuineExtends(s.SpendRefs(), s, blocks);
    LineOfWellFormed(AppendAll(s.SpendRefs(), s, blocks).value);
  }

  lemma LineOfWellFormed(s: Store)
    requires WellFormed(s)
    ensures OneLine(s)
  {
  }

  lemma TipIndexed(s: Store)
    requires WellFormed(s)
    ensures s.tip.Some? && s.tip.value.hash in s.hashToHeight && s.hashToHeight[s.tip.value.hash] == Height(s)
    ensures Height(s) in s.heightToHash && s.heightToHash[Height(s)] == s.tip.value.hash
    ensures s.tip.value.hash != ZERO_HASH
  {
  }

  lemma {:induction false} LinkFlat(h: Hash, blocks: seq<Block>)
    requires blocks != [] && blocks[0].prev == h
    requires forall i | 0 < i < |blocks| :: blocks[i].prev == blocks[i - 1].hash
    ensures LinkedFrom(h, blocks)
  {
    if |blocks| > 1 {
      var front := blocks[..|blocks| - 1];
      assert forall i | 0 <= i < |front| :: front[i] == blocks[i];
      LinkFlat(h, front);
      assert blocks[|blocks| - 1].prev == blocks[|blocks| - 1 - 1].hash;
    }
  }

  // ---------------------------------------------------------------- committed batches

  lemma CommittedParts(rules: Rules, v: State, added: seq<Block>)
    requires added != []
    ensures var r := Prepared(rules, v, added);
      if r.Err? then Committed(rules, v, added) == Err(r.error)
      else
        && Committed(rules, v, added) == Ok(v.After(added, r.value.0, r.value.1)) && InLine(added)
        && FirstHeight(v.db, added[0]) == Ok(r.value.0)
        && r.value.1.hashToHeight == v.db.hashToHeight + HeightsFrom(added, r.value.0)
  {
    hide Filled, HeightsFrom, InLine;
    if Prepared(rules, v, added).Ok? {
      FilledOverwrites(rules, v.db, added, Prepared(rules, v, added).value.0, v.bestHeight, |added| == 1);
    }
  }

  lemma SoundParts(blocks: seq<Block>)
    requires Sound(blocks)
    ensures InLine(blocks)
  {
    hide InLine;
  }

  /** Blocks in order behind a known parent are committed if they can be filled in. */
  lemma CommittedIs(rules: Rules, v: State, added: seq<Block>, h: nat)
    requires added != [] && Sound(added) && v.Has(added[0].prev) && FirstHeight(v.db, added[0]) == Ok(h)
    ensures var w := Filled(rules, v.db, added, h, v.bestHeight, |added| == 1);
      Committed(rules, v, added) == if w.Err? then Err(w.error) else Ok(v.After(added, h, w.value))
  {
    hide Sound, Filled, FirstHeight, State.After;
  }

  lemma {:induction false} FilledPasses(rules: Rules, s: Store, blocks: seq<Block>, h: nat, best: nat, alone: bool)
    requires Filled(rules, s, blocks, h, best, alone).Ok?
    ensures forall i | 0 <= i < |blocks| :: rules.Passes(blocks[i], h + i, alone)
  {
    hide ConnectBlock;
    if blocks != [] {
      var front := blocks[..|blocks| - 1];
      FilledPasses(rules, s, front, h, best, alone);
      assert forall i | 0 <= i < |front| :: front[i] == blocks[i];
    }
  }

  /** What it takes, where the stored blocks are a single line with its first block
      pinned, for new blocks to be committed: they are in order, hang on a stored
      block, and can be filled in.  On any block but the tip they break the line. */
  lemma CommittedInLine(rules: Rules, v: State, added: seq<Block>)
    requires WellFormed(v.db) && v.db.tip == Some(Tip(v.bestHeight, v.bestHash)) && v.indexed <= v.db.blocks.Keys
    requires 0 in rules.checkpoints && rules.checkpoints[0] in v.db.blocks
    requires added != [] && added[0].hash !in v.db.blocks
    requires Sound(added) && added[0].prev in v.db.hashToHeight ==> Genuine(v.db, added)
    ensures var r, p := Committed(rules, v, added), added[0].prev;
      && (r.Ok? <==> (Sound(added) && p in v.db.hashToHeight
                      && Filled(rules, v.db, added, v.db.hashToHeight[p] + 1, v.bestHeight, |added| == 1).Ok?))
      && (r.Ok? ==> p != ZERO_HASH && Ok(r.value.db) == Filled(rules, v.db, added, v.db.hashToHeight[p] + 1, v.bestHeight, |added| == 1))
      && (r.Ok? && p != v.bestHash ==> !OneLine(r.value.db))
  {
    hide *;
    var p, r := added[0].prev, Committed(rules, v, added);
    NoZeroStored(v.db);
    CommittedCases(rules, v, added);
    if p == ZERO_HASH {
      NotAtZero(rules, v, added);
    }
    if r.Ok? && p != v.bestHash {
      LineOfWellFormed(v.db);
      SoundParts(added);
      BranchDisplaces(rules, v.db, added, v.db.hashToHeight[p] + 1, v.bestHeight, |added| == 1);
    }
  }

  /** A new block does not pass at height 0 if another one is pinned there. */
  lemma NotAtZero(rules: Rules, v: State, added: seq<Block>)
    requires 0 in rules.checkpoints && rules.checkpoints[0] in v.db.blocks
    requires added != [] && added[0].hash !in v.db.blocks
    ensures Filled(rules, v.db, added, 0, v.bestHeight, |added| == 1).Err?
  {
    hide Filled;
    if Filled(rules, v.db, added, 0, v.bestHeight, |added| == 1).Ok? {
      FilledPasses(rules, v.db, added, 0, v.bestHeight, |added| == 1);
    }
  }

  /** Where new blocks lead, by the parent of the first. */
  lemma CommittedCases(rules: Rules, v: State, added: seq<Block>)
    requires added != []
    ensures var r, p := Committed(rules, v, added), added[0].prev;
      && (r.Ok? ==> Sound(added) && FirstHeight(v.db, added[0]).Ok?)
      && (p == ZERO_HASH ==> FirstHeight(v.db, added[0]) == Ok(0))
      && (p != ZERO_HASH && p !in v.db.hashToHeight ==> r.Err?)
      && (p != ZERO_HASH && p in v.db.hashToHeight ==> FirstHeight(v.db, added[0]) == Ok(v.db.hashToHeight[p] + 1))
      && (FirstHeight(v.db, added[0]).Ok? ==>
            var w := Filled(rules, v.db, added, FirstHeight(v.db, added[0]).value, v.bestHeight, |added| == 1);
            && (r.Ok? ==> w == Ok(r.value.db))
            && (Sound(added) && w.Ok? && (p != ZERO_HASH ==> p in v.db.blocks) ==> r.Ok?))
  {
    hide Sound, Filled;
  }

  lemma NoZeroStored(s: Store)
    requires WellFormed(s)
    ensures ZERO_HASH !in s.hashToHeight && s.blocks.Keys == s.hashToHeight.Keys
  {
  }

  lemma AfterIs(v: State, added: seq<Block>, h: nat, w: Store)
    requires added != []
    ensures var r, last, top := v.After(added, h, w), added[|added| - 1], h + |added| - 1;
      && r.db == w && r.log == v.log + [w]
      && r.knownBlocks == v.knownBlocks + HeightsFrom(added, h) && r.indexed == v.indexed + HashesOf(added)
      && r.bestHeight == (if top > v.bestHeight then top else v.bestHeight)
      && r.bestBlock == (if top > v.bestHeight then Some(last) else v.bestBlock)
      && r.bestHash == (if top > v.bestHeight then last.hash else v.bestHash)
  {
  }

  lemma HeightsOf(blocks: seq<Block>, h: nat)
    requires InLine(blocks)
    ensures forall i | 0 <= i < |blocks| :: blocks[i].hash in HeightsFrom(blocks, h) && HeightsFrom(blocks, h)[blocks[i].hash] == h + i
  {
    HeightsFromIs(blocks, h);
  }

  lemma OutcomeIs(rules: Rules, orphans: set<Hash>, v: State, blocks: seq<Block>)
    ensures var added, r := Unknown(v, blocks), Outcome(rules, orphans, v, blocks);
      && (blocks == [] ==> r == Ok(v))
      && (blocks != [] && added == [] ==> r == Err(AllBlocksExist))
      && (blocks != [] && |added| == 1 && added[0].hash in orphans ==> r == Ok(v))
      && (blocks != [] && |added| == 1 && added[0].hash !in orphans && SingleCheck(v, added[0]).Err? ==> r == Err(SingleCheck(v, added[0]).error))
      && (blocks != [] && (|added| > 1 || (|added| == 1 && added[0].hash !in orphans && SingleCheck(v, added[0]).Ok?)) ==>
            r == Committed(rules, v, added))
  {
    hide Unknown, Committed;
  }

  lemma RunStep(rules: Rules, orphans: set<Hash>, v: State, blocks: seq<Block>, i: nat, end: nat)
    requires i < |blocks| && end == if i + MAX_BATCH_SIZE > |blocks| then |blocks| else i + MAX_BATCH_SIZE
    ensures var w := Outcome(rules, orphans, v, blocks[i..end]);
      RunChunks(rules, orphans, v, blocks, i) == if w.Err? then (v, Err(w.error)) else RunChunks(rules, orphans, w.value, blocks, end)
  {
    hide Outcome;
  }

  lemma RunEnd(rules: Rules, orphans: set<Hash>, v: State, blocks: seq<Block>)
    ensures RunChunks(rules, orphans, v, blocks, |blocks|) == (v, Ok(()))
  {
  }

  // ---------------------------------------------------------------- long batches

  /** Nothing is left of a batch exactly if every block of it is known. */
  lemma {:induction false} UnknownNone(v: State, blocks: seq<Block>)
    ensures Unknown(v, blocks) == [] <==> forall i | 0 <= i < |blocks| :: v.Has(blocks[i].hash)
  {
    hide State.Has;
    if blocks != [] {
      UnknownNone(v, blocks[1..]);
      assert forall i | 0 < i < |blocks| :: blocks[i] == blocks[1..][i - 1];
    }
  }

  /** A long batch is refused as known, with nothing done, as soon as its first chunk is
      known, whatever follows. */
  lemma KnownStart(rules: Rules, orphans: set<Hash>, v: State, blocks: seq<Block>)
    requires |blocks| > MAX_BATCH_SIZE && forall i | 0 <= i < MAX_BATCH_SIZE :: v.Has(blocks[i].hash)
    ensures RunChunks(rules, orphans, v, blocks, 0) == (v, Err(AllBlocksExist))
  {
    hide Outcome, Unknown, State.Has;
    var first := blocks[0..MAX_BATCH_SIZE];
    assert forall i | 0 <= i < |first| :: first[i] == blocks[i];
    UnknownNone(v, first);
    OutcomeKnown(rules, orphans, v, first);
  }
}
