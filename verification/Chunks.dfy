/** Long batches: what a batch that is linked and new says about the chunks it is
    cut into, and what committing those chunks one after another leads to. */
module Chunks {
  import opened Wrappers
  import opened ChainTypes
  import opened Storage
  import opened Connect
  import opened Undo
  import opened Replay
  import opened Chains
  import opened Batches
  import opened Lines

  /** What is left of a batch after its stored prefix is skipped. */
  function NewPart(s: Store, blocks: seq<Block>): seq<Block> {
    if blocks != [] && blocks[0].hash in s.blocks then NewPart(s, blocks[1..]) else blocks
  }

  /** A cut through the batch cuts its new part, or leaves nothing of it. */
  lemma {:induction false} NewPartCut(s: Store, blocks: seq<Block>, m: nat)
    requires m <= |blocks|
    ensures var added := NewPart(s, blocks);
      && |added| <= |blocks| && added == blocks[|blocks| - |added|..]
      && var skipped := |blocks| - |added|;
         NewPart(s, blocks[..m]) == if m <= skipped then [] else added[..m - skipped]
  {
    if blocks != [] && blocks[0].hash in s.blocks && m > 0 {
      NewPartCut(s, blocks[1..], m - 1);
      assert blocks[..m][1..] == blocks[1..][..m - 1];
    } else if blocks != [] && blocks[0].hash in s.blocks {
      NewPartCut(s, blocks[1..], 0);
    }
  }

  lemma NewPartAll(s: Store, blocks: seq<Block>)
    requires forall i | 0 <= i < |blocks| :: blocks[i].hash !in s.blocks
    ensures NewPart(s, blocks) == blocks
  {
  }

  // ---------------------------------------------------------------- prefixes and slices

  lemma {:induction false} Prefixes(h: Hash, s: Store, blocks: seq<Block>, n: nat)
    requires n <= |blocks|
    ensures LinkedFrom(h, blocks) ==> LinkedFrom(h, blocks[..n])
    ensures Genuine(s, blocks) ==> Genuine(s, blocks[..n])
    ensures DistinctHashes(blocks) ==> DistinctHashes(blocks[..n])
    ensures NoCrossSpend(blocks) ==> NoCrossSpend(blocks[..n])
    ensures HashesOf(blocks[..n]) <= HashesOf(blocks) && TxidsOf(blocks[..n]) <= TxidsOf(blocks)
  {
    if n == |blocks| {
      assert blocks[..n] == blocks;
    } else {
      Prefixes(h, s, blocks[..|blocks| - 1], n);
      assert blocks[..|blocks| - 1][..n] == blocks[..n];
    }
  }

  lemma Snoc(front: seq<Block>, b: Block)
    ensures HashesOf(front + [b]) == HashesOf(front) + {b.hash}
    ensures TxidsOf(front + [b]) == TxidsOf(front) + TxidSet(b.txs)
    ensures SpentBy(front + [b]) == SpentBy(front) + InputsOf(b.txs)
    ensures DistinctHashes(front + [b]) <==> DistinctHashes(front) && b.hash !in HashesOf(front)
    ensures NoCrossSpend(front + [b]) <==> NoCrossSpend(front) && InputsOf(b.txs) !! SpentBy(front)
  {
    hide InputsOf, TxidSet;
    assert (front + [b])[..|front|] == front;
  }

  lemma EmptyBatch(s: Store)
    ensures HashesOf([]) == {} && TxidsOf([]) == {} && SpentBy([]) == {}
    ensures DistinctHashes([]) && NoCrossSpend([]) && Genuine(s, [])
  {
  }

  lemma {:induction false} Concat(a: seq<Block>, b: seq<Block>)
    ensures HashesOf(a + b) == HashesOf(a) + HashesOf(b)
    ensures TxidsOf(a + b) == TxidsOf(a) + TxidsOf(b)
    ensures SpentBy(a + b) == SpentBy(a) + SpentBy(b)
  {
    hide InputsOf, TxidSet, HashesOf, TxidsOf, SpentBy, DistinctHashes, NoCrossSpend;
    if b == [] {
      assert a + b == a;
      EmptyBatch(EMPTY_STORE);
    } else {
      var front, last := b[..|b| - 1], b[|b| - 1];
      assert b == front + [last];
      Concat(a, front);
      Snoc(a + front, last);
      Snoc(front, last);
      assert a + b == a + front + [last];
    }
  }

  /** The rest of a batch without repeated hashes or cross spends has none either. */
  lemma {:induction false} Suffixes(a: seq<Block>, b: seq<Block>)
    ensures DistinctHashes(a + b) ==> DistinctHashes(b)
    ensures NoCrossSpend(a + b) ==> NoCrossSpend(b)
  {
    hide InputsOf, TxidSet, HashesOf, TxidsOf, SpentBy, DistinctHashes, NoCrossSpend;
    if b == [] {
      EmptyBatch(EMPTY_STORE);
    } else {
      var front, last := b[..|b| - 1], b[|b| - 1];
      assert b == front + [last];
      Suffixes(a, front);
      Concat(a, front);
      Snoc(a + front, last);
      Snoc(front, last);
      assert a + b == a + front + [last];
    }
  }

  // ---------------------------------------------------------------- the next chunk

  /** A new batch on the tip of s: linked, with hashes and transactions of its own. */
  ghost predicate NewBatch(s: Store, blocks: seq<Block>) {
    && WellFormed(s) && s.tip.Some?
    && Genuine(s, blocks) && DistinctHashes(blocks) && LinkedFrom(s.tip.value.hash, blocks)
    && (blocks != [] ==> blocks[0].hash !in s.blocks)
  }

  /** v lists the blocks and transactions of s and those of a batch. */
  ghost predicate Added(s: Store, v: Store, blocks: seq<Block>) {
    && v.blocks.Keys == s.blocks.Keys + HashesOf(blocks)
    && v.txs.Keys == s.txs.Keys + TxidsOf(blocks)
  }

  lemma FrontNew(s: Store, blocks: seq<Block>)
    requires NewBatch(s, blocks) && blocks != []
    ensures NewBatch(s, blocks[..|blocks| - 1])
  {
    hide WellFormed, TxidSet;
    assert |blocks| > 1 ==> blocks[..|blocks| - 1][0] == blocks[0];
  }

  /** The last block of a new batch stays new whatever part of the rest is connected. */
  lemma LastStaysNew(s: Store, v: Store, front: seq<Block>, b: Block, n: nat)
    requires NewBatch(s, front + [b]) && n <= |front| && Added(s, v, front[..n])
    requires Genuine(v, front[n..])
    ensures b.hash !in v.blocks && Genuine(v, front[n..] + [b])
  {
    hide *;
    assert front[..n] + front[n..] == front;
    LastApart(s, v, front[..n], front[n..], b);
  }

  lemma LastApart(s: Store, v: Store, done: seq<Block>, rest: seq<Block>, b: Block)
    requires NewBatch(s, done + rest + [b]) && Added(s, v, done) && Genuine(v, rest)
    ensures b.hash !in v.blocks && Genuine(v, rest + [b])
  {
    var front := done + rest;
    LastNew(s, front + [b]);
    NewBatchParts(s, front + [b]);
    hide NewBatch, WellFormed, TxidSet, LinkedFrom, HashesOf, TxidsOf, Genuine, DistinctHashes;
    Snoc(front, b);
    Concat(done, rest);
    assert b.hash !in v.blocks;
    GenuineLast(s, front, b);
    Apart(TxidSet(b.txs), s.txs.Keys, TxidsOf(done), TxidsOf(rest));
    GenuineNext(v, rest, b);
  }

  lemma Apart<T>(x: set<T>, a: set<T>, b: set<T>, c: set<T>)
    requires x !! a + (b + c)
    ensures x !! a + b + c
  {
  }

  lemma GenuineLast(s: Store, front: seq<Block>, b: Block)
    requires Genuine(s, front + [b])
    ensures Genuine(s, front) && b.hash != ZERO_HASH && DistinctTxids(b.txs)
    ensures TxidSet(b.txs) !! s.txs.Keys + TxidsOf(front)
  {
    assert (front + [b])[..|front|] == front;
  }

  lemma GenuineNext(s: Store, front: seq<Block>, b: Block)
    requires Genuine(s, front) && b.hash != ZERO_HASH && b.hash !in s.blocks && DistinctTxids(b.txs)
    requires TxidSet(b.txs) !! s.txs.Keys + TxidsOf(front)
    ensures Genuine(s, front + [b])
  {
    assert (front + [b])[..|front|] == front;
  }

  /** What follows the first n blocks is still new once those are connected. */
  lemma {:induction false} RestNew(s: Store, v: Store, blocks: seq<Block>, n: nat)
    requires NewBatch(s, blocks) && n <= |blocks| && Added(s, v, blocks[..n])
    ensures Genuine(v, blocks[n..])
    ensures forall i | n <= i < |blocks| :: blocks[i].hash !in v.blocks
  {
    hide NewBatch, Added, Genuine, NewPart;
    if n < |blocks| {
      var front, last := blocks[..|blocks| - 1], blocks[|blocks| - 1];
      assert front[..n] == blocks[..n] && front + [last] == blocks && front[n..] + [last] == blocks[n..];
      FrontNew(s, blocks);
      RestNew(s, v, front, n);
      LastStaysNew(s, v, front, last, n);
    } else {
      assert blocks[n..] == [];
      EmptyBatch(v);
    }
  }

  lemma LastNew(s: Store, blocks: seq<Block>)
    requires NewBatch(s, blocks) && blocks != []
    ensures blocks[|blocks| - 1].hash !in s.blocks
  {
    LastBlockNew(s, blocks);
  }

  /** A later chunk of a new batch is new in the state the first n blocks lead to. */
  lemma NextChunk(s: Store, v: Store, blocks: seq<Block>, n: nat, lo: nat, m: nat)
    requires NewBatch(s, blocks) && n <= lo <= m <= |blocks| && Added(s, v, blocks[..n])
    ensures Genuine(v, blocks[lo..m]) && DistinctHashes(blocks[lo..m])
    ensures NewPart(v, blocks[lo..m]) == blocks[lo..m]
    ensures forall i | n <= i < |blocks| :: blocks[i].hash !in v.blocks
  {
    hide *;
    RestNew(s, v, blocks, n);
    NewBatchParts(s, blocks);
    RestCut(blocks, n, lo, m);
    GenuineSuffix(v, blocks[n..lo], blocks[lo..]);
    Suffixes(blocks[..lo], blocks[lo..]);
    Prefixes(0, v, blocks[lo..], m - lo);
    NewPartAll(v, blocks[lo..m]);
  }

  lemma RestCut<T>(blocks: seq<T>, n: nat, lo: nat, m: nat)
    requires n <= lo <= m <= |blocks|
    ensures blocks[..lo] + blocks[lo..] == blocks && blocks[lo..][..m - lo] == blocks[lo..m]
    ensures blocks[n..lo] + blocks[lo..] == blocks[n..]
    ensures forall i | 0 <= i < m - lo :: blocks[lo..m][i] == blocks[lo + i]
  {
  }

  lemma NewBatchParts(s: Store, blocks: seq<Block>)
    requires NewBatch(s, blocks)
    ensures WellFormed(s) && s.tip.Some? && Genuine(s, blocks)
    ensures DistinctHashes(blocks) && LinkedFrom(s.tip.value.hash, blocks)
  {
  }

  lemma GenuineDrop(s: Store, a: seq<Block>, front: seq<Block>, b: Block)
    requires Genuine(s, a + front + [b]) && Genuine(s, front)
    ensures Genuine(s, front + [b])
  {
    Concat(a, front);
    assert (a + front + [b])[..|a + front|] == a + front && (front + [b])[..|front|] == front;
    hide TxidSet, HashesOf, TxidsOf;
  }

  lemma {:induction false} GenuineSuffix(s: Store, a: seq<Block>, b: seq<Block>)
    requires Genuine(s, a + b)
    ensures Genuine(s, b)
  {
    hide *;
    if b == [] {
      EmptyBatch(s);
    } else {
      var front, last := b[..|b| - 1], b[|b| - 1];
      assert b == front + [last] && a + b == a + front + [last];
      assert (a + b)[..|a + b| - 1] == a + front;
      Prefixes(0, s, a + b, |a + b| - 1);
      GenuineSuffix(s, a, front);
      GenuineDrop(s, a, front, last);
    }
  }

  /** The parent of a block inside a linked batch. */
  lemma LinkedAt(h: Hash, blocks: seq<Block>, n: nat)
    requires LinkedFrom(h, blocks) && n < |blocks|
    ensures blocks[n].prev == LastHash(h, blocks[..n])
  {
    Prefixes(h, EMPTY_STORE, blocks, n + 1);
    assert blocks[..n + 1][..n] == blocks[..n];
  }

  /** How far into the new part of a batch the first i blocks reach. */
  function Seen(blocks: seq<Block>, added: seq<Block>, i: nat): nat {
    if |added| + i <= |blocks| then 0 else |added| + i - |blocks|
  }

  /** The new blocks of a chunk, as a slice of the new part of the whole batch. */
  lemma ChunkSlice(s: Store, v: Store, blocks: seq<Block>, i: nat, m: nat)
    requires var added := NewPart(s, blocks);
      && i < m <= |blocks| && (i == 0 ==> v == s) && (i > 0 ==> |added| + i >= |blocks|)
      && var lo, hi := Seen(blocks, added, i), Seen(blocks, added, m);
         lo < hi && hi <= |added| ==> added[lo].hash !in v.blocks
    ensures var added := NewPart(s, blocks);
      var lo, hi := Seen(blocks, added, i), Seen(blocks, added, m);
      && lo <= hi <= |added| && hi - lo <= m - i
      && NewPart(v, blocks[i..m]) == added[lo..hi]
      && (lo < hi ==> |added| + m >= |blocks|)
      && (lo == hi ==> i == 0)
  {
    var added := NewPart(s, blocks);
    NewPartCut(s, blocks, m);
    SeenBounds(blocks, added, i, m);
    CutIsSlice(s, blocks, added, i, m);
    hide NewPart;
    NewPartFirst(v, added[Seen(blocks, added, i)..Seen(blocks, added, m)]);
  }

  lemma NewPartFirst(s: Store, blocks: seq<Block>)
    ensures blocks != [] && blocks[0].hash !in s.blocks ==> NewPart(s, blocks) == blocks
  {
  }

  /** What a chunk is for a state v that holds the first n new blocks of its batch, if
      the first g of them are a new batch. */
  lemma ChunkReady(s: Store, v: Store, blocks: seq<Block>, n: nat, i: nat, m: nat, g: nat)
    requires var added := NewPart(s, blocks);
      && i < m <= |blocks| && n <= Seen(blocks, added, i) && Seen(blocks, added, m) <= g <= |added|
      && NewBatch(s, added[..g]) && n <= g && Added(s, v, added[..n])
      && (i == 0 ==> v == s) && (i > 0 ==> |added| + i >= |blocks|)
    ensures var added := NewPart(s, blocks);
      var lo, hi := Seen(blocks, added, i), Seen(blocks, added, m);
      && lo <= hi <= |added| && hi - lo <= m - i
      && NewPart(v, blocks[i..m]) == added[lo..hi]
      && Genuine(v, added[lo..hi])
      && (lo < hi ==> |added| + m >= |blocks|)
      && (lo == hi ==> i == 0)
      && (lo < hi ==> added[lo].hash !in v.blocks)
      && (lo < hi && lo == n ==> s.tip.Some? && added[lo].prev == LastHash(s.tip.value.hash, added[..n]))
      && (lo < hi && lo > n ==> added[lo].prev !in v.blocks)
  {
    hide *;
    var added := NewPart(s, blocks);
    NewPartCut(s, blocks, m);
    SeenBounds(blocks, added, i, m);
    var lo, hi, good := Seen(blocks, added, i), Seen(blocks, added, m), added[..g];
    assert good[..n] == added[..n] && good[lo..hi] == added[lo..hi] && good[..lo] == added[..lo];
    NextChunk(s, v, good, n, lo, hi);
    NewBatchParts(s, good);
    if lo < hi {
      LinkedAt(s.tip.value.hash, good, lo);
      if lo > n { LastOfPrefix(s.tip.value.hash, good, lo); }
    }
    ChunkSlice(s, v, blocks, i, m);
  }

  /** The blocks follow each other, and none comes twice. */
  ghost predicate InLine(blocks: seq<Block>) {
    (forall i | 0 < i < |blocks| :: blocks[i].prev == blocks[i - 1].hash) && DistinctHashes(blocks)
  }

  lemma OneInLine(blocks: seq<Block>)
    requires |blocks| == 1
    ensures InLine(blocks)
  {
    assert blocks[..0] == [];
  }

  /** A chunk that cannot follow the new blocks before it: it starts with a block that
      is new, but is out of line itself or hangs on a block nobody knows. */
  ghost predicate Stray(s: Store, before: seq<Block>, chunk: seq<Block>, last: bool) {
    && chunk != [] && chunk[0].hash !in s.blocks.Keys + HashesOf(before)
    && (!InLine(chunk) || ((|chunk| > 1 || last) && chunk[0].prev !in s.blocks.Keys + HashesOf(before)))
  }

  /** The new blocks in the first chunks are a new batch; the chunk after them, if
      there is one with new blocks, is stray. */
  ghost predicate GoodChunks(s: Store, blocks: seq<Block>, added: seq<Block>, good: nat) {
    && Cut(blocks, added, good) <= |added| && NewBatch(s, added[..Cut(blocks, added, good)])
    && var lo, hi := Cut(blocks, added, good), Cut(blocks, added, good + 1);
       lo < hi <= |added| ==> Stray(s, added[..lo], added[lo..hi], Bound(blocks, good + 1) == |blocks|)
  }

  lemma GoodChunksMean(s: Store, blocks: seq<Block>, added: seq<Block>, good: nat, n: nat)
    requires GoodChunks(s, blocks, added, good) && n <= good && |added| <= |blocks|
    ensures var g, lo, hi := Cut(blocks, added, good), Cut(blocks, added, n), Cut(blocks, added, n + 1);
      && g <= |added| && NewBatch(s, added[..g])
      && (if n < good then hi <= g
          else lo < hi <= |added| ==> Stray(s, added[..lo], added[lo..hi], Bound(blocks, n + 1) == |blocks|))
  {
    if n < good { CutGrows(blocks, added, n + 1, good); }
    hide NewBatch, Stray, Cut;
  }

  lemma CutGrows(blocks: seq<Block>, added: seq<Block>, n: nat, k: nat)
    ensures n <= k ==> Cut(blocks, added, n) <= Cut(blocks, added, k)
  {
  }

  /** A batch that is new as a whole has good chunks only. */
  lemma AllGood(s: Store, blocks: seq<Block>, added: seq<Block>)
    requires NewBatch(s, added) && |added| <= |blocks|
    ensures GoodChunks(s, blocks, added, |blocks|)
  {
    hide NewBatch, Stray;
    CutBounds(blocks, added, |blocks|);
    assert Bound(blocks, |blocks|) == |blocks|;
    assert added[..|added|] == added;
  }

  /** What the stray chunk is for a state v that holds new blocks before it. */
  lemma StrayReady(s: Store, v: Store, blocks: seq<Block>, n: nat, i: nat, m: nat, last: bool)
    requires var added := NewPart(s, blocks);
      var lo, hi := Seen(blocks, added, i), Seen(blocks, added, m);
      && i < m <= |blocks| && n <= lo <= |added| && Added(s, v, added[..n])
      && (i == 0 ==> v == s) && (i > 0 ==> |added| + i >= |blocks|)
      && (lo < hi <= |added| ==> Stray(s, added[..lo], added[lo..hi], last))
    ensures var added := NewPart(s, blocks);
      var lo, hi := Seen(blocks, added, i), Seen(blocks, added, m);
      && lo <= hi <= |added| && hi - lo <= m - i
      && NewPart(v, blocks[i..m]) == added[lo..hi]
      && (lo < hi ==> |added| + m >= |blocks|)
      && (lo == hi ==> i == 0)
      && (lo < hi && InLine(added[lo..hi]) ==> added[lo].prev !in v.blocks)
      && (hi == lo + 1 ==> last)
  {
    hide NewPart, InLine, HashesOf, TxidsOf, Seen, LinkedFrom, Genuine, DistinctHashes, NoCrossSpend;
    var added := NewPart(s, blocks);
    NewPartCut(s, blocks, m);
    SeenBounds(blocks, added, i, m);
    var lo, hi := Seen(blocks, added, i), Seen(blocks, added, m);
    assert added[..lo][..n] == added[..n];
    Prefixes(0, s, added[..lo], n);
    if hi == lo + 1 { OneInLine(added[lo..hi]); }
    ChunkSlice(s, v, blocks, i, m);
  }

  lemma LastOfPrefix(h: Hash, blocks: seq<Block>, n: nat)
    requires 0 < n <= |blocks|
    ensures LastHash(h, blocks[..n]) == blocks[n - 1].hash
  {
  }

  lemma SeenBounds(blocks: seq<Block>, added: seq<Block>, i: nat, m: nat)
    requires i <= m <= |blocks| && |added| <= |blocks|
    ensures Seen(blocks, added, i) <= Seen(blocks, added, m) <= |added|
    ensures Seen(blocks, added, m) - Seen(blocks, added, i) <= m - i
    ensures Seen(blocks, added, i) < Seen(blocks, added, m) ==> |added| + m >= |blocks|
    ensures Seen(blocks, added, 0) == 0 && Seen(blocks, added, |blocks|) == |added|
  {
  }

  lemma CutIsSlice(s: Store, blocks: seq<Block>, added: seq<Block>, i: nat, m: nat)
    requires i <= m <= |blocks| && |added| <= |blocks| && added == blocks[|blocks| - |added|..]
    requires i == 0 || |added| + i >= |blocks|
    ensures i > 0 ==> blocks[i..m] == added[Seen(blocks, added, i)..Seen(blocks, added, m)]
    ensures i == 0 ==> blocks[i..m] == blocks[..m]
    ensures added[0..Seen(blocks, added, m)]
         == if m <= |blocks| - |added| then [] else added[..m - (|blocks| - |added|)]
  {
  }

  lemma {:induction false} EachConcat(s: Store, a: seq<Block>, b: seq<Block>)
    requires AppendEach(s, a).Ok?
    ensures AppendEach(s, a + b) == AppendEach(AppendEach(s, a).value, b)
  {
    hide Append;
    if b == [] {
      assert a + b == a;
    } else {
      EachConcat(s, a, b[..|b| - 1]);
      assert (a + b)[..|a + b| - 1] == a + b[..|b| - 1];
    }
  }

  lemma {:induction false} EachStops(s: Store, a: seq<Block>, b: seq<Block>)
    requires AppendEach(s, a).Err?
    ensures AppendEach(s, a + b).Err?
  {
    hide Append;
    if b == [] {
      assert a + b == a;
    } else {
      EachStops(s, a, b[..|b| - 1]);
      assert (a + b)[..|a + b| - 1] == a + b[..|b| - 1];
    }
  }

  /** One chunk, committed on its own. */
  lemma ChunkAlone(v: Store, w: Store, chunk: seq<Block>)
    requires NewBatch(v, chunk) && AppendAll(v.SpendRefs(), v, chunk) == Ok(w)
    ensures ExtendsAll(v.SpendRefs(), v, chunk) && Advanced(v, w, chunk) && BatchView(v, w, chunk)
    ensures AppendEach(v, chunk).Ok? <==> NoCrossSpend(chunk)
    ensures NoCrossSpend(chunk) ==> AppendEach(v, chunk) == Ok(w)
  {
    hide WellFormed, Genuine, LinkedFrom, DistinctHashes, NoCrossSpend, AppendAll, ExtendsAll, BatchView;
    GenuineExtends(v.SpendRefs(), v, chunk);
    BatchIsSequential(v, chunk);
  }

  lemma LastHashConcat(h: Hash, a: seq<Block>, b: seq<Block>)
    ensures LastHash(h, a + b) == LastHash(LastHash(h, a), b)
  {
  }

  lemma AdvancedTwice(s: Store, v: Store, w: Store, a: seq<Block>, b: seq<Block>)
    requires s.tip.Some? && v.tip.Some? && Advanced(s, v, a) && Advanced(v, w, b)
    ensures Advanced(s, w, a + b)
  {
    hide HashesOf, TxidsOf, WellFormed, LastHash;
    Concat(a, b);
    LastHashConcat(s.tip.value.hash, a, b);
    Regroup(s.blocks.Keys, HashesOf(a), HashesOf(b));
    Regroup(s.txs.Keys, TxidsOf(a), TxidsOf(b));
  }

  lemma Regroup<T>(x: set<T>, a: set<T>, b: set<T>)
    ensures x + (a + b) == x + a + b
  {
  }

  lemma {:induction false} LinkedSuffix(h: Hash, a: seq<Block>, b: seq<Block>)
    requires LinkedFrom(h, a + b)
    ensures LinkedFrom(LastHash(h, a), b)
  {
    if b != [] {
      var front := b[..|b| - 1];
      assert (a + b)[..|a + b| - 1] == a + front;
      LinkedSuffix(h, a, front);
      LastHashConcat(h, a, front);
    }
  }

  lemma AdvancedParts(s: Store, v: Store, blocks: seq<Block>)
    requires s.tip.Some? && Advanced(s, v, blocks)
    ensures WellFormed(v) && Added(s, v, blocks)
    ensures v.tip.Some? && v.tip.value.hash == LastHash(s.tip.value.hash, blocks)
  {
  }

  lemma NewBatchIs(v: Store, chunk: seq<Block>)
    requires WellFormed(v) && v.tip.Some? && Genuine(v, chunk) && DistinctHashes(chunk)
    requires LinkedFrom(v.tip.value.hash, chunk) && (chunk != [] ==> chunk[0].hash !in v.blocks)
    ensures NewBatch(v, chunk)
  {
  }

  /** What follows the connected part of a new batch is a new batch on the new tip. */
  lemma NextIsNew(s: Store, v: Store, done: seq<Block>, chunk: seq<Block>)
    requires NewBatch(s, done + chunk) && s.tip.Some? && Advanced(s, v, done)
    ensures NewBatch(v, chunk)
  {
    hide *;
    var blocks := done + chunk;
    assert blocks[..|done|] == done && blocks[|done|..|blocks|] == chunk;
    NewBatchParts(s, blocks);
    AdvancedParts(s, v, done);
    LinkedSuffix(s.tip.value.hash, done, chunk);
    NextChunk(s, v, blocks, |done|, |done|, |blocks|);
    assert chunk != [] ==> chunk[0] == blocks[|done|];
    NewBatchIs(v, chunk);
  }

  /** A committed chunk advances the state; it continues the one-by-one run exactly
      if no outpoint is spent by two blocks of the chunk. */
  lemma ChunkStep(s: Store, v: Store, w: Store, done: seq<Block>, chunk: seq<Block>)
    requires NewBatch(s, done + chunk) && s.tip.Some? && Advanced(s, v, done)
    requires AppendAll(v.SpendRefs(), v, chunk) == Ok(w)
    ensures Advanced(s, w, done + chunk)
    ensures AppendEach(s, done) == Ok(v) ==>
      && (AppendEach(s, done + chunk).Ok? <==> NoCrossSpend(chunk))
      && (NoCrossSpend(chunk) ==> AppendEach(s, done + chunk) == Ok(w))
  {
    hide *;
    NextIsNew(s, v, done, chunk);
    NewBatchParts(v, chunk);
    ChunkAlone(v, w, chunk);
    AdvancedTwice(s, v, w, done, chunk);
    if AppendEach(s, done) == Ok(v) { EachConcat(s, done, chunk); }
  }

  // ---------------------------------------------------------------- chunk after chunk

  /** The state after chunks of blocks, each committed before the next one starts. */
  function AppendChunks(s: Store, parts: seq<seq<Block>>): Result<Store, ChainError> {
    if parts == [] then Ok(s)
    else
      match AppendChunks(s, parts[..|parts| - 1])
      case Err(e) => Err(e)
      case Ok(v) => AppendAll(v.SpendRefs(), v, parts[|parts| - 1])
  }

  /** The states committed on the way. */
  function ChunkLog(s: Store, parts: seq<seq<Block>>): seq<Store> {
    if parts == [] || AppendChunks(s, parts).Err? then []
    else ChunkLog(s, parts[..|parts| - 1]) + [AppendChunks(s, parts).value]
  }

  function Flat(parts: seq<seq<Block>>): seq<Block> {
    if parts == [] then [] else Flat(parts[..|parts| - 1]) + parts[|parts| - 1]
  }

  /** Within each chunk no outpoint is spent by two different blocks. */
  ghost predicate CleanParts(parts: seq<seq<Block>>) {
    forall k | 0 <= k < |parts| :: NoCrossSpend(parts[k])
  }

  lemma CleanSnoc(parts: seq<seq<Block>>)
    ensures CleanParts([])
    ensures parts != [] ==> (CleanParts(parts) <==> CleanParts(parts[..|parts| - 1]) && NoCrossSpend(parts[|parts| - 1]))
  {
    if parts != [] {
      var front := parts[..|parts| - 1];
      assert forall k | 0 <= k < |front| :: front[k] == parts[k];
    }
  }

  lemma PrefixNew(s: Store, a: seq<Block>, b: seq<Block>)
    requires NewBatch(s, a + b)
    ensures NewBatch(s, a)
  {
    assert (a + b)[..|a|] == a;
    hide WellFormed, Genuine, LinkedFrom, DistinctHashes;
    Prefixes(s.tip.value.hash, s, a + b, |a|);
    assert a != [] ==> a[0] == (a + b)[0];
  }

  lemma NothingAdvanced(s: Store)
    requires NewBatch(s, []) && s.tip.Some?
    ensures Advanced(s, s, [])
  {
  }

  /** Chunks of a new batch that all commit lead to the state their blocks lead to
      one at a time exactly if no chunk spends an outpoint in two of its blocks; in
      any case the state advances by exactly these blocks and keeps the invariant. */
  lemma {:induction false} ChunkRunIsSequential(s: Store, parts: seq<seq<Block>>)
    requires NewBatch(s, Flat(parts)) && AppendChunks(s, parts).Ok?
    ensures s.tip.Some? && Advanced(s, AppendChunks(s, parts).value, Flat(parts))
    ensures AppendEach(s, Flat(parts)).Ok? <==> CleanParts(parts)
    ensures CleanParts(parts) ==> AppendEach(s, Flat(parts)) == AppendChunks(s, parts)
  {
    hide NewBatch, Advanced, AppendEach, AppendAll, CleanParts;
    CleanSnoc(parts);
    NewBatchParts(s, Flat(parts));
    if parts == [] {
      NothingAdvanced(s);
      EachNone(s);
    } else {
      var front, last := parts[..|parts| - 1], parts[|parts| - 1];
      PrefixNew(s, Flat(front), last);
      ChunkRunIsSequential(s, front);
      ChunkStep(s, AppendChunks(s, front).value, AppendChunks(s, parts).value, Flat(front), last);
      if !CleanParts(front) { EachStops(s, Flat(front), last); }
    }
  }

  lemma EachNone(s: Store)
    ensures AppendEach(s, []) == Ok(s)
  {
  }

  lemma StandsChunk(v: Store, w: Store, c: seq<Block>, chunk: seq<Block>)
    requires Stands(v, c) && NewBatch(v, chunk) && AppendAll(v.SpendRefs(), v, chunk) == Ok(w)
    ensures Stands(w, c + chunk)
  {
    hide *;
    NewBatchParts(v, chunk);
    ChunkAlone(v, w, chunk);
    StandsBatch(v.SpendRefs(), v, c, chunk);
  }

  /** The chunks lengthen the line by their blocks, whatever they spend. */
  lemma {:induction false} StandsChunks(s: Store, c: seq<Block>, parts: seq<seq<Block>>)
    requires Stands(s, c) && NewBatch(s, Flat(parts)) && AppendChunks(s, parts).Ok?
    ensures Stands(AppendChunks(s, parts).value, c + Flat(parts))
  {
    hide NewBatch, Advanced, Stands, AppendAll;
    if parts == [] {
      assert c + [] == c;
    } else {
      var front, last := parts[..|parts| - 1], parts[|parts| - 1];
      var v := AppendChunks(s, front).value;
      PrefixNew(s, Flat(front), last);
      StandsChunks(s, c, front);
      ChunkRunIsSequential(s, front);
      NextIsNew(s, v, Flat(front), last);
      StandsChunk(v, AppendChunks(s, parts).value, c + Flat(front), last);
      assert c + Flat(front) + last == c + Flat(parts);
    }
  }

  /** A database that holds a chain holds the longer one after the chunks exactly if
      no chunk spends an outpoint in two of its blocks. */
  lemma {:induction false} HoldsChunksIff(s: Store, c: seq<Block>, parts: seq<seq<Block>>)
    requires Holds(s, c) && NewBatch(s, Flat(parts)) && AppendChunks(s, parts).Ok?
    ensures Holds(AppendChunks(s, parts).value, c + Flat(parts)) <==> CleanParts(parts)
  {
    hide NewBatch, Advanced, Holds, AppendAll, AppendEach, BatchView, ExtendsAll, CleanParts, NoCrossSpend;
    CleanSnoc(parts);
    if parts == [] {
      assert c + [] == c;
    } else {
      var front, last := parts[..|parts| - 1], parts[|parts| - 1];
      var v, w := AppendChunks(s, front).value, AppendChunks(s, parts).value;
      PrefixNew(s, Flat(front), last);
      HoldsChunksIff(s, c, front);
      ChunkRunIsSequential(s, front);
      NextIsNew(s, v, Flat(front), last);
      NewBatchParts(v, last);
      ChunkAlone(v, w, last);
      assert c + Flat(front) + last == c + Flat(parts);
      if Holds(v, c + Flat(front)) {
        HoldsBatchIff(v, c + Flat(front), last);
      } else if Holds(w, c + Flat(parts)) {
        HoldsReplayed(w, c + Flat(parts));
        ReplayEach(s, c, Flat(parts));
        ChunkRunIsSequential(s, parts);
      }
    }
  }

  // ---------------------------------------------------------------- an output spent in an earlier chunk

  /** An output that is spent in the database is not spent by any batch on it. */
  lemma {:induction false} SpentNotAgain(s: Store, blocks: seq<Block>, op: Outpoint)
    requires WellFormed(s) && ExtendsAll(s.SpendRefs(), s, blocks) && AppendAll(s.SpendRefs(), s, blocks).Ok?
    requires op in s.utxos && s.utxos[op].IsSpent()
    ensures op !in SpentBy(blocks)
    ensures var v := AppendAll(s.SpendRefs(), s, blocks).value; op in v.utxos && v.utxos[op] == s.utxos[op]
  {
    hide Append, Extends, WellFormed, InputsOf, Refs.Confirms;
    if blocks != [] {
      var front, b := blocks[..|blocks| - 1], blocks[|blocks| - 1];
      SpentNotAgain(s, front, op);
      var v := AppendAll(s.SpendRefs(), s, front).value;
      hide BatchView;
      BatchIsSequential(s, front);
      ViewHeight(s, v, front);
      SpentStays(s.SpendRefs(), v, b, op);
      MarkersConfirmed(s, op);
    }
  }

  /** Everything the chunks spent is marked in the state after them. */
  lemma {:induction false} ChunksMark(s: Store, parts: seq<seq<Block>>, op: Outpoint)
    requires NewBatch(s, Flat(parts)) && AppendChunks(s, parts).Ok? && op in SpentBy(Flat(parts))
    ensures var v := AppendChunks(s, parts).value; op in v.utxos && v.utxos[op].IsSpent()
  {
    hide NewBatch, Advanced, AppendAll, AppendEach, BatchView, ExtendsAll, SpentBy;
    if parts == [] {
      EmptyBatch(s);
    } else {
      var front, last := parts[..|parts| - 1], parts[|parts| - 1];
      var v, w := AppendChunks(s, front).value, AppendChunks(s, parts).value;
      PrefixNew(s, Flat(front), last);
      ChunkRunIsSequential(s, front);
      NextIsNew(s, v, Flat(front), last);
      NewBatchParts(v, last);
      ChunkAlone(v, w, last);
      Concat(Flat(front), last);
      if op in SpentBy(last) {
        ViewMarked(v, w, last);
      } else {
        ChunksMark(s, front, op);
        SpentNotAgain(v, last, op);
      }
    }
  }

  /** Two blocks in different chunks cannot spend one outpoint: the later chunk is refused. */
  lemma CrossChunkRefused(s: Store, parts: seq<seq<Block>>, next: seq<Block>)
    requires NewBatch(s, Flat(parts) + next) && AppendChunks(s, parts).Ok?
    requires SpentBy(Flat(parts)) * SpentBy(next) != {}
    ensures var v := AppendChunks(s, parts).value; AppendAll(v.SpendRefs(), v, next).Err?
  {
    hide NewBatch, Advanced, AppendAll, AppendEach, BatchView, ExtendsAll, SpentBy, AppendChunks, Flat;
    var v := AppendChunks(s, parts).value;
    var op :| op in SpentBy(Flat(parts)) && op in SpentBy(next);
    PrefixNew(s, Flat(parts), next);
    ChunkRunIsSequential(s, parts);
    ChunksMark(s, parts, op);
    NextIsNew(s, v, Flat(parts), next);
    NewBatchParts(v, next);
    var r := AppendAll(v.SpendRefs(), v, next);
    if r.Ok? {
      ChunkAlone(v, r.value, next);
      SpentNotAgain(v, next, op);
    }
  }

  // ---------------------------------------------------------------- the chunks a long batch is cut into

  const MAX_BATCH_SIZE: nat := 500

  /** Where chunk n of a batch starts and the one before it ends. */
  function Bound(blocks: seq<Block>, n: nat): nat {
    if MAX_BATCH_SIZE * n > |blocks| then |blocks| else MAX_BATCH_SIZE * n
  }

  /** How many of the new blocks lie before chunk n. */
  function Cut(blocks: seq<Block>, added: seq<Block>, n: nat): nat {
    Seen(blocks, added, Bound(blocks, n))
  }

  lemma CutBounds(blocks: seq<Block>, added: seq<Block>, n: nat)
    requires |added| <= |blocks|
    ensures Cut(blocks, added, 0) == 0 && Cut(blocks, added, n) <= Cut(blocks, added, n + 1) <= |added|
    ensures Bound(blocks, n) < |blocks| ==> Bound(blocks, n) < Bound(blocks, n + 1)
    ensures Bound(blocks, n) == |blocks| ==> Cut(blocks, added, n) == |added|
  {
  }

  lemma CutIs(blocks: seq<Block>, added: seq<Block>, n: nat)
    ensures Cut(blocks, added, n) == Seen(blocks, added, Bound(blocks, n))
    ensures Bound(blocks, n) <= |blocks|
  {
  }

  lemma BoundSteps(blocks: seq<Block>)
    ensures MAX_BATCH_SIZE == 500 && Bound(blocks, 0) == 0
    ensures MAX_BATCH_SIZE < |blocks| ==> Bound(blocks, 1) == MAX_BATCH_SIZE
    ensures forall n: nat {:trigger Bound(blocks, n)} | Bound(blocks, n) < |blocks| ::
      var i := Bound(blocks, n);
      Bound(blocks, n + 1) == (if i + MAX_BATCH_SIZE > |blocks| then |blocks| else i + MAX_BATCH_SIZE) > i
  {
  }

  /** The parts are the new blocks in the first chunks. */
  ghost predicate Slices(blocks: seq<Block>, added: seq<Block>, parts: seq<seq<Block>>) {
    forall k | 0 <= k < |parts| :: IsSlice(parts[k], added, Cut(blocks, added, k), Cut(blocks, added, k + 1))
  }

  predicate IsSlice(part: seq<Block>, added: seq<Block>, lo: nat, hi: nat) {
    lo < hi <= |added| && part == added[lo..hi]
  }

  lemma {:induction false} FlatSlices(blocks: seq<Block>, added: seq<Block>, parts: seq<seq<Block>>)
    requires |added| <= |blocks| && Slices(blocks, added, parts)
    ensures Cut(blocks, added, |parts|) <= |added| && Flat(parts) == added[..Cut(blocks, added, |parts|)]
  {
    hide Cut;
    if parts == [] {
      CutBounds(blocks, added, 0);
    } else {
      var front := parts[..|parts| - 1];
      assert forall k | 0 <= k < |front| :: front[k] == parts[k];
      FlatSlices(blocks, added, front);
      assert IsSlice(parts[|parts| - 1], added, Cut(blocks, added, |parts| - 1), Cut(blocks, added, |parts| - 1 + 1));
    }
  }

  /** The state and log after these chunks of a batch were committed, and nothing else. */
  ghost predicate Underway(
      s: Store, blocks: seq<Block>, added: seq<Block>, parts: seq<seq<Block>>, before: seq<Store>, v: Store, log: seq<Store>) {
    && Slices(blocks, added, parts)
    && AppendChunks(s, parts) == Ok(v)
    && log == before + ChunkLog(s, parts)
  }

  /** These new blocks were left out: each came alone and waits in the orphan pool. */
  ghost predicate LeftOut(orphans: set<Hash>, added: seq<Block>, lo: nat, hi: nat) {
    lo <= hi <= |added| && forall k | lo <= k < hi :: added[k].hash in orphans
  }

  lemma LeftOutNext(orphans: set<Hash>, added: seq<Block>, done: nat, lo: nat, hi: nat)
    requires LeftOut(orphans, added, done, lo) && lo <= hi <= |added|
    ensures LeftOut(orphans, added, hi, hi)
    ensures hi == lo + 1 && added[lo].hash in orphans ==> LeftOut(orphans, added, done, hi)
  {
  }

  lemma UnderwayStart(s: Store, blocks: seq<Block>, log: seq<Store>)
    ensures var added := NewPart(s, blocks);
      && |added| <= |blocks| && Cut(blocks, added, 0) == 0 && Flat([]) == []
      && Underway(s, blocks, added, [], log, s, log)
      && (forall o :: LeftOut(o, added, 0, 0))
  {
    NewPartCut(s, blocks, 0);
    assert log + [] == log;
  }

  lemma WholePrefix(blocks: seq<Block>, n: nat)
    requires n <= |blocks|
    ensures blocks[..n] + blocks[n..] == blocks
  {
  }

  /** Where a long batch stands after some of its chunks. */
  lemma UnderwayParts(
      s: Store, blocks: seq<Block>, added: seq<Block>, parts: seq<seq<Block>>, before: seq<Store>, v: Store, log: seq<Store>, g: nat)
    requires |added| <= |blocks| && Underway(s, blocks, added, parts, before, v, log)
    requires Cut(blocks, added, |parts|) <= g <= |added| && NewBatch(s, added[..g])
    ensures var n := Cut(blocks, added, |parts|);
      && n <= |added| && Flat(parts) == added[..n] && NewBatch(s, Flat(parts))
      && s.tip.Some? && Advanced(s, v, added[..n]) && Added(s, v, added[..n])
  {
    hide NewBatch, Cut, Slices, ChunkLog;
    FlatSlices(blocks, added, parts);
    var n := Cut(blocks, added, |parts|);
    WholePrefix(added[..g], n);
    assert added[..g][..n] == added[..n];
    PrefixNew(s, added[..n], added[..g][n..]);
    NewBatchParts(s, added[..g]);
    ChunkRunIsSequential(s, parts);
    hide HashesOf, TxidsOf, WellFormed;
  }

  lemma UnderwayRun(
      s: Store, blocks: seq<Block>, added: seq<Block>, parts: seq<seq<Block>>, before: seq<Store>, v: Store, log: seq<Store>)
    requires Underway(s, blocks, added, parts, before, v, log)
    ensures AppendChunks(s, parts) == Ok(v)
  {
    hide AppendChunks;
  }

  lemma UnderwayNext(
      s: Store, blocks: seq<Block>, added: seq<Block>, parts: seq<seq<Block>>, before: seq<Store>, v: Store, log: seq<Store>,
      part: seq<Block>, w: Store)
    requires Underway(s, blocks, added, parts, before, v, log)
    requires IsSlice(part, added, Cut(blocks, added, |parts|), Cut(blocks, added, |parts| + 1))
    requires AppendAll(v.SpendRefs(), v, part) == Ok(w)
    ensures Underway(s, blocks, added, parts + [part], before, w, log + [w])
    ensures Flat(parts + [part]) == Flat(parts) + part
  {
    hide AppendAll, Cut;
    assert (parts + [part])[..|parts|] == parts;
  }

  /** A committed chunk starts right after the blocks connected so far, so no chunk
      was passed over before it. */
  lemma ChunkCommitted(
      s: Store, blocks: seq<Block>, added: seq<Block>, parts: seq<seq<Block>>, before: seq<Store>, v: Store, log: seq<Store>,
      n: nat, w: Store)
    requires Underway(s, blocks, added, parts, before, v, log)
    requires var lo, hi, done := Cut(blocks, added, n), Cut(blocks, added, n + 1), Cut(blocks, added, |parts|);
      && done <= lo < hi <= |added| && (|parts| == n || done < lo)
      && (lo > done ==> added[lo].prev !in v.blocks)
      && v.tip.Some? && v.tip.value.hash in v.blocks
      && LinkedFrom(v.tip.value.hash, added[lo..hi]) && AppendAll(v.SpendRefs(), v, added[lo..hi]) == Ok(w)
    ensures var lo, hi := Cut(blocks, added, n), Cut(blocks, added, n + 1);
      && |parts| == n && Flat(parts + [added[lo..hi]]) == Flat(parts) + added[lo..hi]
      && Underway(s, blocks, added, parts + [added[lo..hi]], before, w, log + [w])
  {
    hide Underway, LinkedFrom, AppendAll, Cut;
    var lo, hi := Cut(blocks, added, n), Cut(blocks, added, n + 1);
    FirstParent(v.tip.value.hash, added[lo..hi]);
    UnderwayNext(s, blocks, added, parts, before, v, log, added[lo..hi], w);
  }

  lemma FirstParent(h: Hash, blocks: seq<Block>)
    requires LinkedFrom(h, blocks) && blocks != []
    ensures blocks[0].prev == h
  {
    LinkedAt(h, blocks, 0);
  }
}
