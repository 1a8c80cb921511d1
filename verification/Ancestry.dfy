/** Walks along parent links in a database that may hold several branches: the
    fork point of two branches, and the best valid ancestor of a block. */
module Ancestry {
  import opened Wrappers
  import opened ChainTypes
  import opened Storage
  import opened BlockTree
  import opened BlockChains
  import opened Replay

  /** A stored parent lies below its child, and no block has the zero hash. */
  ghost predicate Descending(s: Store) {
    && ZERO_HASH !in s.blocks
    && forall x | x in s.blocks && s.blocks[x].prev in s.blocks :: s.blocks[s.blocks[x].prev].height < s.blocks[x].height
  }

  function Rank(s: Store, x: Hash): nat {
    if x in s.blocks then s.blocks[x].height + 1 else 0
  }

  /** a is x or an ancestor of x, through stored blocks. */
  ghost predicate Reaches(s: Store, x: Hash, a: Hash)
    requires Descending(s)
    decreases Rank(s, x)
  {
    x in s.blocks && (x == a || Reaches(s, s.blocks[x].prev, a))
  }

  /** An ancestor is stored, and not higher; at the same height only the block itself. */
  lemma {:induction false} ReachesBelow(s: Store, x: Hash, a: Hash)
    requires Descending(s) && Reaches(s, x, a)
    ensures a in s.blocks && s.blocks[a].height <= s.blocks[x].height
    ensures s.blocks[a].height == s.blocks[x].height ==> a == x
    decreases Rank(s, x)
  {
    if x != a { ReachesBelow(s, s.blocks[x].prev, a); }
  }

  lemma OneLineDescending(s: Store)
    requires OneLine(s)
    ensures Descending(s)
  {
  }

  // ---------------------------------------------------------------- the fork point

  /** Each block follows the one before it. */
  ghost predicate Forward(blocks: seq<Block>) {
    forall i | 0 <= i < |blocks| - 1 :: blocks[i + 1].prev == blocks[i].hash
  }

  /** Each block is the parent of the one before it. */
  ghost predicate Backward(blocks: seq<Block>) {
    forall i | 0 <= i < |blocks| - 1 :: blocks[i].prev == blocks[i + 1].hash
  }

  /** new leads from f up to the new tip; oldChain leads from the old tip down to f. */
  ghost predicate Branches(f: Hash, tip: Hash, newTip: Hash, oldChain: seq<Block>, newChain: seq<Block>) {
    && Forward(newChain) && Backward(oldChain)
    && (if newChain == [] then f == newTip else newChain[0].prev == f && newChain[|newChain| - 1].hash == newTip)
    && (if oldChain == [] then f == tip else oldChain[0].hash == tip && oldChain[|oldChain| - 1].prev == f)
  }

  ghost predicate Apart(oldChain: seq<Block>, newChain: seq<Block>) {
    forall i, j | 0 <= i < |oldChain| && 0 <= j < |newChain| :: oldChain[i].hash != newChain[j].hash
  }

  /** Being marked as connected in the tree means lying on the path to the tip. */
  ghost predicate MainMarked(bc: BlockChain)
    requires Descending(bc.storage.db)
    reads bc, bc.storage, bc.tree, bc.tree.blockIndex.Values
  {
    forall x | x in bc.storage.db.blocks :: IsOnMainChain(bc, x) <==> Reaches(bc.storage.db, bc.bestHash, x)
  }

  predicate IsOnMainChain(bc: BlockChain, hash: Hash)
    reads bc.tree, bc.tree.blockIndex.Values
  {
    hash in bc.tree.blockIndex && bc.tree.blockIndex[hash].status == Connected
  }

  lemma OnMainMeans(bc: BlockChain)
    ensures forall x :: IsOnMainChain(bc, x) <==> x in bc.tree.blockIndex && bc.tree.blockIndex[x].status == Connected
  {
  }

  /** f is the highest block that both tips descend from. */
  ghost predicate HighestCommon(s: Store, tip: Hash, newTip: Hash, f: Hash)
    requires Descending(s)
  {
    && Reaches(s, tip, f) && Reaches(s, newTip, f)
    && forall a | Reaches(s, tip, a) && Reaches(s, newTip, a) :: Reaches(s, f, a)
  }

  /** The blocks of this list were loaded from the database. */
  ghost predicate Loaded(s: Store, blocks: seq<Block>) {
    forall i | 0 <= i < |blocks| :: blocks[i].hash in s.blocks && s.GetBlock(blocks[i].hash) == Some(blocks[i])
  }

  ghost predicate Loadable(s: Store) {
    forall x | x in s.blocks :: s.GetBlock(x).Some?
  }

  lemma GetBlockFields(s: Store, x: Hash)
    requires s.GetBlock(x).Some?
    ensures x in s.blocks && s.GetBlock(x).value.hash == x && s.GetBlock(x).value.prev == s.blocks[x].prev
  {
  }

  /** From a tip down to an ancestor, tip first. */
  method OldBranch(bc: BlockChain, tip: Hash, forkPoint: Hash) returns (r: Result<seq<Block>, ChainError>)
    requires Descending(bc.storage.db)
    ensures r.Ok? ==>
      var s := bc.storage.db;
      && Backward(r.value) && Loaded(s, r.value)
      && (if r.value == [] then forkPoint == tip else r.value[0].hash == tip && r.value[|r.value| - 1].prev == forkPoint)
      && (forall i | 0 <= i < |r.value| :: Reaches(s, tip, r.value[i].hash))
      && (forall a | Reaches(s, forkPoint, a) :: Reaches(s, tip, a))
    ensures r.Err? && Loadable(bc.storage.db) ==> !Reaches(bc.storage.db, tip, forkPoint)
  {
    hide Store.GetBlock;
    var s := bc.storage.db;
    var oldChain, currentHash := [], tip;
    while currentHash != forkPoint
      invariant Backward(oldChain) && Loaded(s, oldChain)
      invariant if oldChain == [] then currentHash == tip else oldChain[0].hash == tip && oldChain[|oldChain| - 1].prev == currentHash
      invariant forall i | 0 <= i < |oldChain| :: Reaches(s, tip, oldChain[i].hash)
      invariant forall a | Reaches(s, currentHash, a) :: Reaches(s, tip, a)
      invariant Reaches(s, tip, forkPoint) ==> Reaches(s, currentHash, forkPoint)
      decreases Rank(s, currentHash)
    {
      var block := s.GetBlock(currentHash);
      if block.None? {
        return Err(BlockNotFound);
      }
      GetBlockFields(s, currentHash);
      assert Reaches(s, currentHash, currentHash);
      assert forall a | Reaches(s, s.blocks[currentHash].prev, a) :: Reaches(s, currentHash, a);
      oldChain := oldChain + [block.value];
      currentHash := block.value.prev;
    }
    return Ok(oldChain);
  }

  /** The ancestors of x are the listed blocks and the ancestors of rest, which all
      listed blocks descend from. */
  ghost predicate SplitAt(s: Store, x: Hash, listed: seq<Block>, rest: Hash)
    requires Descending(s)
  {
    && (forall a | Reaches(s, x, a) :: Reaches(s, rest, a) || exists i :: 0 <= i < |listed| && listed[i].hash == a)
    && (forall i | 0 <= i < |listed| :: Reaches(s, x, listed[i].hash))
    && (forall a | Reaches(s, rest, a) :: Reaches(s, x, a))
    && (forall i, a | 0 <= i < |listed| && Reaches(s, rest, a) :: Reaches(s, listed[i].hash, a))
  }

  lemma SplitStart(s: Store, x: Hash)
    requires Descending(s)
    ensures SplitAt(s, x, [], x)
  {
  }

  lemma SplitReaches(s: Store, x: Hash, listed: seq<Block>, rest: Hash)
    requires Descending(s) && SplitAt(s, x, listed, rest) && Reaches(s, rest, rest)
    ensures Reaches(s, x, rest)
  {
  }

  lemma SplitNext(s: Store, x: Hash, listed: seq<Block>, b: Block)
    requires Descending(s) && SplitAt(s, x, listed, b.hash) && b.hash in s.blocks && s.blocks[b.hash].prev == b.prev
    ensures SplitAt(s, x, [b] + listed, b.prev)
  {
    var more := [b] + listed;
    assert Reaches(s, b.hash, b.hash);
    assert forall a :: Reaches(s, b.hash, a) <==> a == b.hash || Reaches(s, b.prev, a);
    forall a | Reaches(s, x, a) ensures Reaches(s, b.prev, a) || exists i :: 0 <= i < |more| && more[i].hash == a {
      if a == b.hash {
        assert more[0].hash == a;
      } else if !Reaches(s, b.hash, a) {
        var i :| 0 <= i < |listed| && listed[i].hash == a;
        assert more[i + 1].hash == a;
      }
    }
    assert forall i | 0 < i < |more| :: more[i] == listed[i - 1];
  }

  /** Whether a common ancestor from which a branch leads up is the highest one: it
      is exactly if no block of that branch is an ancestor of the other tip. */
  lemma HighestIff(s: Store, tip: Hash, newTip: Hash, f: Hash, newChain: seq<Block>)
    requires Descending(s) && SplitAt(s, newTip, newChain, f) && Reaches(s, tip, f)
    requires f in s.blocks && forall i | 0 <= i < |newChain| :: newChain[i].hash != f
    ensures Reaches(s, newTip, f)
    ensures HighestCommon(s, tip, newTip, f) <==> forall i | 0 <= i < |newChain| :: !Reaches(s, tip, newChain[i].hash)
  {
    assert Reaches(s, f, f);
    forall i | 0 <= i < |newChain| && Reaches(s, f, newChain[i].hash) ensures false {
      ReachesBelow(s, f, newChain[i].hash);
      ReachesBelow(s, newChain[i].hash, f);
    }
  }

  /** m is the marked ancestor of x that all others lie below. */
  ghost predicate FirstMarked(bc: BlockChain, x: Hash, m: Hash)
    requires Descending(bc.storage.db)
    reads bc, bc.storage, bc.tree, bc.tree.blockIndex.Values
  {
    && Reaches(bc.storage.db, x, m) && IsOnMainChain(bc, m)
    && forall a | Reaches(bc.storage.db, x, a) && IsOnMainChain(bc, a) :: Reaches(bc.storage.db, m, a)
  }

  /** The marks lead the search to f: the first marked ancestor of the new tip is the
      highest common ancestor of both tips. */
  ghost predicate MarksLeadTo(bc: BlockChain, newTip: Hash, f: Hash)
    requires Descending(bc.storage.db)
    reads bc, bc.storage, bc.tree, bc.tree.blockIndex.Values
  {
    FirstMarked(bc, newTip, f) && HighestCommon(bc.storage.db, bc.bestHash, newTip, f)
  }

  lemma ReachesEach(s: Store, a: Hash, b: Hash)
    requires Descending(s) && Reaches(s, a, b) && Reaches(s, b, a)
    ensures a == b
  {
    ReachesBelow(s, a, b);
    ReachesBelow(s, b, a);
  }

  /** Given the first marked ancestor, the search can be judged by it alone. */
  lemma FirstMarkedDecides(bc: BlockChain, newTip: Hash, m: Hash)
    requires Descending(bc.storage.db) && FirstMarked(bc, newTip, m)
    ensures (exists a :: FirstMarked(bc, newTip, a) && Reaches(bc.storage.db, bc.bestHash, a)) <==> Reaches(bc.storage.db, bc.bestHash, m)
    ensures (exists f :: MarksLeadTo(bc, newTip, f)) <==> HighestCommon(bc.storage.db, bc.bestHash, newTip, m)
    ensures HighestCommon(bc.storage.db, bc.bestHash, newTip, m) ==> Reaches(bc.storage.db, bc.bestHash, m)
    ensures MainMarked(bc) ==> HighestCommon(bc.storage.db, bc.bestHash, newTip, m)
  {
    hide Reaches, IsOnMainChain;
    forall a | FirstMarked(bc, newTip, a) ensures a == m {
      ReachesEach(bc.storage.db, a, m);
    }
    assert MarksLeadTo(bc, newTip, m) <==> HighestCommon(bc.storage.db, bc.bestHash, newTip, m);
    if MainMarked(bc) { MarkedIfReached(bc); ReachesBelow(bc.storage.db, newTip, m); }
  }

  /** Without a marked ancestor of the new tip there is nothing to find. */
  lemma NoneMarked(bc: BlockChain, newTip: Hash)
    requires Descending(bc.storage.db) && forall a | Reaches(bc.storage.db, newTip, a) :: !IsOnMainChain(bc, a)
    ensures forall a :: !FirstMarked(bc, newTip, a)
    ensures forall f :: !MarksLeadTo(bc, newTip, f)
    ensures MainMarked(bc) ==> forall a :: !(Reaches(bc.storage.db, bc.bestHash, a) && Reaches(bc.storage.db, newTip, a))
  {
    hide Reaches, IsOnMainChain;
    if MainMarked(bc) { MarkedIfReached(bc); }
  }

  lemma FirstMarkedIs(bc: BlockChain, x: Hash, m: Hash)
    requires Descending(bc.storage.db) && Reaches(bc.storage.db, x, m) && IsOnMainChain(bc, m)
    requires forall a | Reaches(bc.storage.db, x, a) && IsOnMainChain(bc, a) :: Reaches(bc.storage.db, m, a)
    ensures FirstMarked(bc, x, m)
  {
  }

  /** If the marks are the ancestors of the tip, an unmarked branch meets no branch of the tip. */
  lemma MarkedApart(bc: BlockChain, oldChain: seq<Block>, newChain: seq<Block>)
    requires Descending(bc.storage.db) && MainMarked(bc)
    requires forall i | 0 <= i < |oldChain| :: Reaches(bc.storage.db, bc.bestHash, oldChain[i].hash)
    requires forall i | 0 <= i < |newChain| :: !IsOnMainChain(bc, newChain[i].hash)
    ensures Apart(oldChain, newChain)
  {
    MarkedIfReached(bc);
  }

  /** Finds where the branch of a new tip leaves the current chain.

      It goes by the marks: it succeeds exactly if the first marked ancestor of the new
      tip is an ancestor of the current tip, and that is what it answers.  So it finds
      the highest common ancestor exactly if the marks lead there.  If they mark
      exactly the ancestors of the tip, the two lists are disjoint besides. */
  method FindForkPoint(bc: BlockChain, newTipHash: Hash) returns (r: Result<(Hash, seq<Block>, seq<Block>), ChainError>)
    requires Descending(bc.storage.db)
    ensures r.Ok? ==>
      var s, f, oldChain, newChain := bc.storage.db, r.value.0, r.value.1, r.value.2;
      && Branches(f, bc.bestHash, newTipHash, oldChain, newChain)
      && Loaded(s, oldChain) && Loaded(s, newChain)
      && IsOnMainChain(bc, f) && (forall i | 0 <= i < |newChain| :: !IsOnMainChain(bc, newChain[i].hash))
      && Reaches(s, bc.bestHash, f) && Reaches(s, newTipHash, f)
      && (HighestCommon(s, bc.bestHash, newTipHash, f)
          <==> forall i | 0 <= i < |newChain| :: !Reaches(s, bc.bestHash, newChain[i].hash))
    ensures r.Ok? ==> FirstMarked(bc, newTipHash, r.value.0)
    ensures r.Ok? ==>
      && r.value.0 in bc.tree.blockIndex && bc.tree.blockIndex[r.value.0].status == Connected
      && forall i | 0 <= i < |r.value.2| && r.value.2[i].hash in bc.tree.blockIndex ::
           bc.tree.blockIndex[r.value.2[i].hash].status != Connected
    ensures Loadable(bc.storage.db) ==>
      (r.Ok? <==> exists m :: FirstMarked(bc, newTipHash, m) && Reaches(bc.storage.db, bc.bestHash, m))
    ensures Loadable(bc.storage.db) ==>
      (r.Ok? && HighestCommon(bc.storage.db, bc.bestHash, newTipHash, r.value.0) <==> exists f :: MarksLeadTo(bc, newTipHash, f))
    ensures r.Ok? && MainMarked(bc) ==>
      && HighestCommon(bc.storage.db, bc.bestHash, newTipHash, r.value.0)
      && Apart(r.value.1, r.value.2)
    ensures r.Err? && MainMarked(bc) && Loadable(bc.storage.db) ==>
      forall a :: !(Reaches(bc.storage.db, bc.bestHash, a) && Reaches(bc.storage.db, newTipHash, a))
  {
    hide Store.GetBlock, SplitAt, FirstMarked, MarksLeadTo, HighestCommon, MainMarked, Apart, IsOnMainChain;
    var s := bc.storage.db;
    var newChain, currentHash := [], newTipHash;
    SplitStart(s, newTipHash);
    while currentHash != ZERO_HASH
      invariant Forward(newChain) && Loaded(s, newChain)
      invariant if newChain == [] then currentHash == newTipHash
                else newChain[0].prev == currentHash && newChain[|newChain| - 1].hash == newTipHash
      invariant forall i | 0 <= i < |newChain| :: !IsOnMainChain(bc, newChain[i].hash)
      invariant SplitAt(s, newTipHash, newChain, currentHash)
      invariant forall a | Reaches(s, newTipHash, a) && IsOnMainChain(bc, a) :: Reaches(s, currentHash, a)
      decreases Rank(s, currentHash)
    {
      var block := s.GetBlock(currentHash);
      if block.None? {
        if Loadable(s) { NoneMarked(bc, newTipHash); }
        return Err(BlockNotFound);
      }
      GetBlockFields(s, currentHash);
      assert Reaches(s, currentHash, currentHash);
      assert forall a | Reaches(s, s.blocks[currentHash].prev, a) :: Reaches(s, currentHash, a);
      ghost var before := newChain;
      SplitNext(s, newTipHash, newChain, block.value);
      newChain := [block.value] + newChain;
      currentHash := block.value.prev;
      if IsOnMainChain(bc, block.value.hash) {
        var forkPoint := block.value.hash;
        SplitReaches(s, newTipHash, before, forkPoint);
        var oldChain := OldBranch(bc, bc.bestHash, forkPoint);
        FirstMarkedIs(bc, newTipHash, forkPoint);
        FirstMarkedDecides(bc, newTipHash, forkPoint);
        if oldChain.Err? {
          return Err(oldChain.error);
        }
        assert newChain[1..] == before;
        if MainMarked(bc) { MarkedApart(bc, oldChain.value, before); }
        HighestIff(s, bc.bestHash, newTipHash, forkPoint, before);
        OnMainMeans(bc);
        return Ok((forkPoint, oldChain.value, newChain[1..]));
      }
    }
    assert forall a :: !Reaches(s, ZERO_HASH, a);
    NoneMarked(bc, newTipHash);
    return Err(NoCommonAncestor);
  }

  /** Blocks 12 and 22 both stand on block 11. */
  const FORKED: Store := Store(
    map[10 := CompactBlock(0, ZERO_HASH, []), 11 := CompactBlock(1, 10, []),
        12 := CompactBlock(2, 11, []), 22 := CompactBlock(2, 11, [])],
    map[], map[10 := 0, 11 := 1, 12 := 2, 22 := 2], map[0 := 10, 1 := 11, 2 := 12],
    map[], map[], map[0 := 0, 1 := 0, 2 := 0], Some(Tip(2, 12)))

  lemma ForkedReaches()
    ensures Descending(FORKED) && Reaches(FORKED, 12, 11) && Reaches(FORKED, 22, 11) && !Reaches(FORKED, 22, 12)
  {
    assert Reaches(FORKED, 11, 11);
    if Reaches(FORKED, 22, 12) { ReachesBelow(FORKED, 22, 12); }
  }

  /** Right after a restart only the tip is marked, and the search finds no fork point
      although there is one. */
  method ForkPointMissed(bc: BlockChain) returns (r: Result<(Hash, seq<Block>, seq<Block>), ChainError>)
    requires bc.storage.db == FORKED && bc.bestHash == 12 && bc.tree.blockIndex.Keys == {12}
    ensures Descending(FORKED) && Reaches(FORKED, bc.bestHash, 11) && Reaches(FORKED, 22, 11)
    ensures r.Err?
  {
    ForkedReaches();
    hide Reaches, Branches, Loaded, HighestCommon, MainMarked, Apart;
    r := FindForkPoint(bc, 22);
  }

  lemma MarkedIfReached(bc: BlockChain)
    requires Descending(bc.storage.db) && MainMarked(bc)
    ensures forall a | Reaches(bc.storage.db, bc.bestHash, a) :: a in bc.storage.db.blocks && IsOnMainChain(bc, a)
  {
    forall a | Reaches(bc.storage.db, bc.bestHash, a) ensures a in bc.storage.db.blocks {
      ReachesBelow(bc.storage.db, bc.bestHash, a);
    }
  }

  // ---------------------------------------------------------------- the best valid ancestor

  /** a is an ancestor of x other than x itself. */
  ghost predicate ProperAncestor(s: Store, x: Hash, a: Hash)
    requires Descending(s)
  {
    x in s.blocks && Reaches(s, s.blocks[x].prev, a)
  }

  /** a is the valid proper ancestor of x that all others lie below. */
  ghost predicate BestValid(s: Store, invalid: set<Hash>, x: Hash, a: Hash)
    requires Descending(s)
  {
    && ProperAncestor(s, x, a) && a !in invalid
    && forall b | ProperAncestor(s, x, b) && b !in invalid :: Reaches(s, a, b)
  }

  lemma BestValidIsHighest(s: Store, invalid: set<Hash>, x: Hash, a: Hash, b: Hash)
    requires Descending(s) && BestValid(s, invalid, x, a) && ProperAncestor(s, x, b) && b !in invalid
    ensures s.blocks.Keys >= {a, b} && s.blocks[b].height <= s.blocks[a].height
    ensures s.blocks[b].height == s.blocks[a].height ==> a == b
  {
    ReachesBelow(s, a, b);
    ReachesBelow(s, s.blocks[x].prev, a);
  }

  /** Between operations, every indexed block is stored and parents lie lower. */
  ghost predicate Walkable(bc: BlockChain)
    reads bc, bc.storage
  {
    && Descending(bc.storage.db) && bc.CacheAgrees() && bc.batchHeights.None?
    && bc.storage.db.hashToHeight.Keys <= bc.storage.db.blocks.Keys
  }

  ghost predicate DanglingParent(s: Store, x: Hash) {
    x in s.blocks && s.blocks[x].prev != ZERO_HASH && s.blocks[x].prev !in s.blocks
  }

  /** Walks back from a block to its first valid ancestor; genesis if there is none.
      The cycle check on the way never fires. */
  method FindBestValidAncestor(bc: BlockChain, hash: Hash, genesisHash: Hash) returns (r: Result<(nat, Hash), ChainError>)
    requires bc.Valid() || Walkable(bc)
    ensures Descending(bc.storage.db)
    ensures r.Ok? ==>
      var s, invalid := bc.storage.db, bc.tree.invalidBlocks;
      || (BestValid(s, invalid, hash, r.value.1) && r.value.1 in s.hashToHeight && r.value.0 == s.hashToHeight[r.value.1])
      || (r.value == (0, genesisHash) && forall b | ProperAncestor(s, hash, b) :: b in invalid)
    ensures r.Err? ==> r.error != CycleDetected
    ensures r.Err? && Loadable(bc.storage.db) && bc.storage.db.blocks.Keys == bc.storage.db.hashToHeight.Keys ==>
      hash !in bc.storage.db.blocks || exists x :: DanglingParent(bc.storage.db, x)
  {
    hide Store.GetBlock, BlockChain.Valid;
    if bc.Valid() { ValidDescending(bc); }
    var s, invalid := bc.storage.db, bc.tree.invalidBlocks;
    var block := s.GetBlock(hash);
    if block.None? {
      return Err(BlockNotFound);
    }
    GetBlockFields(s, hash);
    var visited := {hash};
    ghost var child := hash;
    var currentHash := block.value.prev;
    while currentHash != ZERO_HASH
      invariant child in s.blocks && s.blocks[child].prev == currentHash
      invariant forall v | v in visited :: v in s.blocks && s.blocks[v].height >= s.blocks[child].height
      invariant forall b | Reaches(s, currentHash, b) :: ProperAncestor(s, hash, b)
      invariant forall b | ProperAncestor(s, hash, b) && b !in invalid :: Reaches(s, currentHash, b)
      decreases Rank(s, currentHash)
    {
      assert currentHash !in s.blocks ==> DanglingParent(s, child);
      if currentHash in visited {
        return Err(CycleDetected);
      }
      visited := visited + {currentHash};
      if currentHash !in invalid {
        var height := bc.GetBlockHeight(currentHash);
        if height.None? {
          return Err(BlockNotFound);
        }
        return Ok((height.value, currentHash));
      }
      var ancestorBlock := s.GetBlock(currentHash);
      if ancestorBlock.None? {
        return Err(BlockNotFound);
      }
      GetBlockFields(s, currentHash);
      child := currentHash;
      currentHash := ancestorBlock.value.prev;
    }
    assert forall b :: !Reaches(s, ZERO_HASH, b);
    return Ok((0, genesisHash));
  }

  lemma ValidDescending(bc: BlockChain)
    requires bc.Valid()
    ensures Walkable(bc)
  {
    bc.ValidTip();
    bc.ValidParts();
    OneLineDescending(bc.storage.db);
  }
}
