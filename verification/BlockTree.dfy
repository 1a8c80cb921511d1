/** The in-memory tree of blocks: nodes linked to their parents, the index over
    them, and the invalid markers. */
module BlockTree {
  import opened Wrappers
  import opened ChainTypes

  datatype BlockStatus = StatusNone | HeaderValid | Valid | Invalid | Connected

  class BlockNode {
    const hash: Hash
    const height: nat
    const work: nat
    const parent: BlockNode?
    var status: BlockStatus

    constructor (hash: Hash, height: nat, work: nat, parent: BlockNode?, status: BlockStatus)
      ensures this.hash == hash && this.height == height && this.work == work
      ensures this.parent == parent && this.status == status
    {
      this.hash, this.height, this.work := hash, height, work;
      this.parent, this.status := parent, status;
    }
  }

  /** A node's work equals its height and a known parent is exactly one lower, all the way up. */
  ghost predicate Linear(n: BlockNode)
    decreases n.height
  {
    && n.work == n.height
    && (n.parent != null ==> n.parent.height + 1 == n.height && Linear(n.parent))
  }

  /** Some node on the way from n to its root, n included, carries this hash. */
  ghost predicate Descends(n: BlockNode, ancestor: Hash)
    requires Linear(n)
    decreases n.height
  {
    n.hash == ancestor || (n.parent != null && Descends(n.parent, ancestor))
  }

  /** The k-th ancestor of n, if the known part of the tree reaches that far. */
  ghost function Ancestor(n: BlockNode, k: nat): BlockNode? {
    if k == 0 then n
    else if n.parent == null then null
    else Ancestor(n.parent, k - 1)
  }

  /** Descending from a hash means having it at some distance above, and that
      distance is the difference in height. */
  lemma {:induction false} DescendsIffAncestor(n: BlockNode, a: Hash)
    requires Linear(n)
    ensures Descends(n, a) <==> exists k: nat :: AncestorIs(n, k, a)
    ensures forall k: nat | AncestorIs(n, k, a) :: Ancestor(n, k).height + k == n.height
    decreases n.height
  {
    assert AncestorIs(n, 0, n.hash);
    if n.parent != null {
      DescendsIffAncestor(n.parent, a);
      forall k: nat | AncestorIs(n.parent, k, a) ensures AncestorIs(n, k + 1, a) {
      }
      forall k: nat | AncestorIs(n, k, a) && k > 0 ensures AncestorIs(n.parent, k - 1, a) {
      }
    }
  }

  ghost predicate AncestorIs(n: BlockNode, k: nat, a: Hash) {
    var m := Ancestor(n, k);
    m != null && m.hash == a
  }

  class Tree {
    var blockIndex: map<Hash, BlockNode>
    var invalidBlocks: set<Hash>  // kept in the database, one key per invalid block

    ghost predicate Good()
      reads this
    {
      forall h | h in blockIndex :: blockIndex[h].hash == h && Linear(blockIndex[h])
    }

    constructor ()
      ensures blockIndex == map[] && invalidBlocks == {} && Good()
    {
      blockIndex, invalidBlocks := map[], {};
    }

    /** Enters a block under its parent node; the tree stays good if that node, where
        it is known, is one height below. */
    method UpdateBlockIndex(block: Block, height: nat, status: BlockStatus)
      modifies this`blockIndex
      ensures
        old(Good()) && (block.prev != ZERO_HASH && block.prev in old(blockIndex) ==> old(blockIndex[block.prev]).height + 1 == height)
        ==> Good()
      ensures blockIndex.Keys == old(blockIndex).Keys + {block.hash}
      ensures forall h | h in old(blockIndex) && h != block.hash :: blockIndex[h] == old(blockIndex[h])
      ensures fresh(blockIndex[block.hash])
      ensures blockIndex[block.hash].height == height && blockIndex[block.hash].status == status
      ensures blockIndex[block.hash].work
           == if block.prev != ZERO_HASH && block.prev in old(blockIndex) then old(blockIndex[block.prev]).work + 1 else height
      ensures blockIndex[block.hash].parent
           == if block.prev != ZERO_HASH && block.prev in old(blockIndex) then old(blockIndex[block.prev]) else null
    {
      var parent: BlockNode? := null;
      if block.prev != ZERO_HASH && block.prev in blockIndex {
        parent := blockIndex[block.prev];
      }
      var work := height;
      if parent != null {
        work := parent.work + 1;
      }
      var node := new BlockNode(block.hash, height, work, parent, status);
      blockIndex := blockIndex[block.hash := node];
    }

    method Remove(hash: Hash)
      modifies this`blockIndex
      ensures blockIndex == old(blockIndex) - {hash}
      ensures old(Good()) ==> Good()
    {
      blockIndex := blockIndex - {hash};
    }

    /** Drops every node above a height. */
    method RemoveAbove(height: nat)
      modifies this`blockIndex
      ensures old(Good()) ==> Good()
      ensures blockIndex == map h | h in old(blockIndex) && old(blockIndex[h]).height <= height :: old(blockIndex[h])
    {
      var keys := blockIndex.Keys;
      while keys != {}
        invariant keys <= old(blockIndex).Keys
        invariant blockIndex == map h | h in old(blockIndex) && (h in keys || old(blockIndex[h]).height <= height) :: old(blockIndex[h])
        decreases keys
      {
        var h :| h in keys;
        if blockIndex[h].height > height {
          blockIndex := blockIndex - {h};
        }
        keys := keys - {h};
      }
    }

    /** Walks up the parent links. */
    method IsDescendantOf(blockHash: Hash, ancestorHash: Hash) returns (r: bool)
      requires Good()
      ensures r <==> blockHash in blockIndex && Descends(blockIndex[blockHash], ancestorHash)
    {
      if blockHash !in blockIndex {
        return false;
      }
      var node: BlockNode? := blockIndex[blockHash];
      while node != null
        invariant node != null ==> Linear(node)
        invariant Descends(blockIndex[blockHash], ancestorHash) <==> node != null && Descends(node, ancestorHash)
        decreases if node == null then 0 else node.height + 1
      {
        if node.hash == ancestorHash {
          return true;
        }
        node := node.parent;
      }
      return false;
    }

    /** The indexed blocks below a hash, itself included. */
    ghost function Subtree(a: Hash): set<Hash>
      requires Good()
      reads this
    {
      set h | h in blockIndex && Descends(blockIndex[h], a)
    }

    /** Marks exactly the subtree of a block as invalid, in the database and in the nodes. */
    method MarkDescendantsInvalid(parentHash: Hash)
      requires Good()
      modifies this`invalidBlocks, blockIndex.Values`status
      ensures Good() && invalidBlocks == old(invalidBlocks) + Subtree(parentHash)
      ensures forall h | h in blockIndex ::
        blockIndex[h].status == if h in Subtree(parentHash) then Invalid else old(blockIndex[h].status)
    {
      var keys := blockIndex.Keys;
      while keys != {}
        invariant Good() && keys <= blockIndex.Keys
        invariant invalidBlocks == old(invalidBlocks) + (Subtree(parentHash) - keys)
        invariant forall h | h in blockIndex ::
          blockIndex[h].status == if h in Subtree(parentHash) && h !in keys then Invalid else old(blockIndex[h].status)
        decreases keys
      {
        var hash :| hash in keys;
        var node := blockIndex[hash];
        var below := IsDescendantOf(hash, parentHash);
        if below {
          invalidBlocks := invalidBlocks + {hash};
          node.status := Invalid;
        }
        keys := keys - {hash};
      }
    }

    /** A valid node of greatest height, and whether it differs from the current best. */
    method FindBestChain(bestHash: Hash) returns (r: Result<(nat, Hash, bool), ChainError>)
      requires Good()
      ensures r.Err? <==> blockIndex.Keys <= invalidBlocks
      ensures r.Ok? ==>
        && r.value.1 in blockIndex && r.value.1 !in invalidBlocks
        && blockIndex[r.value.1].height == r.value.0
        && (forall h | h in blockIndex && h !in invalidBlocks :: blockIndex[h].height <= r.value.0)
        && r.value.2 == (r.value.1 != bestHash)
    {
      var bestNode: BlockNode? := null;
      var keys := blockIndex.Keys;
      while keys != {}
        invariant keys <= blockIndex.Keys
        invariant bestNode == null ==> blockIndex.Keys - keys <= invalidBlocks
        invariant bestNode != null ==>
          && bestNode.hash in blockIndex && blockIndex[bestNode.hash] == bestNode && bestNode.hash !in invalidBlocks
          && forall h | h in blockIndex && h !in keys && h !in invalidBlocks :: blockIndex[h].work <= bestNode.work
        decreases keys
      {
        var hash :| hash in keys;
        var node := blockIndex[hash];
        keys := keys - {hash};
        if hash in invalidBlocks {
          continue;
        }
        if bestNode == null || node.work > bestNode.work {
          bestNode := node;
        }
      }
      if bestNode == null {
        return Err(NoCommonAncestor);
      }
      return Ok((bestNode.height, bestNode.hash, bestNode.hash != bestHash));
    }

    /** A reorganisation is due exactly if the new block lies above the tip, or there is no tip. */
    method CheckReorgNeeded(blockHash: Hash, bestHash: Hash) returns (r: Result<bool, ChainError>)
      requires Good()
      ensures r.Err? <==> blockHash !in blockIndex
      ensures r.Ok? ==> (r.value <==> bestHash !in blockIndex || blockIndex[blockHash].height > blockIndex[bestHash].height)
    {
      if blockHash !in blockIndex {
        return Err(BlockNotFound);
      }
      if bestHash !in blockIndex {
        return Ok(true);
      }
      return Ok(blockIndex[blockHash].work > blockIndex[bestHash].work);
    }
  }
}
