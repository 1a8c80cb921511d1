/** What rolling back does to the two height indexes of any database, consistent
    or not: entries only disappear, and at or below the target height a
    hash→height entry and the height→hash entry at its height go together. */
module Pruning {
  import opened ChainTypes
  import opened Storage
  import opened Connect
  import opened Orphans

  ghost predicate OnlyRemoved<K, V>(m: map<K, V>, n: map<K, V>) {
    forall k | k in n :: k in m && n[k] == m[k]
  }

  /** v is s after removals that keep the two indexes in step at or below height h. */
  ghost predicate Pruned(s: Store, v: Store, h: nat) {
    && OnlyRemoved(s.hashToHeight, v.hashToHeight)
    && OnlyRemoved(s.heightToHash, v.heightToHash)
    && (forall x | x in s.hashToHeight && x !in v.hashToHeight && s.hashToHeight[x] <= h ::
          s.hashToHeight[x] !in v.heightToHash)
    && (forall k | k in s.heightToHash && k !in v.heightToHash && k <= h ::
          exists x :: x in s.hashToHeight && x !in v.hashToHeight && s.hashToHeight[x] == k)
  }

  lemma PrunedStart(s: Store, h: nat)
    ensures Pruned(s, s, h)
  {
  }

  lemma PrunedTwice(s: Store, v: Store, w: Store, h: nat)
    requires Pruned(s, v, h) && Pruned(v, w, h)
    ensures Pruned(s, w, h)
  {
    forall k | k in s.heightToHash && k !in w.heightToHash && k <= h
      ensures exists y :: y in s.hashToHeight && y !in w.hashToHeight && s.hashToHeight[y] == k
    {
      if k in v.heightToHash {
        var y :| y in v.hashToHeight && y !in w.hashToHeight && v.hashToHeight[y] == k;
        assert y in s.hashToHeight && s.hashToHeight[y] == k;
      } else {
        var y :| y in s.hashToHeight && y !in v.hashToHeight && s.hashToHeight[y] == k;
        assert y !in w.hashToHeight;
      }
    }
  }

  /** Removing one hash together with the height it is entered at. */
  lemma PrunedBoth(s: Store, v: Store, w: Store, h: nat, x: Hash)
    requires Pruned(s, v, h) && x in v.hashToHeight
    requires w.hashToHeight == v.hashToHeight - {x} && w.heightToHash == v.heightToHash - {v.hashToHeight[x]}
    ensures Pruned(s, w, h)
  {
    forall k | k in s.heightToHash && k !in w.heightToHash && k <= h
      ensures exists y :: y in s.hashToHeight && y !in w.hashToHeight && s.hashToHeight[y] == k
    {
      if k in v.heightToHash {
        assert x in s.hashToHeight && x !in w.hashToHeight && s.hashToHeight[x] == k;
      } else {
        var y :| y in s.hashToHeight && y !in v.hashToHeight && s.hashToHeight[y] == k;
        assert y !in w.hashToHeight;
      }
    }
  }

  lemma PrunedDisconnect(s: Store, v: Store, h: nat, b: Block)
    requires Pruned(s, v, h) && DisconnectBlock(v, b).Ok?
    ensures Pruned(s, DisconnectBlock(v, b).value, h)
  {
    hide Pruned, UndoTxs;
    PrunedBoth(s, v, DisconnectBlock(v, b).value, h, b.hash);
  }

  lemma PrunedDelete(s: Store, v: Store, h: nat, x: Hash)
    requires Pruned(s, v, h) && Orphans.DeleteBlock(v, x).Ok?
    ensures Pruned(s, Orphans.DeleteBlock(v, x).value, h)
  {
    hide Pruned;
    PrunedBoth(s, v, Orphans.DeleteBlock(v, x).value, h, x);
  }

  /** The orphan cleanup removes entries above the target only. */
  lemma PrunedClean(s: Store, v: Store, w: Store, h: nat)
    requires Pruned(s, v, h)
    requires w.hashToHeight == v.hashToHeight - Above(v, h)
    requires OnlyRemoved(v.heightToHash, w.heightToHash)
    requires forall k | k in v.heightToHash && k <= h :: k in w.heightToHash
    ensures Pruned(s, w, h)
    ensures forall x | x in w.hashToHeight :: w.hashToHeight[x] <= h
  {
    forall k | k in s.heightToHash && k !in w.heightToHash && k <= h
      ensures exists y :: y in s.hashToHeight && y !in w.hashToHeight && s.hashToHeight[y] == k
    {
      var y :| y in s.hashToHeight && y !in v.hashToHeight && s.hashToHeight[y] == k;
      assert y !in w.hashToHeight;
    }
  }

  // ---------------------------------------------------------------- consistency of the indexes

  /** The height→hash entry at the height of x names x. */
  predicate Consistent(s: Store, x: Hash)
    requires x in s.hashToHeight
  {
    s.hashToHeight[x] in s.heightToHash && s.heightToHash[s.hashToHeight[x]] == x
  }

  predicate AllConsistent(s: Store) {
    forall x | x in s.hashToHeight :: Consistent(s, x)
  }

  /** If everything up to the target was consistent, what survives at or below it still is. */
  lemma PrunedConsistent(s: Store, v: Store, h: nat)
    requires Pruned(s, v, h)
    requires forall x | x in s.hashToHeight && s.hashToHeight[x] <= h :: Consistent(s, x)
    ensures forall x | x in v.hashToHeight && v.hashToHeight[x] <= h :: Consistent(v, x)
  {
    forall x | x in v.hashToHeight && v.hashToHeight[x] <= h
      ensures Consistent(v, x)
    {
      var k := v.hashToHeight[x];
      assert Consistent(s, x);
      assert forall y | y in s.hashToHeight && s.hashToHeight[y] == k :: Consistent(s, y) && y == x;
    }
  }

  /** An inconsistent entry at or below the target stays one as long as its height is entered. */
  lemma PrunedInconsistent(s: Store, v: Store, h: nat, x: Hash)
    requires Pruned(s, v, h) && x in s.hashToHeight && s.hashToHeight[x] <= h && !Consistent(s, x)
    requires s.hashToHeight[x] in v.heightToHash
    ensures x in v.hashToHeight && !Consistent(v, x)
  {
  }
}
