/** The Merkle root of a list of hashes, as the block builder computes it level by level.

    HashPair stands for the double hash of two concatenated hashes; nothing is
    assumed about it except where a statement says so. */
module Merkle {
  import opened ChainTypes

  /** One level up: neighbours are combined, a last one without neighbour with itself. */
  function Level(pair: (Hash, Hash) -> Hash, hs: seq<Hash>): (r: seq<Hash>)
    ensures |r| == (|hs| + 1) / 2
  {
    if hs == [] then []
    else if |hs| == 1 then [pair(hs[0], hs[0])]
    else [pair(hs[0], hs[1])] + Level(pair, hs[2..])
  }

  /** The root: the single hash left after going up level by level. */
  function Root(pair: (Hash, Hash) -> Hash, hs: seq<Hash>): Hash
    decreases |hs|
  {
    if hs == [] then ZERO_HASH
    else if |hs| == 1 then hs[0]
    else Root(pair, Level(pair, hs))
  }

  lemma {:induction false} LevelAt(pair: (Hash, Hash) -> Hash, hs: seq<Hash>, i: nat)
    requires i < |Level(pair, hs)|
    ensures 2 * i < |hs|
    ensures Level(pair, hs)[i] == pair(hs[2 * i], hs[if 2 * i + 1 < |hs| then 2 * i + 1 else 2 * i])
  {
    if i > 0 {
      assert hs[2..][2 * (i - 1)] == hs[2 * i];
      LevelAt(pair, hs[2..], i - 1);
    }
  }

  lemma LevelIs(pair: (Hash, Hash) -> Hash, hs: seq<Hash>, padded: seq<Hash>, next: seq<Hash>)
    requires hs != [] && padded == (if |hs| % 2 == 1 then hs + [hs[|hs| - 1]] else hs)
    requires |next| == |padded| / 2
    requires forall j | 0 <= j < |next| :: next[j] == pair(padded[2 * j], padded[2 * j + 1])
    ensures next == Level(pair, hs) && |next| <= |hs|
  {
    hide Level;
    assert |next| == (|hs| + 1) / 2 == |Level(pair, hs)|;
    forall j | 0 <= j < |next| ensures next[j] == Level(pair, hs)[j] {
      LevelAt(pair, hs, j);
    }
  }

  /** One level of the loop: pad an odd level with its last hash, then replace it by the pairs. */
  method Combine(pair: (Hash, Hash) -> Hash, level: seq<Hash>) returns (next: seq<Hash>)
    requires level != []
    ensures next == Level(pair, level)
  {
    hide Level;
    var hashes := level;
    if |hashes| % 2 != 0 {
      hashes := hashes + [hashes[|hashes| - 1]];
    }
    var newHashes := new Hash[|hashes| / 2];
    for i := 0 to |hashes| / 2
      invariant forall j | 0 <= j < i :: newHashes[j] == pair(hashes[2 * j], hashes[2 * j + 1])
    {
      newHashes[i] := pair(hashes[2 * i], hashes[2 * i + 1]);
    }
    next := newHashes[..];
    LevelIs(pair, level, hashes, next);
  }

  method CalculateMerkleRoot(pair: (Hash, Hash) -> Hash, txids: seq<Hash>) returns (root: Hash)
    ensures root == Root(pair, txids)
  {
    hide Level;
    if txids == [] {
      return ZERO_HASH;
    }
    var hashes := txids;
    while |hashes| > 1
      invariant hashes != [] && Root(pair, hashes) == Root(pair, txids)
      decreases |hashes|
    {
      hashes := Combine(pair, hashes);
    }
    return hashes[0];
  }

  // ---------------------------------------------------------------- authentication paths

  /** One step of a path: the sibling and the side it stands on. */
  datatype Step = Step(sibling: Hash, left: bool)

  /** The hash a path leads to from a leaf. */
  function Follow(pair: (Hash, Hash) -> Hash, leaf: Hash, path: seq<Step>): Hash
    decreases |path|
  {
    if path == [] then leaf
    else Follow(pair, if path[0].left then pair(path[0].sibling, leaf) else pair(leaf, path[0].sibling), path[1..])
  }

  /** The siblings of leaf i on its way up. */
  function Path(pair: (Hash, Hash) -> Hash, hs: seq<Hash>, i: nat): seq<Step>
    requires i < |hs|
    decreases |hs|
  {
    if |hs| == 1 then []
    else
      var step := if i % 2 == 1 then Step(hs[i - 1], true) else Step(hs[if i + 1 < |hs| then i + 1 else i], false);
      [step] + Path(pair, Level(pair, hs), i / 2)
  }

  /** Every leaf is authenticated by its path. */
  lemma {:induction false} PathLeadsToRoot(pair: (Hash, Hash) -> Hash, hs: seq<Hash>, i: nat)
    requires i < |hs|
    ensures Follow(pair, hs[i], Path(pair, hs, i)) == Root(pair, hs)
    decreases |hs|
  {
    hide Level;
    if |hs| > 1 {
      LevelAt(pair, hs, i / 2);
      PathLeadsToRoot(pair, Level(pair, hs), i / 2);
      assert Path(pair, hs, i)[1..] == Path(pair, Level(pair, hs), i / 2);
    }
  }

  /** The roots of up to three hashes. */
  lemma SmallRoots(pair: (Hash, Hash) -> Hash, a: Hash, b: Hash, c: Hash)
    ensures Root(pair, []) == 0 && Root(pair, [a]) == a && Root(pair, [a, b]) == pair(a, b)
    ensures Root(pair, [a, b, c]) == pair(pair(a, b), pair(c, c))
  {
    assert [a, b][2..] == [] && [a, b, c][2..] == [c];
    assert Level(pair, [a, b]) == [pair(a, b)] && Level(pair, [a, b, c]) == [pair(a, b)] + [pair(c, c)];
    assert Level(pair, []) == [] && [pair(a, b)] + [pair(c, c)] == [pair(a, b), pair(c, c)];
    assert [pair(a, b), pair(c, c)][2..] == [];
    assert Level(pair, [pair(a, b), pair(c, c)]) == [pair(pair(a, b), pair(c, c))];
    assert Root(pair, [pair(a, b), pair(c, c)]) == pair(pair(a, b), pair(c, c));
    assert Level(pair, [c]) == [pair(c, c)] && Level(pair, [a, b, c]) == [pair(a, b), pair(c, c)];
  }

  // ---------------------------------------------------------------- binding

  /** Two different pairs with the same hash. */
  ghost predicate Collision(pair: (Hash, Hash) -> Hash) {
    exists a, b, c, d :: pair(a, b) == pair(c, d) && (a != c || b != d)
  }

  /** Two lists of one length with the same root are equal, or the pairing has a collision. */
  lemma {:induction false} RootBinds(pair: (Hash, Hash) -> Hash, xs: seq<Hash>, ys: seq<Hash>)
    requires |xs| == |ys| && Root(pair, xs) == Root(pair, ys)
    ensures xs == ys || Collision(pair)
    decreases |xs|
  {
    hide Level;
    if |xs| > 1 && !Collision(pair) {
      RootBinds(pair, Level(pair, xs), Level(pair, ys));
      forall i | 0 <= i < |xs| ensures xs[i] == ys[i] {
        LevelAt(pair, xs, i / 2);
        LevelAt(pair, ys, i / 2);
      }
    } else if |xs| == 1 {
      assert xs == [xs[0]] && ys == [ys[0]];
    }
  }

  /** For lists of different lengths it does not: repeating the last hash of an odd
      list changes nothing, whatever the pairing. */
  lemma {:induction false} DuplicateLast(pair: (Hash, Hash) -> Hash, hs: seq<Hash>)
    requires |hs| > 1 && |hs| % 2 == 1
    ensures Root(pair, hs + [hs[|hs| - 1]]) == Root(pair, hs)
  {
    var padded := hs + [hs[|hs| - 1]];
    forall i | 0 <= i < |Level(pair, hs)| ensures Level(pair, hs)[i] == Level(pair, padded)[i] {
      LevelAt(pair, hs, i);
      LevelAt(pair, padded, i);
    }
    assert Level(pair, hs) == Level(pair, padded);
  }
}
