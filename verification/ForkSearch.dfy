/** Where a stored chain is broken: the parent link at a height, the result of the
    corruption search, and the segment check of the fork-point search. */
module ForkSearch {
  import opened Wrappers
  import opened ChainTypes
  import opened Storage
  import opened Lines

  const MAX_SEARCH_DEPTH: nat := 10000
  const SEARCH_CHUNK: nat := 1000

  predicate Present(s: Store, h: nat) {
    s.GetBlockByHeight(h).Some?
  }

  /** The block at height h is stored, and so is its parent, one height below. */
  predicate Joined(s: Store, h: nat) {
    h > 0 && Present(s, h)
    && s.GetBlock(s.GetBlockByHeight(h).value.prev).Some?
    && Present(s, h - 1)
    && s.GetBlockByHeight(h - 1).value.hash == s.GetBlockByHeight(h).value.prev
  }

  /** The search goes no deeper than this. */
  function Floor(from: nat): nat {
    if from > MAX_SEARCH_DEPTH then from - MAX_SEARCH_DEPTH else 0
  }

  ghost predicate AllJoined(s: Store, lo: nat, hi: nat) {
    forall h: nat | lo < h <= hi :: Joined(s, h)
  }

  ghost predicate AllMissing(s: Store, lo: nat, hi: nat) {
    forall h: nat | lo < h <= hi :: !Present(s, h)
  }

  /** Lowest height the search looks at while it finds nothing wrong. */
  function WindowFloor(from: nat): nat {
    if from > SEARCH_CHUNK + 1 then from - SEARCH_CHUNK - 1 else 0
  }

  /** What the corruption search answers.  If the top block is there, the first
      broken link below it counts, within a window of 1001 blocks.  If it is
      missing, the search goes on until it meets a block, at most 10000 deep. */
  ghost predicate CorruptionPoint(s: Store, from: nat, c: nat) {
    if from == 0 then c == 0
    else if Present(s, from) then
      if AllJoined(s, WindowFloor(from), from) then c == 0
      else WindowFloor(from) <= c < from && Present(s, c + 1) && !Joined(s, c + 1) && AllJoined(s, c + 1, from)
    else if AllMissing(s, Floor(from), from) then c == Floor(from) + 1
    else exists j: nat :: FirstFound(s, from, j) && c == if Joined(s, j) then from else j - 1
  }

  /** j is the highest stored height below a missing run that starts at from. */
  ghost predicate FirstFound(s: Store, from: nat, j: nat) {
    Floor(from) < j < from && Present(s, j) && AllMissing(s, j, from)
  }

  /** A height is joined exactly if the block there names the block found one below it
      as its parent, and that parent loads. */
  lemma JoinedMeans(s: Store, h: nat)
    ensures Joined(s, h) <==>
      h > 0 && exists b, p ::
        s.GetBlockByHeight(h) == Some(b) && s.GetBlockByHeight(h - 1) == Some(p) && b.prev == p.hash && s.GetBlock(b.prev).Some?
  {
    hide Store.GetBlock, Store.GetBlockByHeight;
    if Joined(s, h) {
      var b, p := s.GetBlockByHeight(h).value, s.GetBlockByHeight(h - 1).value;
      assert s.GetBlockByHeight(h) == Some(b) && s.GetBlockByHeight(h - 1) == Some(p);
    }
  }

  /** Exactly when the search reports no corruption. */
  lemma NoCorruptionIff(s: Store, from: nat, c: nat)
    requires CorruptionPoint(s, from, c)
    ensures c == 0 <==>
      || from == 0
      || AllJoined(s, if from > 1001 then from - 1001 else 0, from)
      || (Present(s, 1) && !Joined(s, 1) && from <= 1001 && AllJoined(s, 1, from))
      || (Present(s, 1) && !Joined(s, 1) && 1 < from <= 10000 && AllMissing(s, 1, from))
  {
    assert Joined(s, from) ==> Present(s, from);
    hide Joined;
    if from > 0 && !Present(s, from) && !AllMissing(s, Floor(from), from) {
      var j: nat :| FirstFound(s, from, j) && c == if Joined(s, j) then from else j - 1;
      assert AllMissing(s, 1, from) && Present(s, 1) ==> j == 1;
    }
  }

  lemma BrokenBelow(s: Store, lo: nat, hi: nat, h: nat)
    requires AllJoined(s, lo, hi) && !Joined(s, h) && h <= hi
    ensures h <= lo
  {
  }

  /** The search has one answer. */
  lemma CorruptionUnique(s: Store, from: nat, c: nat, d: nat)
    requires CorruptionPoint(s, from, c) && CorruptionPoint(s, from, d)
    ensures c == d
  {
    hide Joined, Present;
    if from > 0 && Present(s, from) && !AllJoined(s, WindowFloor(from), from) {
      BrokenBelow(s, c + 1, from, d + 1);
      BrokenBelow(s, d + 1, from, c + 1);
    }
  }

  /** A reported height really is damaged: missing, or cut off from the block above or below it. */
  lemma CorruptionSound(s: Store, from: nat, c: nat)
    requires CorruptionPoint(s, from, c) && c > 0
    ensures !Present(s, c) || !Joined(s, c + 1)
  {
  }

  /** How deep the search goes: 1001 blocks below a top block that is there, 10000 where
      none is found. */
  lemma CorruptionDepth(s: Store, from: nat, c: nat)
    requires CorruptionPoint(s, from, c)
    ensures Present(s, from) ==> c == 0 || c + 1001 >= from
    ensures from > 0 && (forall h: nat | (if from > 10000 then from - 10000 else 0) < h <= from :: !Present(s, h)) ==>
      c == (if from > 10000 then from - 10000 else 0) + 1
  {
    hide Present, Joined;
  }

  /** A store that stands on a chain has every link in place. */
  lemma StandsJoined(s: Store, c: seq<Block>, k: nat)
    requires Stands(s, c) && 0 < k < |c|
    ensures Joined(s, k)
  {
    hide Stands, Store.GetBlock;
    StandsGetBlock(s, c, k);
    StandsGetBlock(s, c, k - 1);
    StandsLinked(s, c, k);
  }

  /** Block 11 at height 1, whose parent is not stored. */
  const CUT_AT_ONE: Store := Store(
    map[11 := CompactBlock(1, 99, [])], map[], map[11 := 1], map[1 := 11], map[], map[], map[], Some(Tip(1, 11)))

  /** With the link of block 1 broken the search answers 0, which means no corruption;
      and it does when heights 2 and 3 are missing besides. */
  lemma BrokenLinkMissed()
    ensures Present(CUT_AT_ONE, 1) && !Joined(CUT_AT_ONE, 1) && !Present(CUT_AT_ONE, 3)
    ensures CorruptionPoint(CUT_AT_ONE, 1, 0) && CorruptionPoint(CUT_AT_ONE, 3, 0)
    ensures forall c | CorruptionPoint(CUT_AT_ONE, 1, c) || CorruptionPoint(CUT_AT_ONE, 3, c) :: c == 0
  {
    assert CUT_AT_ONE.GetBlock(11).Some? && CUT_AT_ONE.GetBlock(99).None?;
    assert FirstFound(CUT_AT_ONE, 3, 1) && WindowFloor(1) == Floor(3) == 0;
    forall c | CorruptionPoint(CUT_AT_ONE, 1, c) ensures c == 0 { CorruptionUnique(CUT_AT_ONE, 1, 0, c); }
    forall c | CorruptionPoint(CUT_AT_ONE, 3, c) ensures c == 0 { CorruptionUnique(CUT_AT_ONE, 3, 0, c); }
  }

  // ---------------------------------------------------------------- segments and fork points

  const SEGMENT: nat := 10

  /** n blocks can be walked down from this hash, and none contradicts a checkpoint. */
  predicate Walks(s: Store, checkpoints: map<nat, Hash>, badBlocks: map<nat, Hash>, hash: Hash, h: nat, n: nat)
    decreases n
  {
    n == 0 || n > h || (
      && s.GetBlock(hash).Some?
      && (h in checkpoints ==> !(h in badBlocks && badBlocks[h] == hash) && checkpoints[h] == hash)
      && Walks(s, checkpoints, badBlocks, s.GetBlock(hash).value.prev, h - 1, n - 1))
  }

  /** These blocks load, each being the parent of the one before, and those at a pinned
      height carry the pinned hash and are not blacklisted there.  The first is at height h. */
  ghost predicate Segment(s: Store, checkpoints: map<nat, Hash>, badBlocks: map<nat, Hash>, h: nat, path: seq<Block>) {
    && |path| <= h
    && (forall i | 0 <= i < |path| :: s.GetBlock(path[i].hash) == Some(path[i]))
    && (forall i | 0 < i < |path| :: path[i - 1].prev == path[i].hash)
    && (forall i | 0 <= i < |path| && h - i in checkpoints ::
          path[i].hash == checkpoints[h - i] && (h - i in badBlocks ==> badBlocks[h - i] != path[i].hash))
  }

  /** The walk gets through exactly if there is such a segment from this hash down. */
  lemma {:induction false} WalksIff(s: Store, checkpoints: map<nat, Hash>, badBlocks: map<nat, Hash>, hash: Hash, h: nat, n: nat)
    requires n <= h
    ensures Walks(s, checkpoints, badBlocks, hash, h, n)
       <==> exists path: seq<Block> :: Segment(s, checkpoints, badBlocks, h, path) && |path| == n && (n > 0 ==> path[0].hash == hash)
    decreases n
  {
    hide Store.GetBlock;
    if n == 0 {
      assert Segment(s, checkpoints, badBlocks, h, []);
    } else {
      LoadsItself(s, hash);
      if s.GetBlock(hash).Some? {
        var b := s.GetBlock(hash).value;
        WalksIff(s, checkpoints, badBlocks, b.prev, h - 1, n - 1);
        if Walks(s, checkpoints, badBlocks, hash, h, n) {
          var rest: seq<Block> :| Segment(s, checkpoints, badBlocks, h - 1, rest) && |rest| == n - 1 && (n - 1 > 0 ==> rest[0].hash == b.prev);
          SegmentOn(s, checkpoints, badBlocks, h, b, rest);
        }
      }
      if exists path: seq<Block> :: Segment(s, checkpoints, badBlocks, h, path) && |path| == n && path[0].hash == hash {
        var path: seq<Block> :| Segment(s, checkpoints, badBlocks, h, path) && |path| == n && path[0].hash == hash;
        SegmentBelow(s, checkpoints, badBlocks, h, path);
        assert s.GetBlock(hash) == Some(path[0]) && |path[1..]| == n - 1;
      }
    }
  }

  lemma LoadsItself(s: Store, hash: Hash)
    ensures s.GetBlock(hash).Some? ==> s.GetBlock(hash).value.hash == hash
  {
  }

  lemma SegmentOn(s: Store, checkpoints: map<nat, Hash>, badBlocks: map<nat, Hash>, h: nat, b: Block, rest: seq<Block>)
    requires h > 0 && Segment(s, checkpoints, badBlocks, h - 1, rest) && s.GetBlock(b.hash) == Some(b)
    requires rest != [] ==> rest[0].hash == b.prev
    requires h in checkpoints ==> b.hash == checkpoints[h] && (h in badBlocks ==> badBlocks[h] != b.hash)
    ensures Segment(s, checkpoints, badBlocks, h, [b] + rest)
  {
    hide Store.GetBlock;
    var path := [b] + rest;
    forall i | 0 <= i < |path| && h - i in checkpoints
      ensures path[i].hash == checkpoints[h - i] && (h - i in badBlocks ==> badBlocks[h - i] != path[i].hash)
    {
      if i > 0 { assert path[i] == rest[i - 1] && h - i == h - 1 - (i - 1); }
    }
  }

  lemma SegmentBelow(s: Store, checkpoints: map<nat, Hash>, badBlocks: map<nat, Hash>, h: nat, path: seq<Block>)
    requires Segment(s, checkpoints, badBlocks, h, path) && path != []
    ensures Segment(s, checkpoints, badBlocks, h - 1, path[1..])
    ensures |path| > 1 ==> path[1..][0].hash == path[0].prev
    ensures h in checkpoints ==> path[0].hash == checkpoints[h] && (h in badBlocks ==> badBlocks[h] != path[0].hash)
  {
    hide Store.GetBlock;
    var rest := path[1..];
    forall i | 0 <= i < |rest| && h - 1 - i in checkpoints
      ensures rest[i].hash == checkpoints[h - 1 - i] && (h - 1 - i in badBlocks ==> badBlocks[h - 1 - i] != rest[i].hash)
    {
      assert rest[i] == path[i + 1] && h - (i + 1) == h - 1 - i;
    }
  }

  /** The block at height h is stored on top of a sound segment of up to ten blocks. */
  predicate Usable(s: Store, checkpoints: map<nat, Hash>, badBlocks: map<nat, Hash>, h: nat) {
    && h > 0 && Present(s, h)
    && Walks(s, checkpoints, badBlocks, s.heightToHash[h], h, if h < SEGMENT then h else SEGMENT)
  }

  /** A height is usable exactly if such a segment of up to ten blocks hangs on the block found there. */
  lemma UsableIff(s: Store, checkpoints: map<nat, Hash>, badBlocks: map<nat, Hash>, h: nat)
    ensures Usable(s, checkpoints, badBlocks, h)
       <==> h > 0 && Present(s, h)
            && exists path: seq<Block> ::
                 && Segment(s, checkpoints, badBlocks, h, path)
                 && |path| == (if h < 10 then h else 10) && path[0].hash == s.heightToHash[h]
  {
    hide Store.GetBlock, Walks, Segment;
    if h > 0 && Present(s, h) {
      WalksIff(s, checkpoints, badBlocks, s.heightToHash[h], h, if h < 10 then h else 10);
    }
  }

  /** m is the highest checkpoint height in 1..h, or 0 if there is none. */
  ghost predicate NearestBelow(checkpoints: map<nat, Hash>, h: nat, m: nat) {
    && m <= h && (m > 0 ==> m in checkpoints)
    && forall k | k in checkpoints && k <= h :: k <= m
  }

  /** What the fork-point search answers: the highest usable height above the
      nearest checkpoint, that checkpoint if there is none, or genesis. */
  ghost predicate ForkPointAt(s: Store, checkpoints: map<nat, Hash>, badBlocks: map<nat, Hash>, m: nat, h: nat, f: nat, hash: Hash) {
    && (m <= f <= h || (f == m && h <= m))
    && (forall k: nat | f < k <= h :: !Usable(s, checkpoints, badBlocks, k))
    && (f > m ==> Usable(s, checkpoints, badBlocks, f))
    && (if f > 0 then Present(s, f) && hash == s.heightToHash[f] else hash == ZERO_HASH)
  }

  /** A pinned block that is stored and matches, with at most one later checkpoint
      before the failed one, which is not stored. */
  ghost predicate SafeCheckpoint(s: Store, checkpoints: map<nat, Hash>, failed: nat, k: nat) {
    && k in checkpoints && k < failed && Present(s, k) && s.heightToHash[k] == checkpoints[k]
    && (forall h | h in checkpoints && k < h < failed :: !Present(s, h))
    && (forall h, h' | h in checkpoints && h' in checkpoints && k < h < failed && k < h' < failed :: h == h')
  }

  /** f is the safe checkpoint, or genesis if there is none. */
  ghost predicate BackToSafe(s: Store, checkpoints: map<nat, Hash>, failed: nat, f: nat) {
    if exists k :: SafeCheckpoint(s, checkpoints, failed, k) then SafeCheckpoint(s, checkpoints, failed, f) else f == 0
  }

  /** Blocks 10, 11 and 12 in line. */
  const THREE: Store := Store(
    map[10 := CompactBlock(0, ZERO_HASH, []), 11 := CompactBlock(1, 10, []), 12 := CompactBlock(2, 11, [])],
    map[], map[10 := 0, 11 := 1, 12 := 2], map[0 := 10, 1 := 11, 2 := 12], map[], map[], map[], Some(Tip(2, 12)))

  /** With another hash pinned at height 1 no height above it is usable, and the search
      answers 1; unpinned it answers 2. */
  lemma PinStops()
    ensures ForkPointAt(THREE, map[1 := 77], map[], 1, 2, 1, 11) && !ForkPointAt(THREE, map[1 := 77], map[], 1, 2, 2, 12)
    ensures ForkPointAt(THREE, map[], map[], 0, 2, 2, 12)
  {
    var cps: map<nat, Hash> := map[1 := 77];
    assert THREE.LoadTxs([]) == [];
    assert THREE.GetBlock(12) == Some(Block(12, 11, [])) && THREE.GetBlock(11) == Some(Block(11, 10, []));
    assert !Walks(THREE, cps, map[], 11, 1, 1);
    assert !Walks(THREE, cps, map[], 12, 2, 2);
    assert Walks(THREE, map[], map[], 11, 1, 1);
    assert Walks(THREE, map[], map[], 12, 2, 2);
  }

  /** There is at most one safe checkpoint. */
  lemma SafeCheckpointUnique(s: Store, checkpoints: map<nat, Hash>, failed: nat, j: nat, k: nat)
    requires SafeCheckpoint(s, checkpoints, failed, j) && SafeCheckpoint(s, checkpoints, failed, k)
    ensures j == k
  {
  }
}
