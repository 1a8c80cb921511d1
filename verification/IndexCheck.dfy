/** Checking the two height indexes against each other, and repairing them by a rollback. */
module IndexCheck {
  import opened Wrappers
  import opened ChainTypes
  import opened Storage
  import opened Connect
  import opened Orphans
  import opened BlockChains
  import opened Pruning
  import opened ForkSearch
  import opened Recovery

  datatype IndexInconsistency = IndexInconsistency(height: nat, hashFromIdx: Hash, hashFromHeight: Option<Hash>)

  /** The list names exactly the inconsistent hash→height entries. */
  ghost predicate Reports(s: Store, list: seq<IndexInconsistency>) {
    && (forall i | 0 <= i < |list| :: var inc := list[i];
          && inc.hashFromIdx in s.hashToHeight && !Consistent(s, inc.hashFromIdx)
          && inc.height == s.hashToHeight[inc.hashFromIdx]
          && inc.hashFromHeight == if inc.height in s.heightToHash then Some(s.heightToHash[inc.height]) else None)
    && (forall x | x in s.hashToHeight && !Consistent(s, x) :: exists i :: 0 <= i < |list| && list[i].hashFromIdx == x)
  }

  ghost predicate LowestIn(list: seq<IndexInconsistency>, low: nat) {
    && (exists i :: 0 <= i < |list| && list[i].height == low)
    && (forall i | 0 <= i < |list| :: low <= list[i].height)
  }

  /** Two below the lowest bad height, for a margin. */
  function RollbackTarget(low: nat): nat {
    if low >= 2 then low - 2 else 0
  }

  lemma TargetIs(low: nat)
    ensures RollbackTarget(low) == if low >= 2 then low - 2 else 0
  {
  }

  lemma ReportsNothingIff(s: Store, list: seq<IndexInconsistency>)
    requires Reports(s, list)
    ensures list == [] <==> AllConsistent(s)
  {
    if list != [] { assert list[0].hashFromIdx in s.hashToHeight && !Consistent(s, list[0].hashFromIdx); }
  }

  lemma LowestGood(s: Store, list: seq<IndexInconsistency>, low: nat)
    requires Reports(s, list) && LowestIn(list, low)
    ensures forall x | x in s.hashToHeight && s.hashToHeight[x] < low :: Consistent(s, x)
    ensures exists x :: x in s.hashToHeight && s.hashToHeight[x] == low && !Consistent(s, x)
  {
    var i :| 0 <= i < |list| && list[i].height == low;
    assert list[i].hashFromIdx in s.hashToHeight;
  }

  /** Whether a rollback repairs the indexes: it does exactly if nothing is wrong at
      height 0, where the target itself lies. */
  lemma RepairedIff(s: Store, v: Store, list: seq<IndexInconsistency>, low: nat)
    requires Reports(s, list) && LowestIn(list, low)
    requires Pruned(s, v, RollbackTarget(low)) && RollbackTarget(low) in v.heightToHash
    requires forall x | x in v.hashToHeight :: v.hashToHeight[x] <= RollbackTarget(low)
    ensures AllConsistent(v) <==> low >= 1
  {
    hide Reports, Pruned, Consistent;
    LowestGood(s, list, low);
    if low >= 1 {
      PrunedConsistent(s, v, RollbackTarget(low));
    } else {
      var x :| x in s.hashToHeight && s.hashToHeight[x] == low && !Consistent(s, x);
      PrunedInconsistent(s, v, RollbackTarget(low), x);
    }
  }

  /** The lowest height of an inconsistent entry. */
  ghost predicate LowestBad(s: Store, low: nat) {
    && (exists x :: x in s.hashToHeight && s.hashToHeight[x] == low && !Consistent(s, x))
    && (forall x | x in s.hashToHeight && s.hashToHeight[x] < low :: Consistent(s, x))
  }

  lemma LowestIs(s: Store, list: seq<IndexInconsistency>, low: nat)
    requires Reports(s, list) && list != []
    ensures LowestIn(list, low) <==> LowestBad(s, low)
  {
    if LowestIn(list, low) {
      LowestGood(s, list, low);
    }
    if LowestBad(s, low) {
      var x :| x in s.hashToHeight && s.hashToHeight[x] == low && !Consistent(s, x);
      var i :| 0 <= i < |list| && list[i].hashFromIdx == x;
      assert list[i].height == low;
    }
  }

  /** Rolling back from a height disconnects every block in between, and leaves
      nothing above the target but the target itself. */
  predicate RollsBackClean(s: Store, from: nat, target: nat, depth: nat) {
    && target < from <= target + depth && Present(s, target)
    && var d := Down(s, from, target);
      && d.1.Ok? && Above(d.0, target) == {} && Present(d.0, target)
      && forall h | target < h <= from :: !Present(d.0, h)
  }

  lemma TipAside(s: Store, v: Store)
    requires v == s.(tip := v.tip)
    ensures forall h :: Present(v, h) <==> Present(s, h)
  {
    forall h: nat ensures Present(v, h) <==> Present(s, h) {
      if h in s.heightToHash && s.heightToHash[h] in s.blocks {
        assert v.blocks[s.heightToHash[h]].txids == s.blocks[s.heightToHash[h]].txids;
      }
    }
  }

  class ChainValidator {
    const bc: BlockChain

    constructor (bc: BlockChain)
      ensures this.bc == bc
    {
      this.bc := bc;
    }

    /** Compares every hash→height entry with the height→hash entry at its height. */
    method CheckIndexConsistency() returns (list: seq<IndexInconsistency>)
      ensures Reports(bc.storage.db, list)
      ensures list == [] <==> AllConsistent(bc.storage.db)
      ensures forall i | 0 <= i < |list| :: list[i].hashFromHeight != Some(list[i].hashFromIdx)
      ensures list == [] <==>
        forall x | x in bc.storage.db.hashToHeight ::
          && bc.storage.db.hashToHeight[x] in bc.storage.db.heightToHash
          && bc.storage.db.heightToHash[bc.storage.db.hashToHeight[x]] == x
    {
      var db := bc.storage.db;
      var keys := db.hashToHeight.Keys;
      list := [];
      while keys != {}
        invariant keys <= db.hashToHeight.Keys
        invariant forall i | 0 <= i < |list| :: var inc := list[i];
          && inc.hashFromIdx in db.hashToHeight && !Consistent(db, inc.hashFromIdx)
          && inc.height == db.hashToHeight[inc.hashFromIdx]
          && inc.hashFromHeight == if inc.height in db.heightToHash then Some(db.heightToHash[inc.height]) else None
        invariant forall x | x in db.hashToHeight && x !in keys && !Consistent(db, x) ::
          exists i :: 0 <= i < |list| && list[i].hashFromIdx == x
        decreases keys
      {
        var hash :| hash in keys;
        var height := db.hashToHeight[hash];
        ghost var before := list;
        if height !in db.heightToHash {
          list := list + [IndexInconsistency(height, hash, None)];
          assert list[|before|].hashFromIdx == hash;
        } else if db.heightToHash[height] != hash {
          list := list + [IndexInconsistency(height, hash, Some(db.heightToHash[height]))];
          assert list[|before|].hashFromIdx == hash;
        }
        assert forall i | 0 <= i < |before| :: list[i] == before[i];
        keys := keys - {hash};
      }
      ReportsNothingIff(db, list);
    }

    method LowestHeight(list: seq<IndexInconsistency>) returns (low: nat)
      requires list != []
      ensures LowestIn(list, low)
    {
      low := list[0].height;
      for i := 1 to |list|
        invariant exists j :: 0 <= j < i && list[j].height == low
        invariant forall j | 0 <= j < i :: low <= list[j].height
      {
        if list[i].height < low {
          low := list[i].height;
        }
      }
    }

    /** Repairs the indexes by rolling back below the lowest bad height.

        A repair that reports success leaves consistent indexes exactly if the lowest
        bad height was at least 1 and the target lay below the tip: with the target
        at the tip nothing is rolled back, and an entry at height 0 is never removed.
        With the target at the tip it reports success exactly if the tip loads. */
    method RecoverFromIndexInconsistency(list: seq<IndexInconsistency>) returns (r: Result<(), ChainError>)
      modifies bc, bc.storage, bc.tree`blockIndex
      ensures list == [] ==> r == Ok(()) && bc.storage.db == old(bc.storage.db)
      ensures r.Ok? && list != [] && Reports(old(bc.storage.db), list) ==>
        forall low | LowestIn(list, low) ::
          AllConsistent(bc.storage.db) <==> low >= 1 && RollbackTarget(low) < old(bc.bestHeight)
      ensures forall low | LowestIn(list, low) && RollbackTarget(low) == old(bc.bestHeight) ::
        bc.storage.db == old(bc.storage.db) && (r.Ok? <==> Present(old(bc.storage.db), RollbackTarget(low)))
      ensures forall low | LowestIn(list, low) && RollbackTarget(low) > old(bc.bestHeight) ::
        r.Err? && bc.storage.db == old(bc.storage.db)
      ensures forall low | LowestIn(list, low) ::
        RollsBackClean(old(bc.storage.db), old(bc.bestHeight), RollbackTarget(low), bc.maxReorgDepth) ==> r.Ok?
      ensures r.Ok? && list != [] ==> forall low: nat | LowestIn(list, low) ::
        && bc.bestHeight == (if low >= 2 then low - 2 else 0)
        && (bc.bestHeight < old(bc.bestHeight) ==>
              && bc.storage.db.tip == Some(Tip(bc.bestHeight, bc.bestHash))
              && forall x | x in bc.storage.db.hashToHeight :: bc.storage.db.hashToHeight[x] <= bc.bestHeight)
    {
      hide *;
      if list == [] {
        NothingLowest();
        return Ok(());
      }
      ghost var s := bc.storage.db;
      var lowestHeight := LowestHeight(list);
      LowestUnique(list, lowestHeight);
      var rollbackTarget := RollbackTarget(lowestHeight);
      TargetIs(lowestHeight);
      var bestHeight := bc.bestHeight;
      var recovery := new RecoveryManager(bc);
      r := recovery.RollbackToHeight(rollbackTarget);
      ghost var clean := RollsBackClean(s, bestHeight, rollbackTarget, bc.maxReorgDepth);
      if clean { CleanIs(s, bestHeight, rollbackTarget, bc.maxReorgDepth); }
      if r.Err? {
        return;
      }
      ghost var v := bc.storage.db;
      NothingBetween(v, rollbackTarget);
      if clean { CleanAfter(s, bestHeight, rollbackTarget, bc.maxReorgDepth, v); }
      recovery.CleanOrphanedData(rollbackTarget, bestHeight);
      ghost var w := bc.storage.db;
      PrunedTwice(s, v, w, rollbackTarget);
      PresentIs(w, rollbackTarget);
      if bc.storage.db.GetBlockByHeight(rollbackTarget).None? {
        return Err(BlockNotFound);
      }
      recovery.ResetChainState(rollbackTarget);
      assert rollbackTarget < bestHeight ==> bc.storage.db.tip == Some(Tip(bc.bestHeight, bc.bestHash));
      if rollbackTarget < bestHeight { StillBelow(s, v, w, rollbackTarget); }
      ghost var known := Reports(s, list);
      if known {
        if rollbackTarget < bestHeight {
          PresentHash(w, rollbackTarget);
          RepairedIff(s, w, list, lowestHeight);
        } else {
          ReportsNothingIff(s, list);
        }
      }
    }

    /** The startup check: compares the indexes and repairs them if needed. */
    method ValidateBlockIndexConsistency() returns (r: Result<(), ChainError>)
      modifies bc, bc.storage, bc.tree`blockIndex
      ensures AllConsistent(old(bc.storage.db)) ==> r == Ok(()) && bc.storage.db == old(bc.storage.db)
      ensures r.Ok? && !AllConsistent(old(bc.storage.db)) ==> forall low | LowestBad(old(bc.storage.db), low) ::
        AllConsistent(bc.storage.db) <==> low >= 1 && RollbackTarget(low) < old(bc.bestHeight)
      ensures forall low | LowestBad(old(bc.storage.db), low) && RollbackTarget(low) == old(bc.bestHeight) ::
        bc.storage.db == old(bc.storage.db) && (r.Ok? <==> Present(old(bc.storage.db), RollbackTarget(low)))
      ensures forall low | LowestBad(old(bc.storage.db), low) ::
        RollsBackClean(old(bc.storage.db), old(bc.bestHeight), RollbackTarget(low), bc.maxReorgDepth) ==> r.Ok?
      ensures r.Ok? ==> forall low: nat | LowestBad(old(bc.storage.db), low) ::
        && bc.bestHeight == (if low >= 2 then low - 2 else 0)
        && (bc.bestHeight < old(bc.bestHeight) ==>
              && bc.storage.db.tip == Some(Tip(bc.bestHeight, bc.bestHash))
              && forall x | x in bc.storage.db.hashToHeight :: bc.storage.db.hashToHeight[x] <= bc.bestHeight)
    {
      hide *;
      ghost var s := bc.storage.db;
      var list := CheckIndexConsistency();
      if list == [] {
        NoneBad(s);
        return Ok(());
      }
      forall low: nat ensures LowestIn(list, low) <==> LowestBad(s, low) { LowestIs(s, list, low); }
      r := RecoverFromIndexInconsistency(list);
    }
  }

  lemma NoneBad(s: Store)
    ensures AllConsistent(s) ==> forall low: nat :: !LowestBad(s, low)
  {
  }

  lemma NothingLowest()
    ensures forall low: nat :: !LowestIn([], low)
  {
  }

  lemma CleanIs(s: Store, from: nat, target: nat, depth: nat)
    requires RollsBackClean(s, from, target, depth)
    ensures target < from <= target + depth && Present(s, target)
    ensures Down(s, from, target).1.Ok? && Above(Down(s, from, target).0, target) == {}
  {
    hide Down, Present;
  }

  lemma CleanAfter(s: Store, from: nat, target: nat, depth: nat, v: Store)
    requires RollsBackClean(s, from, target, depth) && v == Down(s, from, target).0.(tip := v.tip)
    ensures AllMissing(v, target, from) && Present(v, target)
  {
    hide Down, Present;
    TipAside(Down(s, from, target).0, v);
  }

  // ---------------------------------------------------------------- repairs that report success and repair nothing

  /** Block 10 at height 0 is the tip; an entry for another block names height 2. */
  const AT_TIP: Store := Store(
    map[10 := CompactBlock(0, ZERO_HASH, [])], map[], map[10 := 0, 99 := 2], map[0 := 10], map[], map[], map[0 := 0], Some(Tip(0, 10)))

  /** Blocks 10 and 11; another entry names height 0 as well. */
  const AT_ZERO: Store := Store(
    map[10 := CompactBlock(0, ZERO_HASH, []), 11 := CompactBlock(1, 10, [])], map[],
    map[10 := 0, 11 := 1, 77 := 0], map[0 := 10, 1 := 11], map[], map[], map[0 := 0, 1 := 0], Some(Tip(1, 11)))

  lemma AtTipBad()
    ensures LowestBad(AT_TIP, 2) && Present(AT_TIP, 0) && !AllConsistent(AT_TIP)
  {
    assert 99 in AT_TIP.hashToHeight && !Consistent(AT_TIP, 99);
  }

  /** The target is the tip: nothing is rolled back, and the bad entry stays. */
  method RepairMissesAtTip(cv: ChainValidator) returns (r: Result<(), ChainError>)
    requires cv.bc.storage.db == AT_TIP && cv.bc.bestHeight == 0
    modifies cv.bc, cv.bc.storage, cv.bc.tree`blockIndex
    ensures r.Ok? && cv.bc.storage.db == AT_TIP && !AllConsistent(cv.bc.storage.db)
  {
    AtTipBad();
    assert RollbackTarget(2) == 0;
    hide *;
    r := cv.ValidateBlockIndexConsistency();
  }

  lemma AtZeroDown()
    ensures var d := Down(AT_ZERO, 1, 0);
      && d.1.Ok? && d.0.blocks == map[10 := CompactBlock(0, ZERO_HASH, [])]
      && d.0.hashToHeight == map[10 := 0, 77 := 0] && d.0.heightToHash == map[0 := 10]
  {
    var b := Block(11, 10, []);
    assert AT_ZERO.LoadTxs([]) == [];
    assert AT_ZERO.GetBlockByHeight(1) == Some(b);
    var d := DisconnectBlock(AT_ZERO, b).value;
    assert UndoTxs(AT_ZERO.txs, Undone(AT_ZERO.utxos, AT_ZERO.txs, AT_ZERO.history), [], 1).Ok?;
    assert d.blocks == map[10 := CompactBlock(0, ZERO_HASH, [])];
    assert d.GetBlock(10).Some?;
    DownStep(AT_ZERO, 1, 0);
    DownNone(d, 0);
  }

  lemma AtZeroBad()
    ensures LowestBad(AT_ZERO, 0) && !AllConsistent(AT_ZERO)
    ensures forall depth: nat | depth >= 1 :: RollsBackClean(AT_ZERO, 1, 0, depth)
  {
    assert 77 in AT_ZERO.hashToHeight && !Consistent(AT_ZERO, 77);
    AtZeroDown();
    hide Down;
    assert Present(AT_ZERO, 0) && Above(Down(AT_ZERO, 1, 0).0, 0) == {} && Present(Down(AT_ZERO, 1, 0).0, 0);
  }

  /** The bad entry lies at height 0: the rollback never removes it. */
  method RepairMissesAtZero(cv: ChainValidator) returns (r: Result<(), ChainError>)
    requires cv.bc.storage.db == AT_ZERO && cv.bc.bestHeight == 1 && cv.bc.maxReorgDepth >= 1
    modifies cv.bc, cv.bc.storage, cv.bc.tree`blockIndex
    ensures r.Ok? && !AllConsistent(cv.bc.storage.db)
  {
    AtZeroBad();
    assert RollbackTarget(0) == 0;
    hide *;
    r := cv.ValidateBlockIndexConsistency();
  }

  lemma LowestUnique(list: seq<IndexInconsistency>, low: nat)
    requires LowestIn(list, low)
    ensures forall other: nat | LowestIn(list, other) :: other == low
  {
  }

  lemma StillBelow(s: Store, v: Store, w: Store, h: nat)
    requires Pruned(v, w, h) && forall x | x in v.hashToHeight :: v.hashToHeight[x] <= h
    ensures forall x | x in w.hashToHeight :: w.hashToHeight[x] <= h
  {
  }

  lemma NothingBetween(s: Store, h: nat)
    ensures AllMissing(s, h, h)
  {
  }
}
