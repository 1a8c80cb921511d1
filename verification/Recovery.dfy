/** Recovery from forks and corruption: rolling the chain back to a height, finding
    out where it is broken, and the state machine around it. */
module Recovery {
  import opened Wrappers
  import opened ChainTypes
  import opened Storage
  import opened Connect
  import opened Replay
  import opened Chains
  import opened Lines
  import opened Totals
  import opened Drifts
  import opened Unwinding
  import opened BlockChains
  import opened Pruning
  import opened Orphans
  import opened ForkSearch
  import opened StaleForks

  // ---------------------------------------------------------------- what a crash during a rollback can leave

  /** s stands on the blocks 0..k of c with its totals recorded, and if exact is asked,
      is exactly what they lead to. */
  ghost predicate StandsUpTo(exact: bool, s: Store, c: seq<Block>, k: int) {
    0 <= k < |c| && Stands(s, c[..k + 1]) && Recorded(s, c[..k + 1]) && (exact ==> Holds(s, c[..k + 1]))
  }

  /** The same for some k from lo on. */
  ghost predicate StandsSome(exact: bool, s: Store, c: seq<Block>, lo: nat) {
    exists k :: lo <= k && StandsUpTo(exact, s, c, k)
  }

  /** Every state committed since before stands on c up to some height from lo on. */
  ghost predicate SafeLog(exact: bool, c: seq<Block>, lo: nat, before: seq<Store>, log: seq<Store>) {
    before <= log && forall i | |before| <= i < |log| :: StandsSome(exact, log[i], c, lo)
  }

  lemma SafeLogStart(exact: bool, c: seq<Block>, lo: nat, log: seq<Store>)
    ensures SafeLog(exact, c, lo, log, log)
  {
  }

  lemma SafeLogNext(exact: bool, c: seq<Block>, lo: nat, before: seq<Store>, log: seq<Store>, v: Store, k: nat)
    requires SafeLog(exact, c, lo, before, log) && lo <= k < |c|
    requires Stands(v, c[..k + 1]) && Recorded(v, c[..k + 1]) && (exact ==> Holds(v, c[..k + 1]))
    ensures SafeLog(exact, c, lo, before, log + [v])
  {
    hide Stands, Recorded, Holds;
    assert StandsUpTo(exact, v, c, k);
    assert StandsSome(exact, v, c, lo);
  }

  /** Where disconnecting the blocks found at the heights from `from` down to just
      above `height` leads, on any database, and whether it gets that far.  A height
      without a block that loads is passed over. */
  function Down(s: Store, from: nat, height: nat): (Store, Result<(), ChainError>)
    decreases from
  {
    if from <= height then (s, Ok(()))
    else
      match s.GetBlockByHeight(from)
      case None => Down(s, from - 1, height)
      case Some(b) =>
        match DisconnectBlock(s, b)
        case Err(e) => (s, Err(e))
        case Ok(d) => if d.GetBlock(b.prev).Some? then Down(d, from - 1, height) else (d, Err(BlockNotFound))
  }

  lemma DownStep(s: Store, from: nat, height: nat)
    requires from > height
    ensures var b := s.GetBlockByHeight(from);
      Down(s, from, height)
        == if b.None? then Down(s, from - 1, height)
           else var d := DisconnectBlock(s, b.value);
             if d.Err? then (s, Err(d.error))
             else if d.value.GetBlock(b.value.prev).Some? then Down(d.value, from - 1, height)
             else (d.value, Err(BlockNotFound))
  {
    hide Store.GetBlockByHeight, Store.GetBlock, DisconnectBlock;
  }

  /** One step of a rollback at height h: nothing where no block loads, otherwise the
      block there is disconnected and its parent loads. */
  ghost predicate StepsDown(s: Store, v: Store, h: nat) {
    match s.GetBlockByHeight(h)
    case None => v == s
    case Some(b) => DisconnectBlock(s, b) == Ok(v) && v.GetBlock(b.prev).Some?
  }

  /** The states on the way from one height down to another. */
  ghost predicate WayDown(states: seq<Store>, from: nat, height: nat) {
    && height <= from && |states| == from - height + 1
    && forall i | 0 <= i < from - height :: StepsDown(states[i], states[i + 1], from - i)
  }

  /** Here a rollback stops: a block loads at height h and cannot be disconnected, or
      can and leaves no parent that loads. */
  ghost predicate StuckAt(s: Store, v: Store, h: nat, e: ChainError) {
    && s.GetBlockByHeight(h).Some?
    && var b := s.GetBlockByHeight(h).value;
       match DisconnectBlock(s, b)
       case Err(f) => v == s && e == f
       case Ok(d) => d.GetBlock(b.prev).None? && v == d && e == BlockNotFound
  }

  /** The rollback goes through height by height, or stops at the first height where it is stuck. */
  lemma {:induction false} DownMeans(s: Store, from: nat, height: nat) returns (states: seq<Store>, reached: nat)
    requires height <= from
    ensures height <= reached <= from && WayDown(states, from, reached) && states[0] == s
    ensures Down(s, from, height).1.Ok? ==> reached == height && Down(s, from, height).0 == states[|states| - 1]
    ensures Down(s, from, height).1.Err? ==>
      reached > height && StuckAt(states[|states| - 1], Down(s, from, height).0, reached, Down(s, from, height).1.error)
    decreases from
  {
    hide Store.GetBlockByHeight, Store.GetBlock, DisconnectBlock;
    states, reached := [s], from;
    if from > height {
      DownStep(s, from, height);
      var b := s.GetBlockByHeight(from);
      if b.None? || (DisconnectBlock(s, b.value).Ok? && DisconnectBlock(s, b.value).value.GetBlock(b.value.prev).Some?) {
        var v := if b.None? then s else DisconnectBlock(s, b.value).value;
        var rest;
        rest, reached := DownMeans(v, from - 1, height);
        states := [s] + rest;
        forall i | 0 <= i < from - reached ensures StepsDown(states[i], states[i + 1], from - i) {
          if i > 0 { assert StepsDown(rest[i - 1], rest[i - 1 + 1], from - 1 - (i - 1)); }
        }
      }
    }
  }

  lemma DownNone(s: Store, height: nat)
    ensures Down(s, height, height) == (s, Ok(()))
  {
  }

  /** s became v while the tip went from height from back to f: entries only
      disappeared, at or below f in both indexes together, and if the tip moved, no
      hash is entered above f any more. */
  ghost predicate RolledTo(s: Store, v: Store, from: nat, f: nat) {
    && f <= from && Pruned(s, v, f)
    && (f < from ==> forall x | x in v.hashToHeight :: v.hashToHeight[x] <= f)
  }

  /** Both indexes only lost entries. */
  ghost predicate IndexesShrunk(s: Store, v: Store) {
    OnlyRemoved(s.hashToHeight, v.hashToHeight) && OnlyRemoved(s.heightToHash, v.heightToHash)
  }

  lemma PrunedShrinks(s: Store, v: Store, h: nat)
    requires Pruned(s, v, h)
    ensures IndexesShrunk(s, v)
  {
  }

  lemma RolledBelow(s: Store, v: Store, w: Store, from: nat, f: nat)
    requires Pruned(s, v, f) && Pruned(v, w, f) && f <= from
    requires f < from ==> forall x | x in v.hashToHeight :: v.hashToHeight[x] <= f
    ensures RolledTo(s, w, from, f)
  {
    PrunedTwice(s, v, w, f);
  }

  /** f is where the fork-point search above the nearest checkpoint ends. */
  ghost predicate ForkFound(s: Store, checkpoints: map<nat, Hash>, badBlocks: map<nat, Hash>, c: nat, f: nat) {
    exists m, hash :: NearestBelow(checkpoints, c, m) && ForkPointAt(s, checkpoints, badBlocks, m, c, f, hash)
  }

  lemma ForkFoundIs(s: Store, checkpoints: map<nat, Hash>, badBlocks: map<nat, Hash>, c: nat, f: nat, hash: Hash)
    requires forall m | NearestBelow(checkpoints, c, m) :: ForkPointAt(s, checkpoints, badBlocks, m, c, f, hash)
    ensures ForkFound(s, checkpoints, badBlocks, c, f)
  {
    hide ForkPointAt;
    var m := HighestUpTo(checkpoints, c);
    assert ForkPointAt(s, checkpoints, badBlocks, m, c, f, hash);
  }

  lemma {:induction false} HighestUpTo(checkpoints: map<nat, Hash>, c: nat) returns (m: nat)
    ensures NearestBelow(checkpoints, c, m)
  {
    if c == 0 || c in checkpoints {
      m := c;
    } else {
      m := HighestUpTo(checkpoints, c - 1);
    }
  }

  /** Where a recovery away from checkpoint heights leads: on any database at all. */
  ghost predicate Destination(
      s: Store, checkpoints: map<nat, Hash>, badBlocks: map<nat, Hash>, from: nat, rollbacks: nat, f: nat) {
    forall c | CorruptionPoint(s, from, c) ::
      if c == 0 then f + StaleDepth(rollbacks) == from else ForkFound(s, checkpoints, badBlocks, c, f)
  }

  lemma DestinationIs(s: Store, checkpoints: map<nat, Hash>, badBlocks: map<nat, Hash>, from: nat, rollbacks: nat, f: nat, c: nat)
    requires CorruptionPoint(s, from, c)
    requires if c == 0 then f + StaleDepth(rollbacks) == from else ForkFound(s, checkpoints, badBlocks, c, f)
    ensures Destination(s, checkpoints, badBlocks, from, rollbacks, f)
  {
    forall other | CorruptionPoint(s, from, other) ensures other == c {
      CorruptionUnique(s, from, c, other);
    }
    hide CorruptionPoint, StaleDepth, ForkFound;
  }

  datatype RecoveryMetrics = RecoveryMetrics(
    forkDetections: nat, recoveryAttempts: nat, recoverySuccess: nat, recoveryFailures: nat, lastForkHeight: nat)

  /** The metrics after a recovery that succeeded or failed; giving up on a too short chain counts as neither. */
  function Counted(m: RecoveryMetrics, ok: bool, state: RecoveryState): RecoveryMetrics {
    if ok then m.(recoverySuccess := m.recoverySuccess + 1)
    else if state == RecoveryFailed then m.(recoveryFailures := m.recoveryFailures + 1)
    else m
  }

  /** The metrics once a fork is noted and, if one is left, an attempt begun. */
  function Detected(m: RecoveryMetrics, height: nat, attempts: nat): RecoveryMetrics {
    m.(forkDetections := m.forkDetections + 1, lastForkHeight := height,
       recoveryAttempts := m.recoveryAttempts + if attempts < MAX_ATTEMPTS then 1 else 0)
  }

  class RecoveryManager {
    const blockchain: BlockChain
    var state: RecoveryState
    var attempts: nat
    var staleForkRollbacks: nat
    var metrics: RecoveryMetrics

    constructor (blockchain: BlockChain)
      ensures this.blockchain == blockchain && state == Normal && attempts == 0 && staleForkRollbacks == 0
      ensures metrics == RecoveryMetrics(0, 0, 0, 0, 0)
    {
      this.blockchain, state, attempts, staleForkRollbacks := blockchain, Normal, 0, 0;
      metrics := RecoveryMetrics(0, 0, 0, 0, 0);
    }

    // -------------------------------------------------------------- finding out where the chain is broken

    /** Searches downwards from a height for missing blocks and broken parent links. */
    method FindActualCorruptionPoint(fromHeight: nat) returns (c: nat)
      ensures CorruptionPoint(blockchain.storage.db, fromHeight, c)
    {
      hide Store.GetBlock, Store.GetBlockByHeight;
      var db := blockchain.storage.db;
      var currentHeight, minHeight := fromHeight, if fromHeight > MAX_SEARCH_DEPTH then fromHeight - MAX_SEARCH_DEPTH else 0;
      var blocksChecked, missingBlocks := 0, [];
      while currentHeight > minHeight
        invariant minHeight <= currentHeight <= fromHeight && blocksChecked == fromHeight - currentHeight
        invariant missingBlocks == [] ==> AllJoined(db, currentHeight, fromHeight) && blocksChecked <= SEARCH_CHUNK
        invariant missingBlocks != [] ==>
          && missingBlocks[0] == fromHeight && missingBlocks[|missingBlocks| - 1] == currentHeight + 1
          && currentHeight < fromHeight && AllMissing(db, currentHeight, fromHeight)
      {
        var block := db.GetBlockByHeight(currentHeight);
        assert missingBlocks == [] && currentHeight < fromHeight ==> Joined(db, currentHeight + 1) && Joined(db, fromHeight);
        if block.None? {
          missingBlocks := missingBlocks + [currentHeight];
        } else {
          var parent := db.GetBlock(block.value.prev);
          var expectedParent := db.GetBlockByHeight(currentHeight - 1);
          if parent.None? || expectedParent.None? || expectedParent.value.hash != block.value.prev {
            assert !Joined(db, currentHeight);
            assert missingBlocks != [] ==> FirstFound(db, fromHeight, currentHeight);
            return currentHeight - 1;
          }
          assert Joined(db, currentHeight);
          if missingBlocks != [] {
            assert FirstFound(db, fromHeight, currentHeight);
            return missingBlocks[0];
          }
        }
        blocksChecked := blocksChecked + 1;
        currentHeight := currentHeight - 1;
        if blocksChecked > SEARCH_CHUNK && missingBlocks == [] {
          break;
        }
      }
      if missingBlocks != [] {
        return missingBlocks[|missingBlocks| - 1];
      }
      assert fromHeight > 0 ==> Joined(db, fromHeight);
      return 0;
    }

    /** Walks back from a height along parent hashes, checking pinned heights. */
    method ValidateChainSegment(fromHeight: nat, toHeight: nat) returns (ok: bool)
      ensures ok <==>
        && fromHeight < toHeight && toHeight in blockchain.storage.db.heightToHash
        && Walks(blockchain.storage.db, blockchain.checkpoints.checkpoints, blockchain.checkpoints.badBlocks,
                 blockchain.storage.db.heightToHash[toHeight], toHeight, toHeight - fromHeight)
      ensures ok <==>
        && fromHeight < toHeight && toHeight in blockchain.storage.db.heightToHash
        && exists path: seq<Block> ::
             && Segment(blockchain.storage.db, blockchain.checkpoints.checkpoints, blockchain.checkpoints.badBlocks, toHeight, path)
             && |path| == toHeight - fromHeight && path[0].hash == blockchain.storage.db.heightToHash[toHeight]
    {
      hide Store.GetBlock, Segment;
      var db, cps, bad := blockchain.storage.db, blockchain.checkpoints.checkpoints, blockchain.checkpoints.badBlocks;
      if toHeight <= fromHeight || toHeight !in db.heightToHash {
        return false;
      }
      WalksIff(db, cps, bad, db.heightToHash[toHeight], toHeight, toHeight - fromHeight);
      var currentHash, currentHeight := db.heightToHash[toHeight], toHeight;
      while currentHeight > fromHeight
        invariant fromHeight <= currentHeight <= toHeight
        invariant Walks(db, cps, bad, db.heightToHash[toHeight], toHeight, toHeight - fromHeight)
             <==> Walks(db, cps, bad, currentHash, currentHeight, currentHeight - fromHeight)
      {
        var block := db.GetBlock(currentHash);
        if block.None? {
          return false;
        }
        if blockchain.checkpoints.IsCheckpointHeight(currentHeight)
           && !blockchain.checkpoints.ValidateCheckpoint(currentHeight, currentHash) {
          return false;
        }
        currentHash, currentHeight := block.value.prev, currentHeight - 1;
      }
      return true;
    }

    method CanValidateChainFrom(height: nat) returns (ok: bool)
      requires Present(blockchain.storage.db, height)
      ensures ok <==> Usable(blockchain.storage.db, blockchain.checkpoints.checkpoints, blockchain.checkpoints.badBlocks, height)
    {
      hide Walks;
      var segmentSize := if height < SEGMENT then height else SEGMENT;
      ok := ValidateChainSegment(height - segmentSize, height);
    }

    /** Looks for the highest height a rollback can stop at.  m is the nearest checkpoint. */
    method FindForkPoint(errorHeight: nat) returns (r: Result<(nat, Hash), ChainError>)
      ensures forall m | NearestBelow(blockchain.checkpoints.checkpoints, errorHeight, m) ::
        if r.Ok? then
          ForkPointAt(blockchain.storage.db, blockchain.checkpoints.checkpoints, blockchain.checkpoints.badBlocks,
                      m, errorHeight, r.value.0, r.value.1)
        else m > 0 && !Present(blockchain.storage.db, m)
      ensures r.Ok? ==> forall m: nat | NearestBelow(blockchain.checkpoints.checkpoints, errorHeight, m) && m < r.value.0 ::
        exists path: seq<Block> ::
          && Segment(blockchain.storage.db, blockchain.checkpoints.checkpoints, blockchain.checkpoints.badBlocks, r.value.0, path)
          && |path| == (if r.value.0 < 10 then r.value.0 else 10) && path[0].hash == r.value.1
    {
      hide Usable, Store.GetBlock, Segment;
      var db, checkpoints := blockchain.storage.db, blockchain.checkpoints;
      var currentHeight, minHeight := errorHeight, 0;
      var nearest, _, found := checkpoints.GetNearestCheckpoint(errorHeight);
      if found {
        minHeight := nearest;
      }
      assert NearestBelow(checkpoints.checkpoints, errorHeight, minHeight);
      NearestUnique(checkpoints.checkpoints, errorHeight, minHeight);
      while currentHeight > minHeight
        invariant minHeight <= currentHeight <= errorHeight
        invariant forall k: nat | currentHeight < k <= errorHeight :: !Usable(db, checkpoints.checkpoints, checkpoints.badBlocks, k)
      {
        var block := db.GetBlockByHeight(currentHeight);
        if block.None? {
          UsableIsPresent(db, checkpoints.checkpoints, checkpoints.badBlocks, currentHeight);
        } else {
          PresentHash(db, currentHeight);
          var matches := checkpoints.ValidateCheckpoint(currentHeight, block.value.hash);
          var usable := checkpoints.IsCheckpointHeight(currentHeight) && matches;
          if !usable {
            usable := CanValidateChainFrom(currentHeight);
          }
          if usable {
            UsableIff(db, checkpoints.checkpoints, checkpoints.badBlocks, currentHeight);
            return Ok((currentHeight, block.value.hash));
          }
        }
        currentHeight := currentHeight - 1;
      }
      if minHeight > 0 {
        var block := db.GetBlockByHeight(minHeight);
        if block.None? {
          return Err(BlockNotFound);
        }
        PresentHash(db, minHeight);
        return Ok((minHeight, block.value.hash));
      }
      return Ok((0, ZERO_HASH));
    }

    /** The highest of some heights below a bound. */
    method HighestBelow(heights: set<nat>, bound: nat) returns (highest: nat, found: bool)
      ensures found ==> highest in heights && highest < bound && forall h | h in heights && h < bound :: h <= highest
      ensures !found ==> highest == 0 && forall h | h in heights :: h >= bound
    {
      highest, found := 0, false;
      var keys := heights;
      while keys != {}
        invariant keys <= heights
        invariant found ==> highest in heights && highest < bound
        invariant !found ==> highest == 0
        invariant forall h | h in heights && h !in keys && h < bound :: found && h <= highest
        decreases keys
      {
        var h :| h in keys;
        if h < bound {
          if h > highest || !found { highest := h; }
          found := true;
        }
        keys := keys - {h};
      }
    }

    /** The pinned block to fall back to.  Only the two highest earlier checkpoints
        are looked at; if neither is stored, or the one that is does not match, genesis it is. */
    method FindCheckpointBeforeMismatch(failedCheckpoint: nat) returns (height: nat, hash: Hash)
      ensures BackToSafe(blockchain.storage.db, blockchain.checkpoints.checkpoints, failedCheckpoint, height)
      ensures hash == if SafeCheckpoint(blockchain.storage.db, blockchain.checkpoints.checkpoints, failedCheckpoint, height)
                      then blockchain.checkpoints.checkpoints[height] else ZERO_HASH
      ensures forall k | k in blockchain.checkpoints.checkpoints && k < failedCheckpoint ::
        && (forall h | h in blockchain.checkpoints.checkpoints && k < h < failedCheckpoint ::
              && blockchain.storage.db.GetBlockByHeight(h).None?
              && forall g | g in blockchain.checkpoints.checkpoints && k < g < failedCheckpoint :: g == h)
        && blockchain.storage.db.GetBlockByHeight(k).Some?
        && blockchain.storage.db.GetBlockByHeight(k).value.hash == blockchain.checkpoints.checkpoints[k]
        ==> height == k && hash == blockchain.checkpoints.checkpoints[k]
      ensures (height, hash) == (0, ZERO_HASH)
        || (&& height in blockchain.checkpoints.checkpoints && height < failedCheckpoint
            && blockchain.storage.db.GetBlockByHeight(height).Some?
            && hash == blockchain.storage.db.GetBlockByHeight(height).value.hash == blockchain.checkpoints.checkpoints[height]
            && forall h | h in blockchain.checkpoints.checkpoints && height < h < failedCheckpoint ::
                 && blockchain.storage.db.GetBlockByHeight(h).None?
                 && forall g | g in blockchain.checkpoints.checkpoints && height < g < failedCheckpoint :: g == h)
    {
      var checkpoints, db := blockchain.checkpoints.checkpoints, blockchain.storage.db;
      var highestValid, found := HighestBelow(checkpoints.Keys, failedCheckpoint);
      if !found {
        return 0, ZERO_HASH;
      }
      var block := db.GetBlockByHeight(highestValid);
      if block.None? {
        highestValid, found := HighestBelow(checkpoints.Keys, highestValid);
        if !found {
          return 0, ZERO_HASH;
        }
        block := db.GetBlockByHeight(highestValid);
        if block.None? {
          return 0, ZERO_HASH;
        }
      }
      if block.value.hash != checkpoints[highestValid] {
        return 0, ZERO_HASH;
      }
      return highestValid, block.value.hash;
    }

    // -------------------------------------------------------------- rolling back

    /** Disconnects the blocks found at the heights from `from` down to just above `height`. */
    method DisconnectAbove(from: nat, height: nat) returns (r: Result<(), ChainError>)
      requires height <= from
      modifies blockchain`bestBlock, blockchain`bestHeight, blockchain`bestHash, blockchain`knownBlocks, blockchain`chain
      modifies blockchain.storage, blockchain.tree`blockIndex
      ensures (blockchain.storage.db, r) == Down(old(blockchain.storage.db), from, height)
      ensures r.Ok? && old(blockchain.CacheAgrees()) ==> blockchain.CacheAgrees()
      ensures Pruned(old(blockchain.storage.db), blockchain.storage.db, height)
      ensures old(blockchain.Valid()) && from == |old(blockchain.chain)| - 1 ==>
        && r.Ok? && blockchain.Valid() && blockchain.chain == old(blockchain.chain)[..height + 1]
        && (old(blockchain.Exact()) ==> blockchain.Exact())
        && SameExact(old(blockchain.storage.db), old(blockchain.chain), blockchain.storage.db, blockchain.chain)
        && MatchesKept(old(blockchain.storage.db), old(blockchain.chain), blockchain.storage.db)
        && SafeLog(old(blockchain.Exact()), old(blockchain.chain), height, old(blockchain.storage.log), blockchain.storage.log)
    {
      hide *;
      ghost var s, c, log := blockchain.storage.db, blockchain.chain, blockchain.storage.log;
      ghost var valid, exact := blockchain.Valid() && from == |c| - 1, blockchain.Exact();
      ghost var agrees := blockchain.CacheAgrees();
      PrunedStart(s, height);
      SafeLogStart(exact, c, height, log);
      SameExactStart(s, c);
      MatchesKeptStart(s, c);
      var h := from;
      assert valid ==> c[..from + 1] == c;
      while h > height
        invariant height <= h <= from && Pruned(s, blockchain.storage.db, height)
        invariant Down(s, from, height) == Down(blockchain.storage.db, h, height)
        invariant agrees ==> blockchain.CacheAgrees()
        invariant valid ==>
          && blockchain.Valid() && blockchain.chain == c[..h + 1] && (exact ==> blockchain.Exact())
          && SameExact(s, c, blockchain.storage.db, blockchain.chain) && MatchesKept(s, c, blockchain.storage.db)
          && SafeLog(exact, c, height, log, blockchain.storage.log)
      {
        var block := blockchain.storage.db.GetBlockByHeight(h);
        ghost var v, before := blockchain.storage.db, blockchain.storage.log;
        DownStep(v, h, height);
        if valid {
          blockchain.ValidParts();
          StandsGetBlock(v, c[..h + 1], h);
        }
        if block.Some? {
          if DisconnectBlock(v, block.value).Ok? { PrunedDisconnect(s, v, height, block.value); }
          r := blockchain.DisconnectBlock(block.value);
          if r.Err? {
            return;
          }
          if valid {
            assert c[..h + 1][..h] == c[..h];
            SameExactTrans(s, c, v, c[..h + 1], blockchain.storage.db, blockchain.chain);
            MatchesKeptTrans(s, c, v, h + 1, blockchain.storage.db);
            blockchain.ValidParts();
            blockchain.ExactMeans();
            SafeLogNext(exact, c, height, log, before, blockchain.storage.db, h - 1);
          }
        }
        h := h - 1;
      }
      DownNone(blockchain.storage.db, height);
      return Ok(());
    }

    /** Drops index entries above the target and makes the target the tip, in memory and in the database. */
    method SettleAt(height: nat, targetBlock: Block)
      modifies blockchain`bestBlock, blockchain`bestHeight, blockchain`bestHash, blockchain`knownBlocks, blockchain.storage
      ensures blockchain.bestBlock == Some(targetBlock) && blockchain.bestHeight == height && blockchain.bestHash == targetBlock.hash
      ensures blockchain.knownBlocks
        == map x | x in old(blockchain.knownBlocks) && old(blockchain.knownBlocks)[x] <= height :: old(blockchain.knownBlocks)[x]
      ensures var s := old(blockchain.storage.db);
        && blockchain.storage.db == CleanAll(s, s.hashToHeight, Above(s, height)).(tip := Some(Tip(height, targetBlock.hash)))
        && blockchain.storage.log
           == old(blockchain.storage.log) + CleanLog(s, s.hashToHeight, Above(s, height)) + [blockchain.storage.db]
      ensures blockchain.storage.db.tip == Some(Tip(height, targetBlock.hash))
      ensures blockchain.storage.db.hashToHeight == old(blockchain.storage.db).hashToHeight - Above(old(blockchain.storage.db), height)
      ensures OnlyRemoved(old(blockchain.storage.db).heightToHash, blockchain.storage.db.heightToHash)
      ensures forall k | k in old(blockchain.storage.db).heightToHash && k <= height :: k in blockchain.storage.db.heightToHash
      ensures Above(old(blockchain.storage.db), height) == {} ==>
        && blockchain.storage.db == old(blockchain.storage.db).(tip := Some(Tip(height, targetBlock.hash)))
        && blockchain.storage.log == old(blockchain.storage.log) + [blockchain.storage.db]
        && (old(blockchain.TreeAgrees()) ==> blockchain.TreeAgrees())
      ensures var s := old(blockchain.storage.db);
        exists loaded :: AllCleaned(s, blockchain.storage.db.(tip := s.tip), s.hashToHeight, Above(s, height), loaded)
      ensures old(blockchain.CacheAgrees()) ==> blockchain.CacheAgrees()
    {
      hide DeleteOrphan, AllCleaned;
      ghost var s := blockchain.storage.db;
      var orphansCleaned := blockchain.storage.CleanOrphanedBlocks(height);
      blockchain.CleanKnownBlocksAboveHeight(height);
      blockchain.bestHeight, blockchain.bestHash, blockchain.bestBlock := height, targetBlock.hash, Some(targetBlock);
      ghost var v := blockchain.storage.db;
      ghost var loaded :| AllCleaned(s, v, s.hashToHeight, Above(s, height), loaded);
      CleanedParts(s, v, s.hashToHeight, Above(s, height), loaded);
      blockchain.storage.SetChainState(height, targetBlock.hash);
      assert blockchain.storage.db.(tip := s.tip) == v;
    }

    /** Rolls back to a height by disconnecting block after block.

        On a consistent chain the result is exactly the chain up to that height, and
        every state committed on the way is the chain up to some height in between.
        The database is then exactly what that chain leads to if it was exact from
        that height down, whatever stood above.
        On any database at all it succeeds exactly if the target is a stored block
        below the tip within the depth limit and every disconnect on the way goes
        through; the result is what the disconnects and then the cleanup of every
        orphan above the target leave, and no entry stays above the target. */
    method RollbackToHeight(height: nat) returns (r: Result<(), ChainError>)
      modifies blockchain`bestBlock, blockchain`bestHeight, blockchain`bestHash, blockchain`knownBlocks, blockchain`chain
      modifies blockchain.storage, blockchain.tree`blockIndex
      ensures Pruned(old(blockchain.storage.db), blockchain.storage.db, height)
      ensures height == old(blockchain.bestHeight) ==> r == Ok(())
      ensures height > old(blockchain.bestHeight) ==> r == Err(BelowTarget)
      ensures old(blockchain.bestHeight) > height + blockchain.maxReorgDepth ==> r == Err(TooDeep)
      ensures height < old(blockchain.bestHeight) <= height + blockchain.maxReorgDepth ==>
        var d := Down(old(blockchain.storage.db), old(blockchain.bestHeight), height);
        && r == (if Present(old(blockchain.storage.db), height) then d.1 else Err(BlockNotFound))
        && (r.Err? ==> blockchain.storage.db == if Present(old(blockchain.storage.db), height) then d.0 else old(blockchain.storage.db))
        && (r.Ok? ==>
              blockchain.storage.db == CleanAll(d.0, d.0.hashToHeight, Above(d.0, height)).(tip := Some(Tip(height, blockchain.bestHash))))
        && (r.Ok? && Above(d.0, height) == {} ==>
              blockchain.storage.db == d.0.(tip := Some(Tip(height, blockchain.bestHash))))
        && (r.Ok? ==> exists loaded ::
              AllCleaned(d.0, blockchain.storage.db.(tip := d.0.tip), d.0.hashToHeight, Above(d.0, height), loaded))
      ensures r.Ok? ==> blockchain.bestHeight == height
      ensures r.Ok? && old(blockchain.CacheAgrees()) ==> blockchain.CacheAgrees()
      ensures r.Ok? && height < old(blockchain.bestHeight) ==>
        && (forall x | x in blockchain.storage.db.hashToHeight :: blockchain.storage.db.hashToHeight[x] <= height)
        && (forall x | x in blockchain.knownBlocks :: blockchain.knownBlocks[x] <= height)
        && blockchain.storage.db.tip == Some(Tip(height, blockchain.bestHash))
      ensures height >= old(blockchain.bestHeight) || old(blockchain.bestHeight) > height + blockchain.maxReorgDepth ==>
        && blockchain.storage.db == old(blockchain.storage.db) && blockchain.storage.log == old(blockchain.storage.log)
        && blockchain.Memory() == old(blockchain.Memory()) && blockchain.chain == old(blockchain.chain)
      ensures old(blockchain.Valid()) ==>
        && (r.Ok? <==> height <= old(blockchain.bestHeight) <= height + blockchain.maxReorgDepth)
        && blockchain.Valid()
        && |old(blockchain.chain)| == old(blockchain.bestHeight) + 1
        && blockchain.chain == (if r.Ok? then old(blockchain.chain)[..height + 1] else old(blockchain.chain))
        && (r.Ok? ==> (blockchain.Exact() <==> ExactBelow(old(blockchain.storage.db), old(blockchain.chain), height + 1)))
        && (old(blockchain.Exact()) ==> blockchain.Exact())
        && SameExact(old(blockchain.storage.db), old(blockchain.chain), blockchain.storage.db, blockchain.chain)
        && MatchesKept(old(blockchain.storage.db), old(blockchain.chain), blockchain.storage.db)
        && SafeLog(old(blockchain.Exact()), old(blockchain.chain), |blockchain.chain| - 1, old(blockchain.storage.log), blockchain.storage.log)
    {
      hide *;
      ghost var s, c, log := blockchain.storage.db, blockchain.chain, blockchain.storage.log;
      ghost var valid, exact := blockchain.Valid(), blockchain.Exact();
      blockchain.ExactMeans();
      PrunedStart(s, height);
      SameExactStart(s, c);
      MatchesKeptStart(s, c);
      if valid { blockchain.ValidParts(); blockchain.ValidTip(); SafeLogStart(exact, c, |c| - 1, log); }
      var currentHeight := blockchain.bestHeight;
      if currentHeight == height {
        assert valid ==> c[..height + 1] == c;
        if valid { SameExactAt(s, c, s, c); }
        return Ok(());
      }
      if currentHeight < height {
        return Err(BelowTarget);
      }
      if currentHeight - height > blockchain.maxReorgDepth {
        return Err(TooDeep);
      }
      var targetBlock := blockchain.storage.db.GetBlockByHeight(height);
      if valid { StandsGetBlock(s, c, height); }
      PresentIs(s, height);
      if targetBlock.None? {
        return Err(BlockNotFound);
      }
      r := DisconnectAbove(currentHeight, height);
      if r.Err? {
        return;
      }
      ghost var v, before := blockchain.storage.db, blockchain.storage.log;
      if valid {
        blockchain.ValidParts();
        blockchain.ExactMeans();
        NothingAbove(v, blockchain.chain);
      }
      SettleAt(height, targetBlock.value);
      PrunedClean(s, v, blockchain.storage.db, height);
      if valid {
        blockchain.ExactMeans();
        SafeLogNext(exact, c, height, log, before, blockchain.storage.db, height);
        SameExactAt(s, c, blockchain.storage.db, blockchain.chain);
        blockchain.ValidAgain();
      }
    }

    // -------------------------------------------------------------- recovering

    /** Deletes what is still found between two heights. */
    method CleanOrphanedData(goodHeight: nat, badHeight: nat)
      modifies blockchain.storage
      ensures Pruned(old(blockchain.storage.db), blockchain.storage.db, goodHeight)
      ensures Cleared(blockchain.storage.db, goodHeight, badHeight)
      ensures blockchain.storage.db.tip == old(blockchain.storage.db).tip
      ensures AllMissing(old(blockchain.storage.db), goodHeight, badHeight) ==>
        && blockchain.storage.db == old(blockchain.storage.db) && blockchain.storage.log == old(blockchain.storage.log)
        && (old(blockchain.Valid()) ==> blockchain.Valid())
    {
      hide Pruned, Orphans.DeleteBlock, Store.GetBlockByHeight, Stands, Recorded, WellFormed;
      ghost var s, clean := blockchain.storage.db, AllMissing(blockchain.storage.db, goodHeight, badHeight);
      PrunedStart(s, goodHeight);
      var height := goodHeight + 1;
      while height <= badHeight
        invariant goodHeight < height && Pruned(s, blockchain.storage.db, goodHeight)
        invariant height <= badHeight + 1 || height == goodHeight + 1
        invariant Cleared(blockchain.storage.db, goodHeight, height - 1)
        invariant blockchain.storage.db.tip == s.tip
        invariant clean ==> blockchain.storage.db == s && blockchain.storage.log == old(blockchain.storage.log)
      {
        ghost var v := blockchain.storage.db;
        assert clean ==> !Present(v, height);
        var block := blockchain.storage.db.GetBlockByHeight(height);
        if block.Some? {
          PresentHash(v, height);
          ghost var deleted := Orphans.DeleteBlock(v, block.value.hash);
          if deleted.Ok? {
            PrunedDelete(s, v, goodHeight, block.value.hash);
            ClearedDelete(v, goodHeight, height);
          } else {
            NotDeleted(v, height);
          }
          var _ := blockchain.storage.DeleteBlock(block.value.hash);
        }
        height := height + 1;
      }
    }

    /** Drops tree nodes above a height and empties the orphan pool. */
    method ResetChainState(height: nat)
      modifies blockchain`orphans, blockchain.tree`blockIndex
      ensures blockchain.orphans == {}
      ensures blockchain.tree.blockIndex
        == map h | h in old(blockchain.tree.blockIndex) && old(blockchain.tree.blockIndex[h]).height <= height :: old(blockchain.tree.blockIndex[h])
      ensures old(blockchain.Valid()) ==> blockchain.Valid()
      ensures old(blockchain.Exact()) ==> blockchain.Exact()
    {
      hide Stands, Recorded, Holds, WellFormed;
      ghost var valid := blockchain.Valid();
      if valid { blockchain.ValidParts(); }
      blockchain.tree.RemoveAbove(height);
      blockchain.orphans := {};
    }

    /** Marks the recovery as failed. */
    method Fail()
      modifies this`state, this`metrics
      ensures state == RecoveryFailed && metrics == Counted(old(metrics), false, RecoveryFailed)
    {
      state := RecoveryFailed;
      metrics := metrics.(recoveryFailures := metrics.recoveryFailures + 1);
    }

    /** Marks the recovery as successful. */
    method Succeed()
      modifies this`state, this`metrics, this`attempts
      ensures state == Normal && attempts == 0 && metrics == Counted(old(metrics), true, Normal)
    {
      state, attempts := Normal, 0;
      metrics := metrics.(recoverySuccess := metrics.recoverySuccess + 1);
    }

    /** Rolls back to a given height, deletes what is left up to another one and
        resets the in-memory state. */
    method RollBackAndClean(forkHeight: nat, badHeight: nat) returns (r: Result<(), ChainError>)
      modifies this`state, this`metrics, this`attempts, this`staleForkRollbacks
      modifies blockchain, blockchain.storage, blockchain.tree`blockIndex
      ensures r.Ok? ==> state == Normal && attempts == 0 && staleForkRollbacks == 0
      ensures r.Err? ==> state == RecoveryFailed && attempts == old(attempts) && staleForkRollbacks == old(staleForkRollbacks)
      ensures metrics == Counted(old(metrics), r.Ok?, state)
      ensures IndexesShrunk(old(blockchain.storage.db), blockchain.storage.db)
      ensures r.Ok? ==>
        && blockchain.bestHeight == forkHeight
        && RolledTo(old(blockchain.storage.db), blockchain.storage.db, old(blockchain.bestHeight), forkHeight)
        && Cleared(blockchain.storage.db, forkHeight, badHeight)
      ensures old(blockchain.Valid()) ==>
        && (r.Ok? <==> forkHeight <= old(blockchain.bestHeight) <= forkHeight + blockchain.maxReorgDepth)
        && |old(blockchain.chain)| == old(blockchain.bestHeight) + 1
        && blockchain.Valid()
        && blockchain.chain == (if r.Ok? then old(blockchain.chain)[..forkHeight + 1] else old(blockchain.chain))
        && (old(blockchain.Exact()) ==> blockchain.Exact())
        && SameExact(old(blockchain.storage.db), old(blockchain.chain), blockchain.storage.db, blockchain.chain)
        && MatchesKept(old(blockchain.storage.db), old(blockchain.chain), blockchain.storage.db)
        && SafeLog(old(blockchain.Exact()), old(blockchain.chain), |blockchain.chain| - 1, old(blockchain.storage.log), blockchain.storage.log)
    {
      hide *;
      ghost var s, from := blockchain.storage.db, blockchain.bestHeight;
      r := RollbackToHeight(forkHeight);
      PrunedShrinks(s, blockchain.storage.db, forkHeight);
      if r.Err? {
        Fail();
        return;
      }
      ghost var v := blockchain.storage.db;
      if blockchain.Valid() {
        blockchain.ValidParts();
        StandsMissing(v, blockchain.chain, badHeight);
        blockchain.ExactMeans();
      }
      state := Recovering;
      CleanOrphanedData(forkHeight, badHeight);
      blockchain.ExactMeans();
      RolledBelow(s, v, blockchain.storage.db, from, forkHeight);
      PrunedTwice(s, v, blockchain.storage.db, forkHeight);
      PrunedShrinks(s, blockchain.storage.db, forkHeight);
      ResetChainState(forkHeight);
      staleForkRollbacks := 0;
      Succeed();
    }

    /** Rolls the tip back when the chain is intact but peers do not build on it. */
    method RollBackStaleFork(currentHeight: nat) returns (r: Result<(), ChainError>)
      requires currentHeight == blockchain.bestHeight
      modifies this`state, this`metrics, this`attempts, this`staleForkRollbacks
      modifies blockchain, blockchain.storage, blockchain.tree`blockIndex
      ensures staleForkRollbacks == Bump(old(staleForkRollbacks))
      ensures r.Ok? ==> state == Normal && attempts == 0
      ensures r.Err? ==>
        && attempts == old(attempts)
        && state == if currentHeight <= StaleDepth(staleForkRollbacks) then Normal else RecoveryFailed
      ensures metrics == Counted(old(metrics), r.Ok?, state)
      ensures IndexesShrunk(old(blockchain.storage.db), blockchain.storage.db)
      ensures r.Ok? ==>
        && blockchain.bestHeight + StaleDepth(staleForkRollbacks) == currentHeight
        && RolledTo(old(blockchain.storage.db), blockchain.storage.db, currentHeight, blockchain.bestHeight)
      ensures old(blockchain.Valid()) ==>
        var d := StaleDepth(staleForkRollbacks);
        && (r.Ok? <==> d < currentHeight && d <= blockchain.maxReorgDepth)
        && |old(blockchain.chain)| == currentHeight + 1
        && blockchain.Valid()
        && blockchain.chain == (if r.Ok? then old(blockchain.chain)[..currentHeight + 1 - d] else old(blockchain.chain))
        && (old(blockchain.Exact()) ==> blockchain.Exact())
        && SameExact(old(blockchain.storage.db), old(blockchain.chain), blockchain.storage.db, blockchain.chain)
        && MatchesKept(old(blockchain.storage.db), old(blockchain.chain), blockchain.storage.db)
        && SafeLog(old(blockchain.Exact()), old(blockchain.chain), |blockchain.chain| - 1, old(blockchain.storage.log), blockchain.storage.log)
    {
      hide *;
      ghost var valid, s := blockchain.Valid(), blockchain.storage.db;
      PrunedStart(s, currentHeight);
      PrunedShrinks(s, s, currentHeight);
      SameExactStart(s, blockchain.chain);
      MatchesKeptStart(s, blockchain.chain);
      staleForkRollbacks := Bump(staleForkRollbacks);
      var staleForkRollbackDepth := StaleDepth(staleForkRollbacks);
      if valid {
        blockchain.ValidTip();
        SafeLogStart(blockchain.Exact(), blockchain.chain, |blockchain.chain| - 1, blockchain.storage.log);
      }
      if currentHeight <= staleForkRollbackDepth {
        state := Normal;
        CountedNeither(metrics);
        return Err(ChainTooShort);
      }
      var rollbackTo := currentHeight - staleForkRollbackDepth;
      state := RollingBack;
      r := RollbackToHeight(rollbackTo);
      PrunedShrinks(s, blockchain.storage.db, rollbackTo);
      if r.Err? {
        Fail();
        return;
      }
      PrunedStart(blockchain.storage.db, rollbackTo);
      RolledBelow(s, blockchain.storage.db, blockchain.storage.db, currentHeight, rollbackTo);
      if valid {
        blockchain.ValidParts();
        StandsGetBlock(blockchain.storage.db, blockchain.chain, rollbackTo);
      }
      if blockchain.storage.db.GetBlockByHeight(rollbackTo).None? {
        Fail();
        return Err(BlockNotFound);
      }
      ResetChainState(rollbackTo);
      Succeed();
    }

    /** Where the recovery stands. */
    ghost function Standing(): Progress
      reads this, blockchain
    {
      Progress(blockchain.bestHeight, attempts, staleForkRollbacks, state)
    }

    lemma StandingIs()
      ensures Standing() == Progress(blockchain.bestHeight, attempts, staleForkRollbacks, state)
    {
    }

    /** The recovery away from checkpoint heights: back from the tip if the search
        reports no corruption, otherwise back to the fork point, on any database. */
    method RecoverUnpinned() returns (r: Result<(), ChainError>)
      modifies this`state, this`metrics, this`attempts, this`staleForkRollbacks
      modifies blockchain, blockchain.storage, blockchain.tree`blockIndex
      ensures r.Ok? ==> state == Normal && attempts == 0
      ensures r.Err? ==> attempts == old(attempts)
      ensures metrics == Counted(old(metrics), r.Ok?, state)
      ensures IndexesShrunk(old(blockchain.storage.db), blockchain.storage.db)
      ensures r.Ok? ==>
        && RolledTo(old(blockchain.storage.db), blockchain.storage.db, old(blockchain.bestHeight), blockchain.bestHeight)
        && Destination(old(blockchain.storage.db), blockchain.checkpoints.checkpoints, blockchain.checkpoints.badBlocks,
                       old(blockchain.bestHeight), Bump(old(staleForkRollbacks)), blockchain.bestHeight)
      ensures old(blockchain.Valid()) ==>
        var n := Bump(old(staleForkRollbacks));
        var d := StaleDepth(n);
        && (r.Ok? <==> d < old(blockchain.bestHeight) && d <= blockchain.maxReorgDepth)
        && staleForkRollbacks == n && |old(blockchain.chain)| == old(blockchain.bestHeight) + 1
        && blockchain.Valid()
        && blockchain.chain == (if r.Ok? then old(blockchain.chain)[..old(blockchain.bestHeight) + 1 - d] else old(blockchain.chain))
        && (old(blockchain.Exact()) ==> blockchain.Exact())
        && SameExact(old(blockchain.storage.db), old(blockchain.chain), blockchain.storage.db, blockchain.chain)
        && MatchesKept(old(blockchain.storage.db), old(blockchain.chain), blockchain.storage.db)
        && SafeLog(old(blockchain.Exact()), old(blockchain.chain), |blockchain.chain| - 1, old(blockchain.storage.log), blockchain.storage.log)
        && (r.Err? ==> state == if old(blockchain.bestHeight) <= d then Normal else RecoveryFailed)
    {
      hide *;
      ghost var s, cps, bad := blockchain.storage.db, blockchain.checkpoints.checkpoints, blockchain.checkpoints.badBlocks;
      ghost var n := Bump(staleForkRollbacks);
      PrunedStart(s, 0);
      PrunedShrinks(s, s, 0);
      var currentHeight := blockchain.bestHeight;
      var c := FindActualCorruptionPoint(currentHeight);
      if blockchain.Valid() {
        blockchain.ValidTip();
        blockchain.ValidParts();
        StandsIntact(blockchain.storage.db, blockchain.chain, c);
      }
      if c == 0 {
        r := RollBackStaleFork(currentHeight);
        if r.Ok? { DestinationIs(s, cps, bad, currentHeight, n, blockchain.bestHeight, c); }
        return;
      }
      var fork := FindForkPoint(c);
      if fork.Err? {
        Fail();
        return Err(fork.error);
      }
      ForkFoundIs(s, cps, bad, c, fork.value.0, fork.value.1);
      DestinationIs(s, cps, bad, currentHeight, n, fork.value.0, c);
      state := RollingBack;
      r := RollBackAndClean(fork.value.0, c);
    }

    /** The recovery at a checkpoint height. */
    method RecoverPinned(detectedHeight: nat) returns (r: Result<(), ChainError>)
      modifies this`state, this`metrics, this`attempts, this`staleForkRollbacks
      modifies blockchain, blockchain.storage, blockchain.tree`blockIndex
      ensures r.Ok? ==> state == Normal && attempts == 0 && staleForkRollbacks == 0
      ensures r.Err? ==> attempts == old(attempts)
      ensures metrics == Counted(old(metrics), r.Ok?, state)
      ensures IndexesShrunk(old(blockchain.storage.db), blockchain.storage.db)
      ensures r.Ok? ==>
        && RolledTo(old(blockchain.storage.db), blockchain.storage.db, old(blockchain.bestHeight), blockchain.bestHeight)
        && BackToSafe(old(blockchain.storage.db), blockchain.checkpoints.checkpoints, detectedHeight, blockchain.bestHeight)
      ensures old(blockchain.Valid()) ==>
        && blockchain.Valid() && IsPrefix(blockchain.chain, old(blockchain.chain))
        && (old(blockchain.Exact()) ==> blockchain.Exact())
        && SameExact(old(blockchain.storage.db), old(blockchain.chain), blockchain.storage.db, blockchain.chain)
        && MatchesKept(old(blockchain.storage.db), old(blockchain.chain), blockchain.storage.db)
        && (r.Err? ==> blockchain.chain == old(blockchain.chain))
        && SafeLog(old(blockchain.Exact()), old(blockchain.chain), |blockchain.chain| - 1, old(blockchain.storage.log), blockchain.storage.log)
        && (r.Ok? ==> blockchain.bestHeight == |blockchain.chain| - 1)
    {
      hide *;
      ghost var c, s, cps := blockchain.chain, blockchain.storage.db, blockchain.checkpoints.checkpoints;
      var forkHeight, _ := FindCheckpointBeforeMismatch(detectedHeight);
      r := RollBackAndClean(forkHeight, blockchain.bestHeight);
      PrefixIs(c, forkHeight + 1);
      PrefixIs(c, |c|);
      assert c[..|c|] == c;
      if blockchain.Valid() { blockchain.ValidTip(); }
    }

    /** Recovers from a fork detected at a height.  On any database, a recovery that
        succeeds ends at the safe checkpoint if the height is pinned, otherwise at the
        fork point of the damage found, or one stale-fork step down if none was found;
        indexes only lose entries, and none stays above the new tip.  On an intact
        chain the result is exactly the shorter chain. */
    method RecoverFromFork(detectedHeight: nat) returns (r: Result<(), ChainError>)
      modifies this`state, this`metrics, this`attempts, this`staleForkRollbacks
      modifies blockchain, blockchain.storage, blockchain.tree`blockIndex
      ensures r.Ok? ==> state == Normal && attempts == 0
      ensures metrics == Counted(Detected(old(metrics), detectedHeight, old(attempts)), r.Ok?, state)
      ensures
        && metrics.forkDetections == old(metrics).forkDetections + 1 && metrics.lastForkHeight == detectedHeight
        && metrics.recoveryAttempts == old(metrics).recoveryAttempts + (if old(attempts) < 3 then 1 else 0)
        && metrics.recoverySuccess == old(metrics).recoverySuccess + (if r.Ok? then 1 else 0)
        && metrics.recoveryFailures == old(metrics).recoveryFailures + (if r.Err? && state == RecoveryFailed then 1 else 0)
      ensures old(attempts) >= 3 ==>
        && r == Err(TooManyAttempts) && attempts == old(attempts)
        && blockchain.storage.db == old(blockchain.storage.db) && blockchain.Memory() == old(blockchain.Memory())
      ensures old(attempts) < 3 && r.Err? ==> attempts == old(attempts) + 1
      ensures IndexesShrunk(old(blockchain.storage.db), blockchain.storage.db)
      ensures r.Ok? ==>
        RolledTo(old(blockchain.storage.db), blockchain.storage.db, old(blockchain.bestHeight), blockchain.bestHeight)
      ensures r.Ok? && detectedHeight !in blockchain.checkpoints.checkpoints ==>
        Destination(old(blockchain.storage.db), blockchain.checkpoints.checkpoints, blockchain.checkpoints.badBlocks,
                    old(blockchain.bestHeight), Bump(old(staleForkRollbacks)), blockchain.bestHeight)
      ensures r.Ok? && detectedHeight in blockchain.checkpoints.checkpoints ==>
        BackToSafe(old(blockchain.storage.db), blockchain.checkpoints.checkpoints, detectedHeight, blockchain.bestHeight)
      ensures old(blockchain.Valid()) ==>
        && blockchain.Valid() && IsPrefix(blockchain.chain, old(blockchain.chain))
        && (old(blockchain.Exact()) ==> blockchain.Exact())
        && SameExact(old(blockchain.storage.db), old(blockchain.chain), blockchain.storage.db, blockchain.chain)
        && MatchesKept(old(blockchain.storage.db), old(blockchain.chain), blockchain.storage.db)
        && (r.Err? ==> blockchain.chain == old(blockchain.chain))
        && SafeLog(old(blockchain.Exact()), old(blockchain.chain), |blockchain.chain| - 1, old(blockchain.storage.log), blockchain.storage.log)
      ensures old(blockchain.Valid()) && detectedHeight !in blockchain.checkpoints.checkpoints ==>
        Standing() == StaleStep(old(Standing()), blockchain.maxReorgDepth)
      ensures old(blockchain.Valid()) && detectedHeight in blockchain.checkpoints.checkpoints && r.Ok? ==>
        staleForkRollbacks == 0 && blockchain.bestHeight == |blockchain.chain| - 1
    {
      hide *;
      ghost var p, chain := Standing(), blockchain.chain;
      SameExactStart(blockchain.storage.db, chain);
      MatchesKeptStart(blockchain.storage.db, chain);
      PrunedStart(blockchain.storage.db, 0);
      PrunedShrinks(blockchain.storage.db, blockchain.storage.db, 0);
      StandingIs();
      DetectedIs(metrics, detectedHeight, attempts);
      CountedIs(Detected(metrics, detectedHeight, attempts));
      PrefixIs(chain, |chain|);
      assert chain[..|chain|] == chain;
      if blockchain.Valid() {
        blockchain.ValidTip();
        SafeLogStart(blockchain.Exact(), blockchain.chain, |blockchain.chain| - 1, blockchain.storage.log);
      }
      state := InconsistencyDetected;
      metrics := metrics.(forkDetections := metrics.forkDetections + 1, lastForkHeight := detectedHeight);
      if attempts >= MAX_ATTEMPTS {
        StepExhausted(p, blockchain.maxReorgDepth);
        Fail();
        StandingIs();
        return Err(TooManyAttempts);
      }
      StepTaken(p, blockchain.maxReorgDepth);
      attempts := attempts + 1;
      metrics := metrics.(recoveryAttempts := metrics.recoveryAttempts + 1);
      if detectedHeight in blockchain.checkpoints.checkpoints {
        r := RecoverPinned(detectedHeight);
      } else {
        r := RecoverUnpinned();
        PrefixIs(chain, |blockchain.chain|);
        if blockchain.Valid() { blockchain.ValidTip(); }
        StandingIs();
      }
    }
  }

  predicate IsPrefix(c: seq<Block>, d: seq<Block>) {
    |c| <= |d| && c == d[..|c|]
  }

  lemma PrefixIs(d: seq<Block>, n: nat)
    ensures n <= |d| ==> IsPrefix(d[..n], d)
  {
  }

  /** On an intact chain the search finds nothing. */
  lemma StandsIntact(s: Store, chain: seq<Block>, c: nat)
    requires Stands(s, chain) && chain != [] && CorruptionPoint(s, |chain| - 1, c)
    ensures c == 0
  {
    hide Stands, Joined, CorruptionPoint;
    forall h: nat | 0 < h < |chain| ensures Joined(s, h) {
      StandsJoined(s, chain, h);
    }
    NoCorruptionIff(s, |chain| - 1, c);
  }

  lemma StandsMissing(s: Store, c: seq<Block>, bad: nat)
    requires Stands(s, c) && c != []
    ensures AllMissing(s, |c| - 1, bad)
  {
    TipHeight(s, c);
    hide Stands;
  }

  /** What is still found between two heights is not in the hash index, so it could not be deleted. */
  ghost predicate Cleared(s: Store, lo: nat, hi: nat) {
    forall h: nat | lo < h <= hi && Present(s, h) :: s.heightToHash[h] !in s.hashToHeight
  }

  lemma NotDeleted(s: Store, h: nat)
    requires Present(s, h) && Orphans.DeleteBlock(s, s.heightToHash[h]).Err?
    ensures s.heightToHash[h] !in s.hashToHeight
  {
  }

  /** Deleting the block found at a height clears that height and keeps the lower ones clear. */
  lemma ClearedDelete(s: Store, lo: nat, h: nat)
    requires lo < h && Cleared(s, lo, h - 1) && Present(s, h) && Orphans.DeleteBlock(s, s.heightToHash[h]).Ok?
    ensures Cleared(Orphans.DeleteBlock(s, s.heightToHash[h]).value, lo, h)
  {
    var x := s.heightToHash[h];
    var w := Orphans.DeleteBlock(s, x).value;
    forall k: nat | lo < k <= h && Present(w, k) ensures w.heightToHash[k] !in w.hashToHeight {
      PresentBefore(s, x, k);
    }
  }

  /** Deleting never makes a block appear. */
  lemma PresentBefore(s: Store, x: Hash, k: nat)
    requires Orphans.DeleteBlock(s, x).Ok? && Present(Orphans.DeleteBlock(s, x).value, k)
    ensures Present(s, k) && Orphans.DeleteBlock(s, x).value.heightToHash[k] == s.heightToHash[k] && s.heightToHash[k] != x
  {
  }

  lemma CountedNeither(m: RecoveryMetrics)
    ensures Counted(m, false, Normal) == m
  {
  }

  lemma CountedIs(m: RecoveryMetrics)
    ensures forall ok, state :: var n := Counted(m, ok, state);
      && n.forkDetections == m.forkDetections && n.lastForkHeight == m.lastForkHeight && n.recoveryAttempts == m.recoveryAttempts
      && n.recoverySuccess == m.recoverySuccess + (if ok then 1 else 0)
      && n.recoveryFailures == m.recoveryFailures + (if !ok && state == RecoveryFailed then 1 else 0)
  {
  }

  lemma DetectedIs(m: RecoveryMetrics, height: nat, attempts: nat)
    ensures var noted := m.(forkDetections := m.forkDetections + 1, lastForkHeight := height);
      Detected(m, height, attempts)
        == if attempts >= MAX_ATTEMPTS then noted else noted.(recoveryAttempts := noted.recoveryAttempts + 1)
    ensures MAX_ATTEMPTS == 3
  {
  }

  lemma PresentHash(s: Store, h: nat)
    requires Present(s, h)
    ensures h in s.heightToHash && s.GetBlockByHeight(h).value.hash == s.heightToHash[h]
  {
  }

  lemma PresentIs(s: Store, h: nat)
    ensures Present(s, h) <==> s.GetBlockByHeight(h).Some?
  {
  }

  lemma NearestUnique(checkpoints: map<nat, Hash>, h: nat, m: nat)
    requires NearestBelow(checkpoints, h, m)
    ensures forall other | NearestBelow(checkpoints, h, other) :: other == m
  {
  }

  lemma UsableIsPresent(s: Store, checkpoints: map<nat, Hash>, badBlocks: map<nat, Hash>, h: nat)
    ensures Usable(s, checkpoints, badBlocks, h) ==> Present(s, h)
  {
  }

  lemma NothingAbove(s: Store, c: seq<Block>)
    requires Stands(s, c) && c != []
    ensures Above(s, |c| - 1) == {}
    ensures s.(tip := Some(Tip(|c| - 1, c[|c| - 1].hash))) == s
  {
    TipHeight(s, c);
    hide Stands;
  }
}
