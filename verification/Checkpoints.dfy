/** Checkpoints and blacklisted blocks. */
module Checkpoints {
  import opened ChainTypes

  datatype Checkpoint = Checkpoint(height: nat, hash: Hash)

  class CheckpointManager {
    var checkpoints: map<nat, Hash>
    var badBlocks: map<nat, Hash>
    var lastHeight: nat

    /** lastHeight is the greatest checkpoint height, 0 if there is none. */
    ghost predicate Good()
      reads this
    {
      && (forall h | h in checkpoints :: h <= lastHeight)
      && (lastHeight > 0 ==> lastHeight in checkpoints)
    }

    constructor ()
      ensures Good() && checkpoints == map[] && badBlocks == map[] && lastHeight == 0
    {
      checkpoints, badBlocks, lastHeight := map[], map[], 0;
    }

    /** Loads a list of checkpoints; of several for one height the last one counts,
        and heights not in the list keep their hashes. */
    method Load(list: seq<Checkpoint>)
      requires Good()
      modifies this`checkpoints, this`lastHeight
      ensures Good()
      ensures forall i | 0 <= i < |list| :: list[i].height in checkpoints
      ensures forall h | h in checkpoints :: h in old(checkpoints) || exists i :: 0 <= i < |list| && list[i].height == h
      ensures forall h | h in old(checkpoints) && (forall i | 0 <= i < |list| :: list[i].height != h) ::
        h in checkpoints && checkpoints[h] == old(checkpoints)[h]
      ensures forall i | 0 <= i < |list| && (forall j | i < j < |list| :: list[j].height != list[i].height) ::
        checkpoints[list[i].height] == list[i].hash
    {
      for n := 0 to |list|
        invariant Good()
        invariant forall i | 0 <= i < n :: list[i].height in checkpoints
        invariant forall h | h in checkpoints :: h in old(checkpoints) || exists i :: 0 <= i < n && list[i].height == h
        invariant forall h | h in old(checkpoints) && (forall i | 0 <= i < n :: list[i].height != h) ::
          h in checkpoints && checkpoints[h] == old(checkpoints)[h]
        invariant forall i | 0 <= i < n && (forall j | i < j < n :: list[j].height != list[i].height) ::
          checkpoints[list[i].height] == list[i].hash
      {
        checkpoints := checkpoints[list[n].height := list[n].hash];
        if list[n].height > lastHeight {
          lastHeight := list[n].height;
        }
      }
    }

    method AddDynamicCheckpoint(height: nat, hash: Hash)
      requires Good()
      modifies this`checkpoints, this`lastHeight
      ensures Good() && checkpoints == old(checkpoints)[height := hash]
    {
      checkpoints := checkpoints[height := hash];
      if height > lastHeight {
        lastHeight := height;
      }
    }

    /** Accepts a block unless it is blacklisted or differs from the checkpoint at its height. */
    function ValidateCheckpoint(height: nat, hash: Hash): (ok: bool)
      reads this
      ensures ok && height in checkpoints ==> checkpoints[height] == hash
      ensures ok && height in badBlocks ==> badBlocks[height] != hash
      ensures !ok ==>
        || (height in checkpoints && checkpoints[height] != hash)
        || (height in badBlocks && badBlocks[height] == hash)
    {
      if height in badBlocks && hash == badBlocks[height] then false
      else if height in checkpoints && hash != checkpoints[height] then false
      else true
    }

    predicate IsCheckpointHeight(height: nat)
      reads this
    {
      height in checkpoints
    }

    /** The highest checkpoint at or below a height.  The search starts from
        height 0 with a strict comparison, so the genesis checkpoint is never found. */
    method GetNearestCheckpoint(height: nat) returns (nearestHeight: nat, nearestHash: Hash, found: bool)
      ensures found <==> exists h :: h in checkpoints && 0 < h <= height
      ensures found ==>
        && nearestHeight in checkpoints && nearestHeight <= height && nearestHash == checkpoints[nearestHeight]
        && forall h | h in checkpoints && h <= height :: h <= nearestHeight
    {
      nearestHeight, nearestHash, found := 0, ZERO_HASH, false;
      var keys := checkpoints.Keys;
      while keys != {}
        invariant keys <= checkpoints.Keys
        invariant found <==> nearestHeight > 0
        invariant found ==> nearestHeight in checkpoints && nearestHeight <= height && nearestHash == checkpoints[nearestHeight]
        invariant forall h | h in checkpoints && h !in keys && h <= height :: h <= nearestHeight
        decreases keys
      {
        var checkHeight :| checkHeight in keys;
        if checkHeight <= height && checkHeight > nearestHeight {
          nearestHeight, nearestHash, found := checkHeight, checkpoints[checkHeight], true;
        }
        keys := keys - {checkHeight};
      }
    }
  }
}
