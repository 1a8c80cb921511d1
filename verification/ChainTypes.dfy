/** Blocks, transactions and outputs as the chain-state code sees them.

    A block carries its hash and a transaction its id: hashing itself is not
    modelled, so every statement below holds for whatever hash function the
    program uses.  A script is kept as the outcome of AnalyzeScript. */
module ChainTypes {
  import opened Wrappers

  type Hash = nat

  const ZERO_HASH: Hash := 0
  const MAX_UINT32: nat := 0xffff_ffff

  datatype Outpoint = Outpoint(hash: Hash, index: nat)

  datatype Script = EmptyScript | Unaddressable(tag: nat) | PayTo(scriptHash: nat)

  datatype TxOutput = TxOutput(value: int, script: Script)

  datatype Transaction = Transaction(txid: Hash, inputs: seq<Outpoint>, outputs: seq<TxOutput>) {

    predicate IsCoinbase() {
      inputs == [Outpoint(ZERO_HASH, MAX_UINT32)]
    }

    predicate IsCoinStake() {
      && |inputs| >= 1
      && inputs[0].hash != ZERO_HASH
      && |outputs| >= 2
      && outputs[0].value == 0
      && outputs[0].script == EmptyScript
    }

    /** The outpoints this transaction really spends: none for a coinbase. */
    function Spends(): seq<Outpoint> {
      if IsCoinbase() then [] else inputs
    }
  }

  datatype Block = Block(hash: Hash, prev: Hash, txs: seq<Transaction>)

  /** The address an output is indexed under, if it has one. */
  function AddressOf(script: Script): Option<nat> {
    if script.PayTo? && script.scriptHash != 0 then Some(script.scriptHash) else None
  }

  /** uint32 predecessor: height 0 wraps. */
  function PredHeight(h: nat): nat {
    if h == 0 then MAX_UINT32 else h - 1
  }

  datatype ChainError =
    | AllBlocksExist
    | BlockExists
    | ParentNotFound
    | HeightNotAdvancing
    | PreValidationFailed
    | CheckpointFailed
    | InvalidBlock
    | UtxoNotFound
    | AlreadySpent
    | ForkDuplicateSpend(forkHeight: nat)
    | BlockNotFound
    | BelowTarget
    | TooDeep
    | NoCommonAncestor
    | TooManyAttempts
    | ChainTooShort
    | CycleDetected
}
