# Chain state of TWINS Core, modelled in Dafny

The model follows the code that keeps the block chain of a TWINS Core node: connecting blocks
singly and in batches, disconnecting them, rolling back to a height, recovering from forks and
from damaged indexes.  It also covers four self-contained algorithms: the configuration printer,
the command line reorderer, the Merkle root and the emission schedule.

## How it is built

- `ChainTypes`, `Storage`: blocks, transactions and one durable database state.  A batch is the
  state its commit would produce, so it reads its own writes.
- `Connect`, `Orphans`: what connecting, disconnecting and cleaning up do to a state, as functions.
- `AddressHistory`: what a block writes to the address history, by scripts and positions.
- `Undo`, `Replay`, `Chains`: connect and disconnect are inverse; `Holds(s, c)` says that database
  `s` is what chain `c` replays to, up to money supply entries above its tip.
- `Completeness`, `Lines`: the stored invariant that survives every accepted batch, also one that
  spends an output twice; `Stands(s, c)` says that `s` satisfies it and stores chain `c`.
- `Batches`, `Chunks`: several blocks in one batch, and long batches in chunks of 500.
- `Unwinding`: batches taken back block by block, and when a database is exact again afterwards.
- `Outcomes`: what any list of blocks does in any state, as a function, and what a batch that starts
  below the tip leaves.
- `Ledger`, `Totals`, `Drifts`, `Sums`: what the stored supply and the address history add up to, per
  batch, per disconnect and in every state.
- `Database`, `BlockTree`, `Checkpoints`, `BlockChain`, `Recovery`, `IndexCheck`: the mutable
  objects, with their loops.  `BlockChain.Valid` ties the database, the tip in memory, the caches and
  the tree to one ghost chain; every operation keeps it, whatever the blocks spend, except a batch that
  branches off below the tip.  `BlockChain.Exact` says
  that the database is besides what the chain leads to one block at a time; the contracts say exactly
  which batches keep that.  The ghost `log` of the database lists every durable state in order, so
  statements about it are statements about crashes.
- `Pruning`, `ForkSearch`, `StaleForks`, `Ancestry`, `Cleanup`: what recovery does to databases that
  are not consistent, where a chain is broken, repeated rollbacks, walks over branches, and the orphan
  cleanup against a proper disconnect.
- `Yaml`, `DottedKeys`, `ConfigFile`, `Cli`, `Merkle`, `Emission`: the self-contained algorithms.

## What came out differently from the comments in the code

- A batch checks the spender of an already spent output in the database as it was before the batch.  Two
  blocks of one batch, or two transactions of one block, can therefore spend the same output.
  `BatchIsSequential` says exactly when the blocks would not have gone in one at a time, `BatchDrift`
  by how much supply and balances are off afterwards, `BatchUndoneIff` when a disconnect then fails to
  restore what was there, `BatchUndone` that taking back the whole batch restores it after all;
  `DoubleSpendAcrossBatch`, `DoubleSpendBreaksSupply` and `DoubleSpendInBlock` are inputs on which it
  happens.  Across the 500-block chunks of a long batch it cannot happen
  (`CrossChunkRefused`).  Full validation refuses a repeated input inside one block
  (internal/consensus/validation.go:610-631); the simplified validation during the initial download
  does not.
- Disconnecting leaves the money supply entry of the height in place (`SupplyStaysBehind`).  The next
  block at that height overwrites it, and connecting never reads above the tip.
- The parent of a disconnected block is loaded after the commit, so a missing parent is reported with
  the database already changed (`ParentMissedTooLate`).  The known-blocks cache then still lists the
  block, and lookups answer that it is stored (`StaleCache`); `DisconnectBlock` says exactly when.
- A single block that names no parent passes the height check and breaks the line; only the checkpoint
  at height 0 keeps it out (`SingleKeepsLineIff`, `SecondGenesisGoesIn`), and `GetNearestCheckpoint`
  never reports that checkpoint.
- A batch of more than 500 blocks whose first 500 are stored is refused although later blocks are new
  (`KnownStart`, `LongBatchRefused`, `FirstRefused`), and of the batches whose chunks are in order only
  such a one is refused as known (`ProcessInChunks`).
- Several blocks in one batch may start on a block below the tip, where a single block is refused.  They
  take over the heights, and the tip if they reach above it, without disconnecting the blocks that are
  there (`BranchDisplaces`, `BranchGoesIn`); a batch keeps the single line exactly if it starts on the
  tip (`LineKeptIff`).
- The corruption search also answers "none" when only the parent link of block 1 is broken, and when
  every block above a broken block 1 is missing (`NoCorruptionIff`, `BrokenLinkMissed`).
- An index repair can report success without repairing: when the target is the tip itself, or when an
  entry at height 0 is bad (`RecoverFromIndexInconsistency`, `RepairMissesAtTip`, `RepairMissesAtZero`).
- The cleanup of orphaned blocks writes back outputs that the orphaned block both created and spent
  (`CleanupRestoresIff`, `CleanupWritesBack`).
- The fork-point search goes by the connected marks of the block tree, which are not the ancestors of the
  tip when a second branch was entered or after a restart.  It can then miss the fork point
  (`ForkPointMissed`).  It finds it exactly if the highest common ancestor is marked and every marked
  ancestor of the new tip is an ancestor of it too (`MarksLeadTo`, `FindForkPoint`).

## Model

| member | source | states |
|---|---|---|
| Storage.MarkSpent | internal/storage/binary/batch.go:211-435 | spending an output succeeds only if it exists, and then changes nothing but its spending marker |
| Database.BinaryBatch.MarkUTXOSpent | internal/storage/binary/batch.go:211-435 | a missing output is refused; the same spend again goes through; a marker whose spender the committed database still holds in the block at the marked height is refused, with the fork height if it is the same transaction; any other marker is stale and overwritten; on refusal the batch is unchanged |
| Database.BinaryBatch.UnspendUTXO | internal/storage/binary/batch.go:439-489 | clears the marker and nothing else; an unspent output is left alone, a missing one reported |
| Database.BinaryBatch.StoreBlockWithHeight | internal/storage/binary/batch.go:54-118 | stores the compact block and every transaction at its own position |
| Database.BinaryBatch.StoreBlockIndex | internal/storage/binary/batch.go:549-566 | enters both directions of the height index |
| Database.BinaryBatch.StoreUTXO | internal/storage/binary/batch.go:145-180 | enters a new unspent output |
| Database.BinaryBatch.DeleteTransaction | internal/storage/binary/batch.go:643-706 | removes a transaction that the committed database knows, with the history entries of its outputs and of its inputs; otherwise nothing |
| Database.BinaryBatch.DeleteBlockDisconnect | internal/storage/binary/batch.go:494-519 | removes the block and exactly its two index entries |
| Database.BinaryBatch.IndexTransactionByAddress | internal/storage/binary/batch.go:719-748 | refuses a position beyond 15 bits; otherwise enters one history entry under a key that tells inputs from outputs |
| Database.BinaryBatch.Commit | internal/storage/binary/batch.go:607-613 | makes the whole batch durable as one logged state |
| Database.BinaryStorage.DeleteBlock | internal/storage/binary/interface_impl.go:133-234 | succeeds exactly for an indexed block that loads; then the block, its transactions, both index entries and the history of its height are gone in one step, and nothing else |
| Database.BinaryStorage.DeleteOrphanedBlock | internal/storage/binary/interface_impl.go:345-492 | one step removes the block, its transactions if it loads, its hash entry, the height entry only if it names this block, and the history of its height; outputs it made go, outputs it spent are unspent (`RolledBack`); nothing else changes |
| Database.BinaryStorage.CleanOrphanedBlocks | internal/storage/binary/interface_impl.go:296-334 | every block entered above the height is removed with its entries and the history of its height, in key order and each in a step of its own; a transaction record goes exactly if it belongs to an orphan that loads when its turn comes (`LoadInTurn`); entries up to the height, tip and supply stay |
| Orphans.CleanIndexes | internal/storage/binary/interface_impl.go:296-334 | deleting any set of blocks entered above a height removes exactly their hash entries and no height entry up to that height |
| Orphans.AllCleanedUp | internal/storage/binary/interface_impl.go:296-492 | what cleaning up any set of blocks leaves of blocks, transactions, both indexes, history, tip and supply |
| Orphans.AllLoadInTurn | internal/storage/binary/interface_impl.go:367-375 | if no two orphans that load share a transaction, all that load have their transactions removed |
| Orphans.RollBackMeans | internal/storage/binary/interface_impl.go:378-445 | rolling back a list of transactions: what they made is gone unless one of them spent it at or after its place, what they spent at this height is unspent, every other output stays as it is |
| BlockChains.BlockChain.ApplyBlockTxs | internal/blockchain/unified_processor.go:652-700 | the loop over inputs and outputs equals the fold that specifies it, including where it fails |
| BlockChains.BlockChain.ApplyBlockToBatch | internal/blockchain/unified_processor.go:629-757 | the batch becomes the connected state except for address history; the supply is the same whether the previous one came from the batch cache or from storage |
| BlockChains.BlockChain.GetSpentOutputsForTx | internal/blockchain/unified_processor.go:42-79 | one output per real input, in input order |
| BlockChains.BlockChain.IndexBlockTransactions | internal/blockchain/unified_processor.go:18-40 | writes one entry for each output that pays an address and for each input that spends such an output, under the script hash of that very output and at its own position up to 0x7fff, and no other entry (`Writes`) |
| AddressHistory.ConnectHistory | internal/blockchain/unified_processor.go:106-164 | after an accepted connect the history holds exactly these entries, with value, direction bit and block hash, the outputs behind the inputs being those that stood before the block or were made by it; every other entry is an old one |
| AddressHistory.BlockWritten | internal/blockchain/unified_processor.go:106-164 | the same for the history fold alone |
| AddressHistory.OutputsEntered | internal/blockchain/unified_processor.go:683-700 | every output of a block is entered with its value and script, the height, and the coinbase flag exactly for coinbases and coinstakes |
| BlockChains.BlockChain.PreValidateBatch | internal/blockchain/unified_processor.go:842-900 | passes if and only if the first parent is known and the batch is sound |
| BlockChains.BlockChain.SkipStored | internal/blockchain/unified_processor.go:244-272 | skips exactly the blocks at the start that the tree or the database knows |
| BlockChains.SoundMeans | internal/blockchain/unified_processor.go:860-888 | a batch is sound exactly if links are continuous, no two hashes are equal, and every block has a first transaction that is a coinbase or a coinstake |
| BlockChains.BlockChain.FillBatch | internal/blockchain/unified_processor.go:423-525 | in any state: the first height comes from the stored parent and rises by one; the error is that of the first block that fails its checkpoint, validation or inputs, otherwise the view is the state after all blocks and the height cache lists them all |
| BlockChains.BlockChain.CommitBatch | internal/blockchain/unified_processor.go:390-600 | in any state: one durable step with every view moved as `Committed` says, or the error with nothing moved; cache and tree keep agreeing with storage wherever the batch starts; between operations it succeeds exactly if the blocks can be connected to the tip or to a block below it: on the tip they lengthen the chain, exact again if and only if no two of them spend one outpoint; below the tip the line is broken |
| BlockChains.BlockChain.CheckSingle | internal/blockchain/unified_processor.go:348-385 | in any state the exact verdict; between operations the height-must-advance rule leaves only the tip as parent of a single block, and the error tells a missing parent from a low height |
| BlockChains.BlockChain.ProcessBatchInternal | internal/blockchain/unified_processor.go:238-600 | in any state and for any blocks: the exact result, error and new state; between operations: known prefix skipped, the error for known blocks if and only if all are stored, success exactly if the new blocks connect on the tip, branch off below it in a batch of several, or wait alone in the orphan pool |
| BlockChains.BlockChain.ProcessInChunks | internal/blockchain/unified_processor.go:215-231 | in any state and for any blocks: result and state are those of the chunks one after another up to the first that is refused (`RunChunks`); between operations, up to the first chunk that is out of order: each chunk went in in one durable step and nothing else did, the chain grew by exactly their blocks, it stays exact if and only if no chunk spends an outpoint in two of its blocks, a run stops only at a chunk that cannot be connected here or a first chunk that is stored, and the error for known blocks means that the whole first chunk was stored |
| BlockChains.BlockChain.ProcessBatchUnifiedLocked | internal/blockchain/unified_processor.go:196-234 | both paths: the exact result and state for any input, and what they mean between operations |
| BlockChains.BlockChain.UndoBlockTxs | internal/blockchain/process.go:95-140 | the reverse loop equals the fold that specifies undoing |
| BlockChains.BlockChain.DisconnectBlock | internal/blockchain/process.go:82-206 | any state: one durable step or no change at all; on an error memory and tree are untouched, so the cache keeps agreeing with storage exactly unless the step was committed and the block was cached; between operations the last block always goes, every view stays in step, the database below it is exact if and only if it was, and without negative output values right totals stay right |
| Connect.SpendInputsSpec | internal/blockchain/unified_processor.go:656-680 | spending a list of inputs marks exactly those and captures exactly their outputs |
| Undo.SpendInputsOkIff | internal/blockchain/unified_processor.go:656-672 | spending succeeds if and only if every input exists and is unspent, stale, or spent by this very transaction here |
| Undo.ApplyTxsShape | internal/blockchain/unified_processor.go:652-700 | a block adds its outputs, marks its inputs and touches nothing else |
| Undo.UndoTxsSpec | internal/blockchain/process.go:95-140 | undoing in reverse removes the created outputs, clears the markers of the inputs, and removes transactions and history |
| Undo.ApplyTxsUndoReady | internal/blockchain/process.go:94-131 | undone from the end, every transaction still finds its inputs, even when transactions of the block spend each other |
| Undo.StoreTxsSpec | internal/storage/binary/batch.go:54-118 | the stored index holds every transaction at its place and the others unchanged |
| Undo.IndexTxsSpec | internal/blockchain/unified_processor.go:106-164 | indexing a block writes only keys of its own transactions |
| Undo.UndoHistory | internal/storage/binary/batch.go:643-706 | deleting by the transaction index removes every history key the block wrote |
| Replay.AppendKeeps | internal/blockchain/unified_processor.go:629-757 | connecting a new block on the tip keeps indexes, links, transaction index, UTXO set and history in agreement |
| Replay.MarkersConfirmed | internal/storage/binary/batch.go:346-394 | in an agreeing store no spending marker is stale |
| Replay.DisconnectUndoesAppend | internal/blockchain/process.go:94-157 | disconnecting the block just connected restores UTXO set with markers, transaction index, history, blocks, both height indexes and tip exactly; only the supply entry of the height stays |
| Completeness.AppendComplete | internal/blockchain/unified_processor.go:629-757 | after a connect every output of a stored transaction is still entered, every input known, every marker set by a transaction that spends the output, and every history key owned, whatever database spends were checked against |
| Completeness.DisconnectKeeps | internal/blockchain/process.go:94-157 | disconnecting the stored top block always finds what it has to undo and keeps the whole invariant, however the block was connected |
| Lines.StandsSingleLine | internal/blockchain/unified_processor.go:348-385 | a store that stands on a chain holds one block per height, links one down, indexes mutually inverse, no hash twice, the tip on top |
| Lines.StandsBatch | internal/blockchain/unified_processor.go:395-538 | an accepted batch lengthens the stored line by its blocks, even if two of them spend the same output |
| Lines.StandsDisconnect | internal/blockchain/process.go:82-165 | on any stored line of more than one block, disconnecting the top block succeeds and leaves the line without it |
| Lines.BatchUndoneIff | internal/blockchain/process.go:94-157 | disconnecting the last block of a committed batch restores the state before that block if and only if it spends nothing earlier blocks of the batch spent; otherwise it frees an output one of them spent |
| Unwinding.BatchUndone | internal/blockchain/process.go:94-157 | disconnecting all blocks of an accepted batch from the top restores the state before the batch up to supply entries, whatever its blocks spent twice |
| Unwinding.ExactBelowBatch | internal/blockchain/recovery.go:618-641 | an accepted batch never changes whether the chain below it is exact after a rollback |
| Unwinding.ExactAgain | internal/blockchain/recovery.go:618-641 | rolling back below a batch that spent an output twice makes the database exact again |
| Chains.ReplayWellFormed | internal/blockchain/unified_processor.go:629-757 | every replayed chain satisfies the store invariant with its last block as tip |
| Chains.ReplayGetBlock | internal/storage/binary/interface_impl.go:18-88 | loading the block at any height gives back the block that was connected there, whole |
| Chains.ReplaySingleLine | internal/blockchain/unified_processor.go:442-448 | stored blocks are one line: one block per height, links one down, indexes mutually inverse, no hash twice |
| Chains.HoldsSingleLine | internal/blockchain/unified_processor.go:348-385 | the same for any store that holds the chain |
| Chains.HoldsAppend | internal/blockchain/unified_processor.go:629-757 | a store that holds c holds c + [b] after an accepted connect |
| Chains.HoldsDisconnect | internal/blockchain/process.go:82-165 | disconnecting the last block always succeeds and leads to the store that holds the shorter chain |
| Lines.HoldsStands | internal/blockchain/blockchain.go:922-1050 | a store that holds a chain, genesis alone included, satisfies the stored invariant |
| Totals.HoldsRecorded | internal/blockchain/blockchain.go:922-1050 | a store that holds a chain, genesis alone included, has its supply entries, history and output values recorded |
| Chains.GenesisWellFormed | internal/blockchain/blockchain.go:922-1050 | the genesis block connected to an empty database and made the tip gives a store that satisfies the invariant and loads the block at height 0 |
| Batches.BatchIsSequential | internal/blockchain/unified_processor.go:395-525 | a batch that goes through equals one-by-one connection if and only if no two of its blocks spend one outpoint |
| Batches.ApplyTxsMarks | internal/blockchain/unified_processor.go:652-700 | an output created in a block carries a marker exactly if the block spends it |
| Batches.GenuineExtends | internal/blockchain/unified_processor.go:273-284 | a linked batch of new blocks extends the tip block by block |
| Batches.HoldsBatch | internal/blockchain/unified_processor.go:395-538 | a batch without cross spends leads from a store that holds c to one that holds c + blocks |
| Batches.HoldsBatchIff | internal/blockchain/unified_processor.go:395-538 | an accepted batch leads to a store that holds c + blocks if and only if no two of its blocks spend one outpoint |
| Chunks.NewPartCut | internal/blockchain/unified_processor.go:245-274 | cutting a batch cuts its new part |
| Chunks.ChunkStep | internal/blockchain/unified_processor.go:221-229 | a committed chunk advances the state by exactly its blocks and continues the one-by-one state if and only if no two of its blocks spend one outpoint |
| Chunks.ChunkCommitted | internal/blockchain/unified_processor.go:221-229 | a committed chunk starts right behind the blocks connected so far, so no chunk before it was passed over |
| Chunks.ChunkRunIsSequential | internal/blockchain/unified_processor.go:215-231 | chunks that all commit lead to the state their blocks lead to one at a time if and only if no chunk spends an outpoint in two of its blocks |
| Chunks.StandsChunks | internal/blockchain/unified_processor.go:215-231 | committed chunks lengthen the line by their blocks, whatever they spend |
| Chunks.HoldsChunksIff | internal/blockchain/unified_processor.go:215-231 | committed chunks lead from a store that holds c to one that holds the longer chain if and only if no chunk spends an outpoint in two of its blocks |
| Chunks.CrossChunkRefused | internal/storage/binary/batch.go:346-394 | a chunk that spends an outpoint an earlier chunk of the batch spent is refused |
| Chunks.AllGood | internal/blockchain/unified_processor.go:215-231 | every chunk of a long batch of new blocks on the tip is in order |
| Outcomes.OutcomeKnown | internal/blockchain/unified_processor.go:244-271 | in any state the error for known blocks is answered if and only if there are blocks and all are known |
| Outcomes.KnownStart | internal/blockchain/unified_processor.go:215-231 | in any state a long batch whose first 500 blocks are known is refused as known with nothing done, whatever follows |
| Outcomes.FilledOnTip | internal/blockchain/unified_processor.go:423-525 | a batch that starts right above the tip is filled exactly if every block passes and the blocks can be connected, and then has the same view |
| Outcomes.FilledOverwrites | internal/blockchain/unified_processor.go:423-525 | wherever a batch starts, it overwrites exactly its heights, enters exactly its hashes, drops no output, and moves the tip exactly if it ends above it |
| Outcomes.BranchDisplaces | internal/blockchain/unified_processor.go:423-525 | a new batch that starts anywhere but on the tip takes over the heights of stored blocks without disconnecting them: they stay stored and indexed, their outputs stay, and the single line is lost |
| Outcomes.LineKeptIff | internal/blockchain/unified_processor.go:423-525 | a new batch keeps the single line if and only if it starts on the tip |
| Findings.DoubleSpendAcrossBatch | internal/storage/binary/batch.go:346-394 | concrete input: two blocks of one batch spend the same output and go through; one at a time the second is refused |
| Findings.DoubleSpendInBlock | internal/blockchain/unified_processor.go:656-738 | concrete input: a block spends one output twice and is applied; the stored supply then differs from the unspent total |
| Findings.DoubleSpendBreaksSupply | internal/blockchain/unified_processor.go:702-738 | concrete input: two blocks of one batch, each listing its outpoint once, are applied; the stored supply then differs from the unspent total |
| Findings.SupplyStaysBehind | internal/blockchain/process.go:142-165 | connecting a block and disconnecting it restores the state completely if and only if the supply entry of its height was there before with the same value |
| Findings.ParentMissedTooLate | internal/blockchain/process.go:148-180 | concrete input: a block whose parent is not stored leaves the database before the missing parent is noticed |
| Findings.StaleCache | internal/blockchain/process.go:148-206 | concrete input: the cache goes on listing a disconnected block whose parent is missing, and lookups answer that it is stored |
| Findings.SecondGenesisBreaksLine | internal/blockchain/unified_processor.go:168-181 | a new block without parent is placed at height 0 and breaks the single line |
| Findings.SingleKeepsLineIff | internal/blockchain/unified_processor.go:348-385 | a new single block that passes the height check, connected at the height computed for it, keeps the single line if and only if it names a parent; one that names none never passes the checkpoint at height 0 |
| Findings.SecondGenesisGoesIn | internal/blockchain/unified_processor.go:168-181 | concrete input: one coinbase without parent is applied on top of the genesis block and breaks the line |
| Findings.LongBatchRefused | internal/blockchain/unified_processor.go:215-231 | any batch of 500 known blocks and more is refused as known and changes nothing |
| Findings.FirstRefused | internal/blockchain/unified_processor.go:215-231 | concrete input: 500 times the genesis block and then a block that connects on its own |
| Findings.BranchGoesIn | internal/blockchain/unified_processor.go:390-600 | concrete input: two blocks next to the tip block go in as a batch and take over the tip while the old tip block stays stored and its output unspent; the first of them alone is refused |
| Findings.FirstReached | internal/blockchain/unified_processor.go:390-600 | the state that input starts from is the one a connected block leads to |
| Findings.CleanupWritesBack | internal/storage/binary/interface_impl.go:345-492 | concrete input: the cleanup of a block that spends its own output does not restore the UTXO set |
| Ledger.EncodeInjective | internal/storage/binary/schema.go:122-146 | history keys of inputs and outputs of one transaction never collide |
| Ledger.BlockUnspent | internal/blockchain/unified_processor.go:643-738 | how a block changes the total of unspent outputs, counting inputs that were spent before it or are listed twice |
| Ledger.IndexTxsTotal | internal/blockchain/unified_processor.go:106-164 | a block adds its inputs to the sent and its outputs to the received total of every address |
| Ledger.AppendSupplyMatches | internal/blockchain/unified_processor.go:700-738 | a block connected alone keeps supply equal to the unspent total if and only if repeated inputs are worth nothing |
| Ledger.AppendBalancesMatch | internal/blockchain/unified_processor.go:85-164 | a block connected alone keeps received minus sent equal to the unspent outputs of every address if and only if repeated inputs paying it are worth nothing |
| Ledger.BatchDrift | internal/blockchain/unified_processor.go:643-738 | from any consistent store an accepted batch moves supply and balances away from the unspent outputs by exactly the value it spends again |
| Ledger.BatchSupplyMatches | internal/blockchain/unified_processor.go:702-738 | an accepted batch keeps supply equal to the unspent total if and only if what it spends again, within a block or across blocks, is worth nothing |
| Ledger.BatchBalancesMatch | internal/blockchain/unified_processor.go:85-164 | an accepted batch keeps all balances right if and only if for every address what it spends again of that address is worth nothing |
| Ledger.ChunksDrift | internal/blockchain/unified_processor.go:215-231 | the same drift for a long batch committed chunk by chunk |
| Ledger.BatchNothingRepeated | internal/blockchain/unified_processor.go:643-738 | a batch in which no block lists an outpoint twice and no two blocks share one repeats nothing |
| Ledger.NothingRepeated | internal/consensus/validation.go:610-631 | blocks that list no outpoint twice, and none that was spent before, have no repeated inputs |
| Ledger.ChainTotals | internal/storage/binary/interface_impl.go:1872-1942 | along any such chain supply equals the unspent total and received minus sent equals the unspent outputs of every address |
| Ledger.HoldsTotals | internal/storage/binary/interface_impl.go:1616-1631 | the same for any store that holds the chain, whatever was rolled back before |
| Totals.RecordedBatch | internal/blockchain/unified_processor.go:643-738 | an accepted batch keeps supply entries, address history and output values those of its chain, whatever it spends twice |
| Totals.RecordedDisconnect | internal/blockchain/process.go:94-157 | a disconnect of the top keeps supply entries, address history and output values those of the remaining blocks, however the block was connected |
| Totals.RecordedDrift | internal/storage/binary/interface_impl.go:1616-1631 | in every state that batches, disconnects and rollbacks lead to, the unspent outputs exceed the supply by exactly the value of the inputs listed less the value marked as spent; the same for received minus sent of every address |
| Drifts.DisconnectDrift | internal/blockchain/process.go:82-165 | a disconnect moves supply against unspent outputs, and every balance, by exactly the value its block lists as inputs less the value its inputs mark |
| Drifts.ExcessAtLeast | internal/blockchain/unified_processor.go:656-680 | without negative output values the inputs a chain lists are never worth less than the outputs marked as spent, for supply and for every address |
| Drifts.DisconnectMatches | internal/blockchain/process.go:82-165 | after a disconnect a right supply is right again if and only if the block lists no value beyond what it marks; without negative output values it always is, and so is every balance |
| Totals.RecordedMatches | internal/storage/binary/interface_impl.go:1872-1942 | in every such state supply equals the unspent total if and only if listed and marked value agree, and so for every address |
| BlockChains.BlockChain.ValidMeans | internal/blockchain/unified_processor.go:747-753 | between operations, whatever was connected or rolled back before: single line ending in the tip; supply equals the unspent outputs if and only if the value the blocks list as inputs is the value marked as spent, and so for received minus sent of every address |
| BlockChains.BlockChain.ExactTotals | internal/blockchain/unified_processor.go:700-738 | right supply and balances whenever the database is what its chain leads to and no block lists an input twice |
| BlockChains.BlockChain.constructor | internal/blockchain/blockchain.go:922-1058 | starting on a database that stands on a chain establishes the invariant and a cache equal to the stored index |
| BlockChains.BlockChain.BuildBlockIndex | internal/blockchain/blockchain.go:1064-1100 | the tip node is entered and the cache filled with every stored entry |
| BlockChains.BlockChain.HasBlock | internal/blockchain/blockchain.go:729-737 | in any state the answer is wrong exactly if the cache lists a block that is not stored; right whenever cache and index agree with storage, so also after a cleanup of orphaned entries, and between operations |
| BlockChains.BlockChain.GetBlockHeight | internal/blockchain/blockchain.go:742-763 | cache first, then the open batch, then storage; where the cache agrees that is the answer of storage when no batch is open |
| BlockChains.BlockChain.CleanKnownBlocksAboveHeight | internal/blockchain/blockchain.go:1105-1123 | keeps exactly the entries at or below the height |
| BlockChains.BlockChain.AdvanceMemory | internal/blockchain/unified_processor.go:577-612 | the tip moves exactly if the last block lands above it; the cache gains exactly the new heights; cache and tree keep agreeing with storage for any batch in order |
| BlockTree.Tree.UpdateBlockIndex | internal/blockchain/process.go:320-354 | the new node hangs on the known parent and counts its work from it; if that parent is one height below, work equals height and a known parent is exactly one lower in every node, as before |
| BlockTree.DescendsIffAncestor | internal/blockchain/invalidation.go:258-275 | descending from a block means having it at the distance given by the heights |
| BlockTree.Tree.IsDescendantOf | internal/blockchain/invalidation.go:258-275 | the walk answers exactly whether the block descends from the other, and ends |
| BlockTree.Tree.MarkDescendantsInvalid | internal/blockchain/invalidation.go:235-255 | marks exactly the subtree, in storage and in the nodes |
| BlockTree.Tree.FindBestChain | internal/blockchain/invalidation.go:396-426 | a valid node of greatest height, or an error exactly if there is none |
| BlockTree.Tree.CheckReorgNeeded | internal/blockchain/reorg.go:132-157 | due exactly if the block lies above the tip or there is no tip |
| Checkpoints.CheckpointManager.Load | internal/blockchain/checkpoints.go:43-160 | the listed heights are pinned, the last entry for a height counting; other heights keep their hashes, and lastHeight stays the maximum |
| Checkpoints.CheckpointManager.AddDynamicCheckpoint | internal/blockchain/invalidation.go:483-491 | one more pinned height, lastHeight still the maximum |
| Checkpoints.CheckpointManager.ValidateCheckpoint | internal/blockchain/checkpoints.go:168-185 | refuses exactly a hash blacklisted at its height or different from the one pinned there |
| Checkpoints.CheckpointManager.GetNearestCheckpoint | internal/blockchain/checkpoints.go:218-232 | the highest checkpoint at or below the height; one at height 0 is never found |
| Recovery.RecoveryManager.DisconnectAbove | internal/blockchain/recovery.go:618-641 | on any database the loop leads where disconnecting downwards leads, including where it stops, and after a success the cache still agrees with storage; between operations it always gets through, every durable state on the way stands on the chain up to some height in between, exactness at each kept height is unchanged and right totals stay right |
| Recovery.DownMeans | internal/blockchain/recovery.go:618-641 | on any database the rollback disconnects what it finds height by height, each time leaving a parent that loads, or stops at the first height where that fails, with that error |
| Recovery.RecoveryManager.SettleAt | internal/blockchain/recovery.go:643-666 | the whole result on any database: every block entered above the target is gone with its transactions and history as in the cleanup, the target is the tip in memory and storage, and a cache that agreed with storage still does |
| Recovery.RecoveryManager.RollbackToHeight | internal/blockchain/recovery.go:575-676 | between operations: succeeds exactly within the depth limit, ends in exactly the chain up to the target, and any crash leaves the chain up to some height in between; the result is exact if and only if the database was exact from the target down, whatever stood above, and right totals stay right; on any database: the success condition, the database itself (the disconnects, then the cleanup of every orphan above the target with its transactions and history), cache agreement, and no entry above the target |
| Recovery.RecoveryManager.FindActualCorruptionPoint | internal/blockchain/recovery.go:250-353 | the exact answer of the search, including its windows and the missing-from-the-top case |
| ForkSearch.NoCorruptionIff | internal/blockchain/recovery.go:250-353 | zero is answered exactly if the window is intact, or the only damage is the link of block 1 |
| ForkSearch.CorruptionSound | internal/blockchain/recovery.go:250-353 | a reported height is missing or cut off from the block above |
| ForkSearch.CorruptionDepth | internal/blockchain/recovery.go:250-353 | the search looks at 1001 blocks below a top block that is there, and at 10000 heights where nothing is found |
| ForkSearch.JoinedMeans | internal/blockchain/recovery.go:277-314 | a link counts as whole exactly if the parent named by the block loads and is the block found one height lower |
| ForkSearch.CorruptionUnique | internal/blockchain/recovery.go:250-353 | the search has exactly one answer |
| ForkSearch.BrokenLinkMissed | internal/blockchain/recovery.go:250-353 | concrete input: the link of block 1 is broken, with or without a gap above it, and the search reports nothing |
| ForkSearch.StandsJoined | internal/blockchain/recovery.go:277-314 | a stored line has every link in place |
| Recovery.StandsIntact | internal/blockchain/recovery.go:446-449 | on an intact chain the search finds nothing |
| Recovery.RecoveryManager.ValidateChainSegment | internal/blockchain/blockchain.go:542-607 | accepts exactly if there are that many blocks that load, each the parent of the one before, from the hash stored for the upper height down, and every one at a pinned height carries the pinned hash and is not blacklisted |
| Recovery.RecoveryManager.FindForkPoint | internal/blockchain/recovery.go:84-150 | the highest usable height above the nearest checkpoint, else that checkpoint, else genesis; an answer above the nearest checkpoint stands on a linked segment of up to ten blocks none of which contradicts a checkpoint |
| ForkSearch.UsableIff | internal/blockchain/recovery.go:152-164 | a height is usable exactly if such a segment hangs on the block found there |
| ForkSearch.PinStops | internal/blockchain/recovery.go:84-150 | concrete input: three linked blocks with another hash pinned at height 1; the search answers 1 and not 2, and 2 without the pin |
| Recovery.RecoveryManager.FindCheckpointBeforeMismatch | internal/blockchain/recovery.go:166-247 | of the two highest earlier checkpoints the one that is stored with the pinned hash, the second only if the first is not stored; otherwise genesis |
| ForkSearch.SafeCheckpointUnique | internal/blockchain/recovery.go:166-247 | there is at most one such checkpoint |
| Recovery.RecoveryManager.CleanOrphanedData | internal/blockchain/recovery.go:803-846 | deletes every indexed block found between the heights, in step with both indexes; changes nothing where nothing is stored |
| Recovery.RecoveryManager.ResetChainState | internal/blockchain/recovery.go:849-872 | keeps exactly the tree nodes up to the height, empties the orphan pool, keeps the invariant |
| Recovery.RecoveryManager.RollBackAndClean | internal/blockchain/recovery.go:400-424 | on any database a success ends at the given height, with entries only removed, none above it, and nothing deletable left in between; between operations exactly the shorter chain, or failure with the chain unchanged |
| Recovery.RecoveryManager.RollBackStaleFork | internal/blockchain/recovery.go:457-513 | on any database a success gives up exactly the progressive depth; between operations depth, chain, counters and state in every outcome |
| Recovery.RecoveryManager.RecoverUnpinned | internal/blockchain/recovery.go:426-572 | on any database a success ends at the fork point above the nearest checkpoint of the damage found, or one progressive step down if none was found; entries only disappear, in step with both indexes, and none stays above |
| Recovery.RecoveryManager.RecoverPinned | internal/blockchain/recovery.go:378-424 | on any database a success ends at the one safe checkpoint, or at genesis, with no hash entered above it |
| Recovery.RecoveryManager.RecoverFromFork | internal/blockchain/recovery.go:356-572 | on any database: where a success ends, pinned or not, and that indexes only lose entries in every outcome; on an intact chain: exactly one stale-fork step or back to the safe checkpoint, never more than a prefix, and an error changes no block; attempts (three at most), state and each counter in every outcome |
| StaleForks.DescentClosedForm | internal/blockchain/recovery.go:457-463 | k rollbacks give up 5k(k+1) blocks for k up to 50, 12750 + 500(k-50) after |
| StaleForks.DepthWraps | internal/blockchain/recovery.go:457-463 | the 32-bit depth wraps at the 429496730th consecutive rollback, to 4 blocks, and the counter goes from 4294967295 to 0 |
| StaleForks.RunDescends | internal/blockchain/recovery.go:457-507 | k recoveries in a row give up exactly that many blocks and end normal with no attempt pending |
| StaleForks.PassesDivergence | internal/blockchain/recovery.go:451-463 | a divergence d blocks back is passed exactly from the least sufficient number of recoveries on |
| StaleForks.LeastFrom | internal/blockchain/recovery.go:451-463 | that least number exists for every depth 32-bit counting allows |
| StaleForks.TooShortFails | internal/blockchain/recovery.go:368-376 | on a too short chain three attempts are used up and from the fourth recovery on they fail, with the chain untouched |
| Pruning.PrunedDisconnect | internal/blockchain/process.go:148-157 | a disconnect removes a hash entry and the height entry at its height together |
| Pruning.PrunedClean | internal/storage/binary/interface_impl.go:296-334 | the cleanup removes entries above the target only |
| Pruning.PrunedConsistent | internal/blockchain/chain_validator.go:690-701 | what was consistent up to the target and survives stays consistent |
| Pruning.PrunedInconsistent | internal/blockchain/chain_validator.go:667-675 | an inconsistent entry at a kept height is never removed |
| IndexCheck.ChainValidator.CheckIndexConsistency | internal/blockchain/chain_validator.go:567-649 | lists exactly the entries whose height entry is missing or names another block; empty if and only if every hash entry is named back at its height |
| IndexCheck.ChainValidator.LowestHeight | internal/blockchain/chain_validator.go:659-665 | the lowest listed height |
| IndexCheck.RepairedIff | internal/blockchain/chain_validator.go:667-701 | a rollback below the lowest bad height repairs the indexes if and only if that height is at least 1 |
| IndexCheck.ChainValidator.RecoverFromIndexInconsistency | internal/blockchain/chain_validator.go:654-720 | after a success the tip stands two below the lowest bad height, or at genesis if that is below 2, in memory and, if anything was rolled back, in storage with no hash entered above it; the indexes are then consistent if and only if the lowest bad height is at least 1 and the target lies below the tip; with the target at the tip nothing changes and success means only that the tip loads |
| IndexCheck.ChainValidator.ValidateBlockIndexConsistency | internal/blockchain/chain_validator.go:722-736 | check and repair together: consistent indexes are left alone, others are repaired exactly under that condition and to that height |
| IndexCheck.RepairMissesAtTip | internal/blockchain/chain_validator.go:667-701 | concrete input: the target is the tip, the repair reports success and changes nothing |
| IndexCheck.RepairMissesAtZero | internal/blockchain/chain_validator.go:667-701 | concrete input: an entry at height 0 is bad, the repair reports success and the indexes still disagree |
| Cleanup.MarkerOwner | internal/storage/binary/interface_impl.go:345-492 | every input of a block is marked by a transaction that comes after the one that created it |
| Cleanup.RollBackNew | internal/storage/binary/interface_impl.go:345-492 | an output created in the block survives the cleanup exactly if a later transaction of the block marked it |
| Cleanup.CleanupRestoresIff | internal/storage/binary/interface_impl.go:345-492 | the orphan cleanup restores the UTXO set if and only if the block spends none of its own outputs |
| Ancestry.FindForkPoint | internal/blockchain/reorg.go:70-116 | for any marks: a success answers the first ancestor of the new tip with a connected node, with a forward list from it and a tip-first list down to it, both linked; where every block loads it succeeds if and only if that ancestor is an ancestor of the tip, and finds the highest common ancestor if and only if the marks lead to it (`MarksLeadTo`); if the marks are exactly the ancestors of the tip it finds the highest, the lists are disjoint, and an error means that nothing is common; it ends |
| Ancestry.FirstMarkedDecides | internal/blockchain/reorg.go:75-106 | the search is decided before it starts by one block: it succeeds exactly if the first marked ancestor of the new tip is an ancestor of the tip, and is right exactly if that block is the highest common ancestor |
| Ancestry.ForkPointMissed | internal/blockchain/reorg.go:70-116 | concrete input: right after a restart, with only the tip marked, the search reports an error although the branches share an ancestor |
| Ancestry.HighestIff | internal/blockchain/reorg.go:75-93 | a common ancestor that a branch leads up from is the highest one if and only if no block of the branch is an ancestor of the other tip |
| Ancestry.OldBranch | internal/blockchain/reorg.go:95-106 | the tip-first list down to an ancestor |
| Ancestry.FindBestValidAncestor | internal/blockchain/invalidation.go:278-322 | the valid proper ancestor all others lie below, or genesis if there is none; never a cycle, and it ends |
| Ancestry.BestValidIsHighest | internal/blockchain/invalidation.go:277-310 | that ancestor is the one of greatest height |
| Ancestry.ReachesBelow | internal/blockchain/reorg.go:75-89 | ancestors are never higher, and at equal height the same block |
| Cli.ReorderSubcommandArgs | internal/cli/normalize.go:134-204 | without a subcommand the line stays; otherwise it stays up to the subcommand, the first word that is no flag and no value of one; behind it the known flags before any double dash stand first, each value behind its flag, then all other words, both in their old order (`FlagsMoved`) |
| Cli.SplitMeans | internal/cli/normalize.go:161-203 | the split puts known flags with their values in front, by the one way a line can be read |
| Cli.ReadOnce | internal/cli/normalize.go:166-197 | which words are flags, values and others is settled by the line alone |
| Cli.ValueFollows | internal/cli/normalize.go:178-189 | a flag that takes a value is followed by the word that followed it |
| Cli.SubcommandIff | internal/cli/normalize.go:139-155 | the subcommand is the first word after the program name that is no dashed word and no value of a known flag |
| Cli.FlagMoves | internal/cli/normalize.go:134-204 | concrete line: a known flag behind a positional word moves in front of it |
| Cli.SplitWords | internal/cli/normalize.go:161-197 | the index loop equals the grouping into flags with their values and other words |
| Cli.SortedPermutes | internal/cli/normalize.go:161-203 | a permutation of the words |
| Cli.SelectKeepsOrder | internal/cli/normalize.go:166-203 | flags keep their order, and so do the other words; none is left out |
| Cli.PiecesFlatten | internal/cli/normalize.go:166-197 | grouping loses nothing and keeps each value next to its flag |
| Cli.SortedTwice | internal/cli/normalize.go:161-203 | afterwards no known flag follows another word, and reordering twice is reordering once, even when a value flag comes last |
| Cli.ReorderedKeeps | internal/cli/normalize.go:134-204 | permutation, unchanged prefix up to the subcommand, idempotent |
| Cli.TailStays | internal/cli/normalize.go:169-173 | everything from the double dash on stays at the end |
| Cli.StripFlagName | internal/cli/normalize.go:208-214 | a bare name without leading dash and without equals sign |
| Cli.StripsName | internal/cli/normalize.go:208-214 | of any dashes, a name, and nothing or an equals sign with more behind it, the name is what remains |
| Yaml.RoundTrip | internal/config/generate.go:61-118 | reading the printed lines succeeds if and only if no key is given twice or is also a section, and gives back every key with its value, each header once |
| Yaml.NewLevels | internal/config/generate.go:78-93 | of the sections of a setting exactly those no longer open are new |
| Yaml.TwoPrinted | internal/config/generate.go:88-110 | two settings of one section: each header once, two spaces a level |
| DottedKeys.SectionContiguous | internal/config/generate.go:40-45 | between two keys of a section, in string order, lie only keys of that section |
| DottedKeys.SectionPrefix | internal/config/generate.go:66-76 | the components of a key begin with a section exactly if the key begins with its name and a dot |
| ConfigFile.OrderedGrouped | internal/config/generate.go:40-61 | sorted settings of a section stand together |
| ConfigFile.GenerateCommentedYAML | internal/config/generate.go:47-121 | the written file reads back if and only if no key is also a section, and then as every setting of every category under its key and nothing else |
| ConfigFile.CommonLen | internal/config/generate.go:78-86 | the longest common prefix of two section paths |
| Merkle.CalculateMerkleRoot | internal/consensus/block_builder.go:152-179 | the level-by-level loop computes the recursive root |
| Merkle.SmallRoots | internal/consensus/block_builder.go:152-179 | the roots of no, one, two and three hashes |
| Merkle.PathLeadsToRoot | internal/consensus/block_builder.go:163-178 | every leaf has a path of siblings that leads to the root |
| Merkle.RootBinds | internal/consensus/block_builder.go:163-188 | two lists of one length with one root are equal, or the pair hash has a collision |
| Merkle.DuplicateLast | internal/consensus/block_builder.go:164-168 | repeating the last hash of an odd list never changes the root |
| Emission.EmittedClosedForm | internal/blockchain/blockchain.go:1299-1345 | total emission equals the phase-by-phase closed form at every height |
| Emission.EmissionBounded | internal/blockchain/blockchain.go:1299-1345 | emission never exceeds 1148464267530000000 satoshis, reaches that total at height 6569604 and stays there, so 64-bit sums do not overflow |
| Emission.EmittedGrows | internal/blockchain/blockchain.go:1299-1345 | emission grows strictly up to that height and never after |

## Left out

- DisconnectUndoesAppend: equality without the money supply entry of the removed height and without stake modifiers and proof-of-stake metadata, because the code leaves those entries behind.
- ProcessInChunks: what a run means for the chain is stated up to the first chunk that is out of order; for a later chunk that starts below the tip or on a block already connected only its outcome as a function is stated.
- ProcessBatchInternal: takes from hashing that no hash is zero, that a hash stands for one parent, and that transaction ids are new (`Genuine`) where it says what the outcome means for the chain; the code does not check these.
- CommitBatch: the same.
- FindForkPoint: in `Ancestry`, disjointness of the two lists is stated for marks that are exactly the ancestors of the tip, and the meaning of an error where every block loads.
- ConnectHistory: for blocks whose transaction ids differ and whose outputs are not entered yet; hashing is not modelled.
- GetBlockHeight: beyond the cache, stated where the cache agrees with the stored index, as it does between operations and after a rollback of any database.
- RootBinds: for lists of one length only; `DuplicateLast` shows that different lengths can share a root.
- GenerateCommentedYAML: keys begin with the name of their category and are distinct within it, as the registry has them; sorting itself is a library call.
- DescentClosedForm: for fewer than 429496730 consecutive rollbacks, after which the 32-bit product wraps (`DepthWraps`).
- Heights and output indexes are unbounded; 32-bit wrap-around is written out only where the code can meet it, at the predecessor of height 0 and in the rollback depth.
- Values are unbounded integers; `EmissionBounded` covers the 64-bit question for emission only.
- Block hashes, transaction ids and the check of the Merkle root during batch pre-validation: a block carries its hash, and hashing is not modelled.
- Scripts are kept as the outcome of their analysis; consensus validation is one uninterpreted function of block, height and batch mode, so the choice between full, batch and simplified validation is not modelled.
- Stake modifiers, proof-of-stake metadata, the address-to-UTXO index, mempool, wallet, masternode and peer notifications, statistics, logging, clocks and context cancellation.
- The fallback lookups of GetBlock and of the spent outputs (mempool and reindexing), and failures of the storage engine itself.
- Locks: every operation is one step; the height a rollback starts from is read inside that step.
- Connecting the genesis block at start-up is part of `InitGenesis`; loading the network's checkpoint tables is `Load` on any list.
- Executing a reorganisation, and the rollback branch of block invalidation: the first disconnects in the wrong order and reconnects blocks the batch path refuses as known, the second asks for the main chain after marking the block invalid.
- RecoverFromCorruptBlock and the storage scan it rests on.
- The startup validation modes, except the index check and its repair.
- Quoting of configuration scalars and keys, the wording of comments, and reloading the file: a line is its indentation, key and value.
- Conversion of foreign argument styles and of negated flags before reordering.
- GUI, RPC, peer-to-peer code, overlay merging and range checks of the configuration.
