# A verified model of the ugraph indexer

This project models the parts of ugraph that have to be right for its data to be right, and proves their
laws. The model is written in the program's own form: methods with loops and classes with fields where the
program changes state step by step, functions and lemmas where it computes a value. `dafny verify
dfyconfig.toml` checks everything.

**The sync engine** (`ChainModel`, `Streaming`, `Provenance`, `Replay`, `Resume`, `HistoryWindow`, `Sync`, `Runs`,
`Watch`, `Progress`, `Reorg`, `Reorgs`, `TimeTravel`, `AnyTravel`; `Counter`, `Bounds`, `NoStart`, `Partial`,
`Stamps`, `StampRollback` and `Reload` for exact conditions, `Witness`, `SourceOrder` and `AuditRuns` for runs in
which they fail). The chain is an ordered sequence of logs and a handler is any deterministic function from a store
and a log to a trap or to a new store, created data sources and a number of validation errors. `Streaming.Walk` is
the reference: one ordered walk, each source active only for logs after the one that created it. A pass of the worklist refines that walk; many passes
refine one, and enough of them get to the head; a rollback followed by a resync refines a fresh sync; a query at an old
block reads the fold up to that block.

**Fetching and storing** (`Scan`, `Feed`, `DeltaHistory`, `Audit`). Requests that may fail at any time, chunked
and bisected, still fetch exactly the range's logs. The shared feed holds exactly the chain's logs that its
subscriptions are filled with, in every state that registrations, fills, a growing chain and reorganizations lead
to. History is stored as deltas and comes back whole; the audit trail folds forward and undoes backward.

**BigDecimal** (`BigDecimal`, `BigDecimalOps`, `DecimalText`). Numbers with 34 significant digits, the precision
of decimal128 in IEEE 754-2008, rounded half away from zero: normalization, addition with its shortcut for
large gaps, multiplication, division, the parser and both printers.

**The AssemblyScript heap and ABI words** (`Bytes`, `HeapLayout`, `Heap`, `HeapAlloc`, `AbiLayout`, `AbiWord`).
Store values and entities written as pointer graphs into linear memory by any lawful allocator and read back;
static words, and events with dynamic arguments, of the Solidity Contract ABI Specification.

**Queries and validation** (`QueryOrder`, `ColumnOrder`, `SchemaStore`). Ordering and paging of results; checking
of what handlers store, and that no store the indexer ever holds violates the schema.

`Widths` ties the numbers that the modules write out to the program's integer types.

## What the proofs show about the program

Some laws hold only under a condition. Each is proved for every handler under the condition, and the condition is
proved to be the exact one, for a handler that counts what it executes where handlers come in. A run of the program's
own steps shows the failure.

- A cycle that ends below something already executed, by a smaller block bound after an unfinished pass or by an
  explicit end below the checkpoint, is stored as complete at the earlier block with the later state. Cycles are right
  exactly when they end past everything processed and pass over no log (`Runs.SplitInvariance`, `Bounds.CycleEndExact`;
  runs: `Witness.SmallerBound`, `Witness.EarlierEnd`).
- An unfinished pass that was given no start block is resumed at the block it was to end at: right exactly when nothing
  before that block is left (`Runs.NextGood`, `NoStart.NoStartExact`; run: `Witness.SkippedLogs`).
- The watch loop forgets its configured start block after the first cycle, also when that cycle failed, and then walks
  from block 0: right exactly when no static source has a log below the start (`Watch.WatchSplitInvariance`,
  `Watch.FailedFirstExact`; run: `Witness.ForgottenStart`).
- A rollback takes the newest hashed entry, also one recorded on the way of a pass; such an entry keeps the pass's start
  block but not its processed logs. The resync is right exactly when nothing lies between the block it starts at and the
  entry, which is never so for an entry of a fresh pass (`StampRollback.ExactLeadsRight`, `Partial.PartialEntryRedoes`,
  `Partial.PartialEntryNeverRight`; run: `Witness.RedoneLogs`).
- It may also take the last entry of an unfinished pass, which is stamped with a block its state has not reached. The
  resync is right exactly when nothing was left before the block it starts at and nothing was processed from there on
  (`StampRollback.StampLeadsRight`, `StampRollback.StampRedoes`; run: `Witness.RestampedLogs`).
- Such an entry stays in the history when the sync goes on. A query that reads it is right exactly when nothing up to its
  block was left, or a later pass has recorded the entry's block again; all other queries of a complete deployment are
  right (`Stamps.LaterAnswer`, `Stamps.LaterAnswerExact`, `AnyTravel.AnyQuery`, `AnyTravel.AnyQueryExact`; run:
  `Witness.StampedEntry`).
- Known sources are sorted between passes, and only the block of their creation is kept. So two sources at one address
  may change places, and after a pass that stopped early a source may see a log from before its creation. The deployment
  stays on its way exactly when, at every log to come, the sorted sources have the same items to run, for every handler
  (`Reload.StopExact`, `Reload.CompleteExact`; runs: `SourceOrder.SharedAddress`, `SourceOrder.EarlierLog`).
- The shortcut for large gaps in addition misses one case, around powers of ten (`BigDecimalOps.AddMeaning`).
- The two printers differ on a coefficient with trailing zeros and a negative exponent (`DecimalText.PrintersAgree`).
- The chain reader compares hashes at cursor blocks only; what a reorganization changed below the least one that differs
  stays in the feed (`Feed.ReaderRollbackExact`; run: `Feed.StaleLogRun`). Registering a source again with other topics
  leaves the feed right exactly when other subscriptions cover the logs of the topics that differ (`Feed.TopicsExact`).
  A reader that is told to start later passes over logs; that is right exactly when they are covered already
  (`Feed.FillExact`).
- After a rollback, change rows between the rollback block and the first new block stay in the audit trail
  (`Audit.FoldExact`; run: `AuditRuns.StaleRowRun`).
- Two history entries at one block lose data when stored (`DeltaHistory.RepeatedBlockLoses`); the history window
  never holds two (`HistoryWindow.PushStep`).
- The comparison behind `orderBy` is an order of a column exactly when its other texts do not come between integers
  against the order of the numbers, and, if the column holds an explicit null, when all its values are one
  (`ColumnOrder.ColumnExact`). Decimals that are not both whole are compared as text: two that are not negative come in
  number order exactly when their whole parts, as text, are in number order (`ColumnOrder.DecimalRowsExact`).

## Model

| member | source | states |
|---|---|---|
| Replay.RunReplay | core/crates/ugraph-node/src/main.rs:549-729 | One pass of scan-ahead, take-the-least-unprocessed and mid-run source creation executes exactly what one ordered walk of the chain's logs does (`Replay.Pass`), including the soft limit at block ends, validation stops, the history entries and completeness. It fails exactly when a handler traps or a source that the pass scans, static, stored or created on the way, cannot be reached, and then has no result. |
| Replay.RunHandler | core/crates/ugraph-node/src/main.rs:605-695 | A handler runs on a copy: a trap or a failed scan fails the pass, a validation error rejects the log and changes nothing, otherwise the worklist again holds exactly what is still to run, new sources included. |
| Replay.AddCreated | core/crates/ugraph-node/src/main.rs:645-695 | Created sources are added unless their template is unknown or their name and address are taken, and bring only logs strictly after the creating log; it fails exactly when one of the added sources cannot be reached. |
| Replay.NextSpec | core/crates/ugraph-node/src/main.rs:1550-1577 | The next log is the first, in worklist order, of the unprocessed ones with the least block, transaction and log index. |
| Replay.PickSorted | core/crates/ugraph-node/src/main.rs:565-575 | Sorting the scanned logs is stable: the logs of one position keep their order, so sources at one position run in activation order. |
| Replay.TracksAdded | core/crates/ugraph-node/src/main.rs:645-695 | Adding a source's later logs keeps the worklist equal, position by position, to what the streaming walk would execute there. |
| Streaming.FreshAfterStep | core/crates/ugraph-node/src/main.rs:600-645 | Executing one item leaves exactly the other unprocessed items of its log to do: a source created by it does not see that log. |
| Streaming.CreatedSources | core/crates/ugraph-node/src/main.rs:645-695 | Every source that a log's creates add comes from the first create of its name and address: the template's topics, the first parameter as address, that create's context, active after the creating log. Every create of a known template with a parameter has a source of its name and address afterwards. |
| Provenance.TraceExplained | core/crates/ugraph-node/src/main.rs:600-695 | Every item of the reference walk is explained: it is a log that its source asks for, executed with that source's context and handler, and its source is a static one or was created, as its template says, by an item executed earlier. |
| Provenance.WalkComplete | core/crates/ugraph-node/src/main.rs:549-729 | Conversely, a walk that does not fail executes every log that a static source or any source created on the way is to see. |
| ChainModel.ItemsAtDistinct | core/crates/ugraph-node/src/main.rs:1627-1640 | Log identities (source, kind, address, position, topic) tell apart the items that different sources make of one log. |
| Resume.RunContinues | core/crates/ugraph-node/src/main.rs:576-598 | A pass stopped anywhere leaves, for a walk over the same range that skips the processed identities, exactly the rest; a pass not stopped has made the whole walk. |
| Resume.WalkPIsWalk | core/crates/ugraph-node/src/main.rs:1591-1625 | Skipping processed identities changes nothing where none was processed. |
| Resume.WalksAlike | core/crates/ugraph-service/src/state.rs:179-195 | Two states that look alike in a snapshot stay alike along any walk: re-sorting the known sources between passes changes neither what is executed nor what is stored, when no two dynamic sources share an address and no source sees a log in one state that it may not see in the other. |
| Reload.ReloadExact | core/crates/ugraph-service/src/state.rs:179-195 | For every handler, sorting the known sources and forgetting their place of creation changes nothing of a walk that does not fail if and only if at every log of it the sorted sources have the same items to run, in the same order. |
| Reload.StopExact | core/crates/ugraph-node/src/main.rs:1037-1069 | So a deployment whose pass stopped early is still on its way to the reference exactly then. |
| Reload.CompleteExact | core/crates/ugraph-node/src/main.rs:1037-1069 | And one whose pass completed, from the next block on. |
| Reload.ApartReload | core/crates/ugraph-service/src/state.rs:179-195 | Sources that share no address and have no log at or before their creating one meet that condition. |
| Resume.PersistTogether | core/crates/ugraph-service/src/state.rs:179-195 | Storing already stored sources together with new ones gives the same list as storing all at once. |
| HistoryWindow.History.PushSnapshot | core/crates/ugraph-node/src/main.rs:1176-1188 | A push replaces the entry of the same block, sorts, and keeps the newest `limit` entries; on a sorted history this is putting the entry at its place. |
| HistoryWindow.History.Merge | core/crates/ugraph-node/src/main.rs:1149-1174 | The previous snapshot, the pass's entries and the new snapshot are pushed in that order. |
| HistoryWindow.StreamingEqualsBatch | core/crates/ugraph-node/src/main.rs:1149-1188 | From a sorted history, truncating on every push yields strictly increasing blocks, at most `limit` entries when the limit is positive, and exactly the newest ones of the last-write-wins union of everything pushed. |
| HistoryWindow.PushStep | core/crates/ugraph-node/src/main.rs:1176-1188 | Pushing keeps blocks strictly increasing. |
| Sync.Indexer.SyncOnce | core/crates/ugraph-node/src/main.rs:978-1077 | One cycle stores what `Sync.Cycle` says (reorg policy, start block, pass, kept checkpoint, merged history), and nothing when it fails. It fails exactly when the reorg policy refuses, a handler traps, or a source that the pass scans cannot be reached, and otherwise returns the snapshot that the deployment then has. What is stored is again well formed, so that the next cycle may follow. |
| Watch.RunLoop | core/crates/ugraph-node/src/main.rs:311-378 | The watch loop: cycle after cycle, whatever fails, with start block and reset for the first cycle only, is the sequence of cycles that the theorems about runs speak of, each failing exactly when it must. |
| Watch.LoopSucceeds | core/crates/ugraph-node/src/main.rs:311-378 | When every source can be reached, no handler traps, nothing is reset and the RPC's hashes do not change, no cycle fails. |
| Progress.SoftLimit | core/crates/ugraph-node/src/main.rs:600-606 | A pass executes nothing when the limit is 0. It goes past the limit only within the block that the limit falls in, and when it stops for the limit it has executed that many and stops between two blocks. |
| Progress.PassEnds | core/crates/ugraph-node/src/main.rs:1079-1110 | A bounded pass ends at its start or later and at most at the head; it covers the bound's number of blocks unless it reaches the head. |
| Progress.CycleAdvances | core/crates/ugraph-node/src/main.rs:978-1077 | A cycle that does not fail and may execute something, where no handler fails on the reference walk, executes at least one item more or moves the next start block on, until the deployment is complete at the head; there it stays. |
| Progress.WatchCatchesUp | core/crates/ugraph-node/src/main.rs:300-380 | The sync gets there: a watch loop with a constant head and positive limits, for which every source can be reached and on whose reference walk no handler fails, has no failing cycle, and after as many cycles as there are blocks and items (and two) it is complete at the head with exactly the reference's entities, sources and executed items. |
| Sync.FindSafe | core/crates/ugraph-node/src/main.rs:1236-1266 | The rollback target is the newest entry within the probe depth that has a hash and is not contradicted by the RPC; none is found only if there is none. |
| Sync.PassTrace | core/crates/ugraph-node/src/main.rs:978-1050 | What was executed in earlier passes does not change what a pass does. |
| Runs.PassKeepsGood | core/crates/ugraph-node/src/main.rs:1129-1147 | One pass from a state that walks on to the reference leads to such a state again, stopped or complete, with the start block the next pass will use; it may end at any block that the state has not gone past. |
| Runs.CycleKeepsGood | core/crates/ugraph-node/src/main.rs:994-1050 | Every cycle without a reorg, failed ones included, keeps the stored snapshot consistent with the one walk of the chain; the cycle may use any bound or explicit end that is not before something processed, and a head that fell behind a complete checkpoint does no harm. |
| Runs.SplitInvariance | core/crates/ugraph-node/src/main.rs:994-1147 | However a sync is cut into cycles, by limits, block bounds that do not end before something processed, and failures, what it executed is at any moment a prefix of one unbounded walk, each identity once; when it ends complete, store, executed logs and dynamic sources are those of that walk. |
| Bounds.CycleEndExact | core/crates/ugraph-node/src/main.rs:1079-1147 | For a counting handler that condition on a cycle is exact: the cycle keeps what is promised if and only if its pass does not end before something processed and skips no log. |
| Bounds.EndExact | core/crates/ugraph-node/src/main.rs:1102-1147 | For a counting handler, walking on from a good state to a block gives the count of that block if and only if the state has not gone past the block. |
| Witness.SmallerBound | core/crates/ugraph-node/src/main.rs:1079-1147 | Two cycles, the second with a smaller block bound, that end complete at block 2 with the log of block 5 counted. |
| Witness.EarlierEnd | core/crates/ugraph-node/src/main.rs:1079-1127 | Two cycles, the second with an explicit end below the complete checkpoint, that store the state of block 9 for block 2. |
| Runs.NextGood | core/crates/ugraph-node/src/main.rs:1129-1147 | From every stored snapshot in good order the next start block leads on to the reference, for every handler; after an unfinished pass without a start block, if nothing before its end is left. |
| Watch.WatchSplitInvariance | core/crates/ugraph-node/src/main.rs:300-380 | Split invariance for a watch loop, from what its operator configures: one bound, at most one explicit end, a head that never falls back, a start block. When the first cycle fails it still holds if no static source has a log below the start block and no pass loses logs by stopping early. |
| Watch.FailedFirstExact | core/crates/ugraph-node/src/main.rs:304-375 | For a counting handler, after a first cycle that failed, a complete end is right for the configured start block if and only if no static source has a log below it. |
| Witness.ForgottenStart | core/crates/ugraph-node/src/main.rs:304-375 | A loop that is to start at block 3 fails once and then counts the log of block 1. |
| Runs.FreshPassIsWalk | core/crates/ugraph-node/src/main.rs:549-760 | One pass from nothing, without any assumption on the sources, executes a prefix of the walk, stops early only by its limit or on a failing log, and is the whole walk when it completes. |
| Runs.InvalidPass | core/crates/ugraph-node/src/main.rs:600-645 | A pass that ends on a validation error has exactly the store, sources, executed logs and processed set of the walk before the first item that has one, and that item is still to be executed. |
| Runs.CompleteIsReference | core/crates/ugraph-node/src/main.rs:1037-1069 | A complete checkpoint is exactly the state of the walk up to its block. |
| Runs.TraceIsPrefix | core/crates/ugraph-node/src/main.rs:1037-1069 | Whatever a deployment has executed is a prefix of the walk. |
| Runs.ReferenceOnce | core/crates/ugraph-node/src/main.rs:1627-1640 | The walk executes no identity twice. |
| Reorg.RollbackGood | core/crates/ugraph-node/src/main.rs:1268-1279 | A rollback to a complete retained entry leaves a consistent deployment, and an exact history, for every chain that agrees with the old one up to that entry. |
| Reorg.ReorgThenResync | core/crates/ugraph-node/src/main.rs:978-1279 | Cycles over the old chain, a cycle that meets the new chain and rolls back to a complete entry up to which the chains agree, and further cycles: whenever that ends complete, it holds the entities and sources of a sync of the new chain from scratch. |
| Reorgs.AnyReorganizations | core/crates/ugraph-node/src/main.rs:978-1279 | Cycles, cycles that store nothing, and any number of reorganizations that roll back to complete entries, in any order: whenever the checkpoint is complete it holds what a sync of the chain as it then is, from scratch, holds, and so does every complete entry of the history. |
| Reorg.RollbackThenResync | core/crates/ugraph-node/src/main.rs:1190-1279 | From a rolled-back snapshot, any run of cycles over a chain that agrees up to the complete entry executes a prefix of the new chain's walk, and is that walk when it ends complete. |
| Reorg.ReorgCycle | core/crates/ugraph-node/src/main.rs:978-1000 | The cycle that meets the reorganization stores what a cycle from the rolled-back snapshot stores; and when that one would store nothing, it leaves the old snapshot. |
| Reorg.PolicyFails | core/crates/ugraph-node/src/main.rs:1201-1234 | With a changed hash, the policy `fail`, and a rollback that finds no safe entry, fail the cycle and leave the deployment as it is. |
| Reorg.PolicyResets | core/crates/ugraph-node/src/main.rs:1201-1234 | With a changed hash and the policy `reset`, or with the operator's reset, the cycle stores what a first cycle would; if that stores nothing, the deployment stays. |
| Reorg.NoReorg | core/crates/ugraph-node/src/main.rs:1298-1304 | Without a stored hash, without one from the RPC, or with equal ones the policy does not matter, and the cycle goes on from the stored snapshot. |
| Reorg.RolledBackIsEntry | core/crates/ugraph-node/src/main.rs:1268-1279 | A rolled-back snapshot is the entry itself, with nothing processed since and the history up to it. |
| Reorg.CycleKeepsHistory | core/crates/ugraph-node/src/main.rs:1149-1174 | One cycle keeps every complete entry of the retained history the exact state at its block. |
| Reorg.CyclesKeepHistory | core/crates/ugraph-node/src/main.rs:1149-1174 | So does any run of cycles: every complete entry is exact in every reached state. |
| Reorg.RolledBackSnapshot | core/crates/ugraph-node/src/main.rs:1190-1279 | For every handler, a rollback to an exact entry, also one recorded on the way of a pass, leaves a deployment in good order if no source has a log from the entry's start block to the entry. |
| Partial.PartialEntryRedoes | core/crates/ugraph-node/src/main.rs:709-718 | A rollback to an entry that holds the state at its block forgets the processed logs: for a counting handler the resync is right if and only if no item lies from the block it starts at (the pass's start block, or, without one, the entry's own) up to the entry. |
| Partial.PartialEntryNeverRight | core/crates/ugraph-node/src/main.rs:696-724 | A pass records such an entry only after executing something in its block, so for a counting handler a rollback to any entry that a fresh pass recorded on its way leads to a wrong state, whether the pass had a start block or not. |
| StampRollback.ExactLeadsRight | core/crates/ugraph-node/src/main.rs:1236-1279 | For every handler: from an entry that holds the state at its block the resync leads to the reference at every later block if no source has a log from the block it starts at up to the entry. |
| StampRollback.StampRedoes | core/crates/ugraph-node/src/main.rs:1236-1279 | A rollback to the last entry of an unfinished pass: for a counting handler the resync is right at every block from the entry on if and only if nothing was left before the block it starts at and nothing was processed from there up to the entry. |
| StampRollback.StampLeadsRight | core/crates/ugraph-node/src/main.rs:1236-1279 | For every handler that condition suffices. |
| StampRollback.AgreeGood | core/crates/ugraph-node/src/main.rs:1236-1279 | A snapshot in good order, finished or not, is in good order for every chain that agrees up to its block; so the above holds on the chain after a reorganization. |
| Witness.RedoneLogs | core/crates/ugraph-node/src/main.rs:1190-1279 | A sync and a reorganization whose rollback target is such an entry: the resync counts two logs twice. |
| Witness.RestampedLogs | core/crates/ugraph-node/src/main.rs:1190-1279 | An unfinished pass, a complete one, and a reorganization whose rollback target is the entry of the unfinished one: the resync counts two logs twice. |
| NoStart.NoStartSkips | core/crates/ugraph-node/src/main.rs:1129-1147 | An unfinished pass without a start block is resumed at the block it was to end at: for a counting handler this is right if and only if nothing before that block is left unprocessed. |
| NoStart.NoStartExact | core/crates/ugraph-node/src/main.rs:1129-1147 | For a deployment: when the next cycle completes, it holds what is promised if and only if the unfinished pass had left nothing before its end. |
| Witness.SkippedLogs | core/crates/ugraph-node/src/main.rs:1129-1147 | Two cycles without a start block, the first one stopped by its limit, that end complete with two logs never executed. |
| SourceOrder.SharedAddress | core/crates/ugraph-service/src/state.rs:179-195 | Two cycles that run two children at one address in the other order than the walk does. |
| SourceOrder.EarlierLog | core/crates/ugraph-service/src/state.rs:179-195 | Two cycles, the first one stopped by its limit, that execute a child's log from before its creation. |
| TimeTravel.TimeTravelIsExact | core/crates/ugraph-service/src/query.rs:250-304 | When every pass completed, a query at any block from the first retained one (any block at all when the history was never cut) up to the checkpoint reads exactly the fold of the handlers over the logs up to it, and a later block is refused. |
| TimeTravel.HashQueryIsExact | core/crates/ugraph-service/src/query.rs:284-303 | Then a query for a block hash is answered if and only if the checkpoint or a retained entry has the hash, and reads the fold up to a block that has it. |
| Stamps.StampRight | core/crates/ugraph-node/src/main.rs:1037-1069 | What a snapshot holds, finished or not, is the state at a block from its own on, for every handler, if nothing up to that block is left to execute. |
| Stamps.StampRightExact | core/crates/ugraph-node/src/main.rs:1037-1069 | For a counting handler, only then. |
| Stamps.RecordedRight | core/crates/ugraph-node/src/main.rs:696-724 | What a pass records on its way, stopped later or not, is the state at the entry's block. |
| Stamps.LaterAnswer | core/crates/ugraph-service/src/query.rs:250-304 | However the sync goes on past a snapshot's block, a query that reads what the history keeps for that block reads the snapshot's state, finished or not, or the state at the block if a later pass has recorded the block again. |
| Stamps.LaterAnswerRight | core/crates/ugraph-service/src/query.rs:250-304 | So the query at that block is right, for every handler, if a later pass has recorded the block again or nothing up to it was left. |
| Stamps.LaterAnswerExact | core/crates/ugraph-service/src/query.rs:250-304 | For a counting handler, only then; and a query at a later block that still reads the entry is right if and only if nothing up to that block was left, or has come since the entry was recorded again. |
| Stamps.EntryStays | core/crates/ugraph-node/src/main.rs:1149-1188 | As long as the history is not cut, a query at the snapshot's block keeps reading what is kept for it. |
| AnyTravel.PassRecords | core/crates/ugraph-node/src/main.rs:696-724 | Every block in which a pass executes something gets an entry, unless a handler fails there for good. |
| AnyTravel.AnyQuery | core/crates/ugraph-service/src/query.rs:250-304 | Whatever cycles were stopped on the way: when the last one completed, a query at any block from the first retained entry (any block at all without a history limit) up to the checkpoint reads exactly the fold of the handlers over the logs up to it, unless the entry it reads is one that an unfinished pass stamped with something left, not recorded or stamped again since. |
| AnyTravel.AnyQueryExact | core/crates/ugraph-service/src/query.rs:250-304 | For a counting handler the query is right if and only if it does not read such an entry. |
| Witness.StampedEntry | core/crates/ugraph-node/src/main.rs:1037-1069 | An unfinished pass, then a complete one to a later block: a query at the first one's block still reads the unfinished state. |
| TimeTravel.PushedLookup | core/crates/ugraph-node/src/main.rs:696-724 | Looking a block up among the entries a pass records gives the state after the logs up to that block. |
| TimeTravel.PassLookup | core/crates/ugraph-node/src/main.rs:696-724 | The same for a whole pass and every block of its range. |
| BigDecimal.NormalizeBigDecimal | core/crates/ugraph-runtime/src/asc.rs:1676-1687 | Trimming, rounding and trimming again computes the normalization. |
| BigDecimal.TrimTrailingDecimalZeros | core/crates/ugraph-runtime/src/asc.rs:1689-1695 | The loop removes exactly the trailing zeros of the coefficient. |
| BigDecimal.KeptNearest | core/crates/ugraph-runtime/src/asc.rs:1697-1728 | Testing the 35th digit for 5 or more is rounding to the nearest 34-digit number with ties away from zero (IEEE 754-2008, section 4.3.1). |
| BigDecimal.NormalizeMeaning | core/crates/ugraph-runtime/src/asc.rs:1676-1728 | A nonzero number becomes the canonical number (coefficient below 10^34, last digit not zero) whose value is the coefficient rounded to 34 digits. |
| BigDecimal.NormalizeValue | core/crates/ugraph-runtime/src/asc.rs:1676-1687 | Numbers of equal value have the same normalization. |
| BigDecimal.NormalizeIdempotent | core/crates/ugraph-runtime/src/asc.rs:1676-1687 | Results are (0, 0), exactly for zero, or canonical; canonical numbers are unchanged; normalizing twice is normalizing once. |
| BigDecimal.NormalizeMono | core/crates/ugraph-runtime/src/asc.rs:1676-1728 | Normalization keeps the order of values. |
| BigDecimal.NormalizeError | core/crates/ugraph-runtime/src/asc.rs:1697-1728 | The error is at most half a unit in the 34th digit, and there is none on 34 digits or fewer. |
| BigDecimal.CanonicalUnique | core/crates/ugraph-runtime/src/asc.rs:1676-1687 | Two numbers without trailing zeros and of equal value are the same pair. |
| BigDecimalOps.Pow10Cache.Power | core/crates/ugraph-runtime/src/asc.rs:1764-1790 | Powers come from the cache or are computed and cached; a scale beyond 10000 is an error. |
| BigDecimalOps.AddMeaning | core/crates/ugraph-runtime/src/asc.rs:1593-1616 | Addition of nonzero numbers fails only when exponents or orders leave 64 bits, and otherwise is the normalized exact sum of the normalized operands if and only if it is not the case that the larger one is plus or minus a power of ten, the signs differ, the gap is 35 places and more than half of that unit is taken. |
| BigDecimalOps.AddShort | core/crates/ugraph-runtime/src/asc.rs:1593-1616 | For operands of at most 34 digits the same holds of the operands as they are given. |
| BigDecimalOps.LargeGap | core/crates/ugraph-runtime/src/asc.rs:1730-1745 | Over a gap of more than 34 places, answering with the larger operand is exact, after rounding, except in just that case. |
| BigDecimalOps.MissError | core/crates/ugraph-runtime/src/asc.rs:1730-1745 | In the case missed the error is below 10^(order-35). |
| BigDecimalOps.MissExample | core/crates/ugraph-runtime/src/asc.rs:1593-1616 | 1 plus -6e-35 is such a case. |
| BigDecimalOps.AlignmentBound | core/crates/ugraph-runtime/src/asc.rs:1665-1674 | Otherwise operands are aligned by at most 67 places, so the limit of `pow10` is never met. |
| BigDecimalOps.AddZero | core/crates/ugraph-runtime/src/asc.rs:1593-1616 | Adding zero gives the other operand's normalization. |
| BigDecimalOps.AddCommutes | core/crates/ugraph-runtime/src/asc.rs:1593-1616 | Addition commutes, errors included. |
| BigDecimalOps.MultiplyMeaning | core/crates/ugraph-runtime/src/asc.rs:1618-1628 | Multiplication fails exactly when an exponent leaves 64 bits; otherwise it is zero when an operand is, and else the exact product rounded to 34 digits. |
| BigDecimalOps.MultiplyValue | core/crates/ugraph-runtime/src/asc.rs:1618-1628 | The product does not depend on how the operands' values are written. |
| BigDecimalOps.DivideMeaning | core/crates/ugraph-runtime/src/asc.rs:1630-1645 | Division fails exactly on a zero divisor and on exponents out of range; otherwise it is the rounding of q * 10^(left exponent - right exponent - 34) for a quotient q with &#124;left*10^34 - q*right&#124; < &#124;right&#124;, truncated towards zero. |
| BigDecimalOps.DivideExact | core/crates/ugraph-runtime/src/asc.rs:1630-1645 | When the division comes out within 34 digits, the quotient times the divisor has the value of the dividend. |
| BigDecimalOps.DivideThird | core/crates/ugraph-runtime/src/asc.rs:1630-1645 | 1/3 is 34 threes behind the point. |
| BigDecimalOps.TruncDivBounds | core/crates/ugraph-runtime/src/asc.rs:1630-1645 | Truncated division: remainder smaller than the divisor, product not beyond the dividend and of its sign. |
| BigDecimalOps.EqualMeaning | core/crates/ugraph-runtime/src/asc.rs:1647-1654 | On numbers of at most 34 digits the runtime's equality is equality of values. |
| DecimalText.ParseFormat | core/crates/ugraph-runtime/src/asc.rs:1495-1591 | Printing fails exactly when the exponent or its negation leaves 64 bits; otherwise parsing what was printed gives the normalized number. |
| DecimalText.ParseScientific | core/crates/ugraph-runtime/src/asc.rs:1535-1591 | A text of sign, whole digits, point, fraction and a printed exponent is read as the number it denotes, and as an error when the exponent leaves 64 bits. |
| DecimalText.ParseScientificText | core/crates/ugraph-runtime/src/asc.rs:1535-1591 | So is any text of optional sign, digits with or without a point (the part before or after it may be empty) and an exponent in any form that reads as a 64-bit number. |
| DecimalText.ParseDecimalText | core/crates/ugraph-runtime/src/asc.rs:1535-1591 | Without an exponent the text is read as the number with exponent zero. |
| DecimalText.SignedNumber | core/crates/ugraph-runtime/src/asc.rs:1535-1591 | A printed integer is read back as an exponent when it has 64 bits, and is an error otherwise. |
| DecimalText.PrintersAgree | core/crates/ugraph-service/src/query.rs:2064-2087 | The query layer's printer gives the runtime's text if and only if the exponent is not negative or the last digit is not zero; so on every normalized number. |
| DecimalText.DropKeeps | core/crates/ugraph-runtime/src/asc.rs:1510-1533 | Dropping trailing zeros of a printed fraction, and a bare point, keeps the value. |
| AbiWord.EncodeStaticAbiWord | core/crates/ugraph-runtime/src/asc.rs:2102-2152 | The array that is filled and overwritten is the word of the specification function, errors included. |
| AbiWord.EncodeMeansAbi | core/crates/ugraph-runtime/src/asc.rs:2102-2152 | The encoder accepts exactly 20-byte addresses, booleans, bytesN of N bytes, uint values below 2^256 and int values in [-2^255, 2^255), and writes the word the Solidity ABI prescribes: big-endian, modulo 2^256, fixed bytes padded on the right. |
| AbiWord.DecodeAbiWord | core/crates/ugraph-runtime/src/asc.rs:2154-2187 | Both decoders return the value from the word the ABI prescribes for it. |
| AbiWord.WordRoundTrip | core/crates/ugraph-runtime/src/asc.rs:2102-2187 | Both decoders undo the encoder on every value it accepts, two's-complement sign extension included. |
| AbiWord.DecodersAgree | core/crates/ugraph-core/src/decode.rs:94-122 | The event decoder and the call decoder agree on every kind and every word. |
| AbiWord.DecodeThenEncode | core/crates/ugraph-runtime/src/asc.rs:2154-2187 | Whatever is decoded can be encoded again; numbers come back as the same word. |
| AbiWord.UsizesAgree | core/crates/ugraph-runtime/src/asc.rs:2218-2230 | The two readings of lengths and offsets agree on every word. |
| AbiWord.FixedBytesNames | core/crates/ugraph-runtime/src/asc.rs:2409-2416 | bytes1 to bytes32, and no other number, name a fixed width. |
| AbiLayout.DecodeEventParams | core/crates/ugraph-core/src/decode.rs:43-84 | The loop with its topic and data counters computes the recursive reading of the parameters. |
| AbiLayout.LayoutRoundTrip | core/crates/ugraph-core/src/decode.rs:43-148 | Decoding undoes the ABI's layout of topics, heads and tails, whatever single words and byte strings mean. |
| AbiLayout.TailPadded | core/crates/ugraph-core/src/decode.rs:124-148 | A dynamic value's tail is its length and its bytes, filled up with zeros to the next whole word. |
| AbiWord.EventRoundTrip | core/crates/ugraph-core/src/decode.rs:43-148 | Decoding an event undoes its ABI encoding for any mix of indexed and plain, static and dynamic arguments; an indexed dynamic one comes back as its hash. |
| AbiWord.DynamicCarried | core/crates/ugraph-core/src/decode.rs:175-177 | The dynamic kinds are texts and byte strings: an event carries every one, whole as data and by its 32-byte hash as a topic. |
| Bytes.SignedRoundTrip | core/crates/ugraph-runtime/src/asc.rs:898-903 | The shortest two's-complement form of an integer is read back as the integer. |
| Bytes.SignedBytesFit | core/crates/ugraph-runtime/src/asc.rs:2125-2137 | That form has at most n bytes exactly for the integers in [-2^(8n-1), 2^(8n-1)). |
| Bytes.SignExtend | core/crates/ugraph-runtime/src/asc.rs:2125-2137 | Repeating the sign byte keeps the integer. |
| HeapAlloc.Memory.AllocObj | core/crates/ugraph-runtime/src/asc.rs:1151-1164 | An allocated object lies in a new block with its size in front; everything handed out before is unchanged. It fails exactly when the module's `__new` refuses. |
| HeapAlloc.Memory.AllocValue | core/crates/ugraph-runtime/src/asc.rs:963-1013 | After allocating a store value, memory holds it, arrays and decimals included, and everything handed out before is unchanged. It fails only if `__new` refuses a request on the way, and never when there is room for the value. |
| HeapAlloc.Memory.AllocEntity | core/crates/ugraph-runtime/src/asc.rs:936-961 | After allocating an entity, reading the pointer gives the same entity for every sufficient stack depth, and everything handed out before is unchanged. It fails only if `__new` refuses a request on the way, and never when there is room for the entity. |
| HeapAlloc.BumpIsLawful | core/crates/ugraph-runtime/src/asc.rs:1151-1164 | The law asked of `__new` can be met: a bump allocator meets it. |
| HeapAlloc.BumpIsRoomy | core/crates/ugraph-runtime/src/asc.rs:1151-1164 | A bump allocator grants every request that fits below 2^31, and a grant uses up no more than the request and its header. |
| HeapAlloc.AllocOnBump | core/crates/ugraph-runtime/src/asc.rs:936-961 | So on a bump allocator with room for it every entity, however nested, is allocated and reads back. |
| Heap.ValueRead | core/crates/ugraph-runtime/src/asc.rs:1357-1403 | Reading a value that memory holds gives that value, whenever the recursion is deep enough for its nesting. |
| Heap.EntityRead | core/crates/ugraph-runtime/src/asc.rs:1335-1355 | Reading an entity that memory holds gives that entity. |
| Heap.ArrayRead | core/crates/ugraph-runtime/src/asc.rs:1405-1428 | Reading a pointer array gives its pointers. |
| Heap.TextRead | core/crates/ugraph-runtime/src/asc.rs:1211-1229 | Reading a string gives its UTF-16 units, from the size in front of it. |
| HeapLayout.CharactersValid | core/crates/ugraph-runtime/src/asc.rs:1211-1229 | A text that is read is valid UTF-16: the text of any characters is... |
| HeapLayout.ValidCharacters | core/crates/ugraph-runtime/src/asc.rs:1211-1229 | ... and every valid text is the text of some characters (Unicode Standard, section 3.9). |
| Heap.BigIntRead | core/crates/ugraph-runtime/src/asc.rs:1430-1433 | Reading an integer's typed array gives the integer. |
| Heap.ValueFormat | core/crates/ugraph-runtime/src/asc.rs:1357-1403 | What a value that is read says byte by byte: the number of its kind, four unused bytes, and eight bytes that are the number itself or the address of a text, bytes, an array, or of the addresses of a decimal's digits and exponent. |
| Heap.TextFormat | core/crates/ugraph-runtime/src/asc.rs:1211-1229 | A text's size in bytes stands in front of its two-byte units, the lower byte first. |
| Heap.BytesFormat | core/crates/ugraph-runtime/src/asc.rs:1188-1200 | A typed array has the start of its bytes and their number behind the buffer's address. |
| Heap.ArrayFormat | core/crates/ugraph-runtime/src/asc.rs:1405-1428 | An array has the start of its pointers, the buffer's size, and behind it their number. |
| Heap.EntryFormat | core/crates/ugraph-runtime/src/asc.rs:1343-1352 | An entry has the address of its key, then that of its value. |
| Heap.ValueKept | core/crates/ugraph-runtime/src/asc.rs:963-1013 | A value that memory holds stays held whatever is allocated later. |
| Heap.EarlierEntityStays | core/crates/ugraph-runtime/src/asc.rs:936-961 | An entity written earlier still reads back, whatever has been allocated since. |
| Heap.EarlierValueStays | core/crates/ugraph-runtime/src/asc.rs:963-1013 | So does a value. |
| DeltaHistory.ChangedEntityVersions | core/crates/ugraph-service/src/storage.rs:1648-1677 | The two passes collect exactly the delta between two states. |
| DeltaHistory.DeltaMeaning | core/crates/ugraph-service/src/storage.rs:1648-1677 | A delta names exactly the entities that differ, carries the old state to the new one, and its previous data carry it back. |
| DeltaHistory.DeltaSmallest | core/crates/ugraph-service/src/storage.rs:1648-1677 | No set of rows that leads to the new state names fewer entities. |
| DeltaHistory.HistoryStore.WriteHistory | core/crates/ugraph-service/src/storage.rs:1853-1927 | Whatever the table held, it then holds exactly the history's deltas; it fails exactly on a block or a number of entities that does not fit its column, and then leaves the table as it was. |
| DeltaHistory.HistoryStore.LoadHistory | core/crates/ugraph-service/src/storage.rs:1528-1627 | Loading gives the one history the table stands for, in block order, from any mix of delta and whole-snapshot rows. |
| DeltaHistory.TableRepresents | core/crates/ugraph-service/src/storage.rs:1853-1927 | What is written for strictly increasing blocks stands for that history. |
| DeltaHistory.RowsOne | core/crates/ugraph-service/src/storage.rs:1528-1627 | A table stands for at most one history. |
| DeltaHistory.RepresentedEntry | core/crates/ugraph-service/src/storage.rs:1588-1620 | What a row means, entity by entity: after a delta row an entity has the row's data, is gone if the row removes it, and is as before if the row does not name it; a whole-snapshot row holds exactly the entities it names and does not remove, whatever came before. |
| DeltaHistory.FullRowReplaces | core/crates/ugraph-service/src/storage.rs:1588-1620 | A table of two whole-snapshot rows, one entity each: the second block holds only the second entity. |
| DeltaHistory.WriteThenLoad | core/crates/ugraph-service/src/storage.rs:1528-1927 | Writing and loading returns every full entity set, from any prior contents, so also after pruning old entries. |
| DeltaHistory.RepeatedBlockLoses | core/crates/ugraph-service/src/storage.rs:1877-1925 | Strictly increasing blocks are needed: of two equal entries at one block nothing is left. |
| Audit.AuditStore.WriteActivity | core/crates/ugraph-service/src/storage.rs:1679-1833 | The trail below the first new block is kept, the rest is the marked deltas of the pass's steps in block order, with their counts; it fails exactly on a block or a count that does not fit, and then leaves everything as it was. |
| Audit.LogSteps | core/crates/ugraph-service/src/storage.rs:1719-1831 | Every step is compared with the step before it, the first with the baseline. |
| Audit.KeptRows | core/crates/ugraph-service/src/storage.rs:1686-1717 | Replacing the activity keeps no row; otherwise exactly the rows of blocks below every new one stay, as they are. |
| Audit.LastForBlock | core/crates/ugraph-service/src/storage.rs:1719-1722 | Of several entries for one block the last one is logged. |
| Audit.StepRows | core/crates/ugraph-service/src/storage.rs:1724-1831 | Each step has a row for exactly the entities that differ from the step before it, or from the baseline, rightly labelled; the count stored for its block is the number of those rows. |
| Audit.LabelsRight | core/crates/ugraph-service/src/storage.rs:1785-1795 | A row exists exactly for an entity that differs; created, updated and removed mean absent before, present both times, absent after; previous and new data are right. |
| Audit.FoldExact | core/crates/ugraph-service/src/storage.rs:1679-1833 | Folding the trail forward gives the state at a block if and only if the kept rows agree with the baseline on every entity that no step up to there touches. |
| Audit.FoldRight | core/crates/ugraph-service/src/storage.rs:1679-1833 | So it is right at every block from the cut on when the kept rows fold to the baseline. |
| Audit.UndoRight | core/crates/ugraph-service/src/storage.rs:1648-1677 | Taking rows back by their previous data from the newest state gives the state before each of the pass's blocks, whatever the kept rows are. |
| Audit.PassAudited | core/crates/ugraph-node/src/main.rs:1062-1075 | A pass that starts from the current entities and only adds blocks past the checkpoint keeps the trail folding to the current entities. |
| Audit.StaleRowStays | core/crates/ugraph-service/src/storage.rs:1691-1717 | After a rollback, an entity created between the rollback block and the first new block stays in the fold if nothing touches it again. |
| AuditRuns.StaleRowRun | core/crates/ugraph-service/src/storage.rs:1679-1833 | Three cycles with a rollback and what they write to the trail: an entity of the old chain is not among the entities but is still in the fold. |
| AuditRuns.WriteStaleTrail | core/crates/ugraph-service/src/storage.rs:1679-1833 | The same trail written by the three transactions themselves. |
| Scan.BlockChunks | core/crates/ugraph-core/src/scan.rs:561-577 | The chunks tile the range without gap or overlap, all but the last of full width, within 64 bits. |
| Scan.TilesOnce | core/crates/ugraph-core/src/scan.rs:561-577 | Every block of the range lies in exactly one chunk. |
| Scan.Rpc.WithRetries | core/crates/ugraph-core/src/scan.rs:405-426 | A request is tried again only on retryable errors, and fails only on an error that is not retryable or when all attempts are used up. |
| Scan.Rpc.Resilient | core/crates/ugraph-core/src/scan.rs:331-394 | Under any failures, a result of the bisection is exactly the chain's answer for the range, in order. There is no result only if a request was given up: a wider one failed for another reason than its width, or a single block could not be had in any attempt. |
| Scan.Rpc.Chunked | core/crates/ugraph-core/src/scan.rs:309-329 | The same for the chunked request. |
| Scan.Rpc.ScanSourceRange | core/crates/ugraph-core/src/scan.rs:177-268 | A source's scan gives exactly the items of the logs it is active for, all of which can be decoded; it fails only if a request was given up or one of the items cannot be decoded, and then exactly if requests only ever fail for being too wide. |
| Feed.RegisterKeeps | core/crates/ugraph-service/src/storage.rs:1994-2036 | A new subscription, or one with the same topics, keeps the feed good: it holds a log exactly when the log is on the chain and some subscription is filled past it. |
| Feed.TopicsExact | core/crates/ugraph-service/src/storage.rs:2012-2036 | Registering again with other topics leaves the feed good if and only if every chain log below the cursor whose topic is in only one of the two sets is covered by another subscription. |
| Feed.AddedTopicMisses | core/crates/ugraph-service/src/storage.rs:2012-2036 | So logs of an added topic below the cursor that nothing else covers are missed. |
| Feed.FeedStore.WriteLogs | core/crates/ugraph-service/src/storage.rs:2160-2252 | One transaction inserts the logs that are not there, the block's hash and the cursor, or nothing. |
| Feed.FillExact | core/crates/ugraph-node/src/main.rs:914-941 | Filling a subscription from its cursor, or from where the reader was told to start, keeps the feed good if and only if every chain log it passes over is covered already. |
| Feed.FillKeeps | core/crates/ugraph-node/src/main.rs:914-941 | So filling from the cursor, or from the subscription's start, keeps the feed good. |
| Feed.FeedStore.ReaderPass | core/crates/ugraph-node/src/main.rs:895-948 | A reader pass, wherever it was told to start, is a rollback or a move of the chain followed by fills to its block with that block's hash, even when a request fails halfway. If the RPC answers for all cursor blocks it rolls back to the least one whose hash differs, and leaves every subscription filled to its end unless a request was given up or the block does not fit its column. The cursors fit their column again, so that the next pass may follow. Not told where to start, it keeps the feed good. |
| Feed.FeedStore.ReaderLoop | core/crates/ugraph-node/src/main.rs:895-948 | Pass after pass, whatever fails, on a chain that grows and reorganizes: the feed is where those passes' events lead, each pass rolling back and filling as it must from where the ones before it led; a last pass that is not disturbed leaves every subscription filled. |
| Feed.EventExact | core/crates/ugraph-service/src/storage.rs:1994-2252 | Registering, filling, a moving chain, a rollback: an event keeps a good feed good if and only if changed topics are covered by other subscriptions, a fill passes over nothing that is not covered, the chain moves without touching a covered log, and a rollback reaches below every covered log that changed. |
| Feed.EveryReachedFeedIsGood | core/crates/ugraph-service/src/storage.rs:1994-2252 | As long as each event is such a one in the state where it happens, every feed that any sequence of events reaches from an empty one is good. |
| Feed.FeedReorgRollbackBlock | core/crates/ugraph-node/src/main.rs:950-976 | The rollback block is the least cursor block whose first stored hash the RPC contradicts; a missing RPC hash is no contradiction. |
| Feed.FirstListed | core/crates/ugraph-node/src/main.rs:950-966 | The compared blocks are the cursors with a hash, each with the hash of the first subscription listed for it. |
| Feed.HashesRecorded | core/crates/ugraph-service/src/storage.rs:2078-2252 | Whatever happens to a feed, the hash at a cursor is one that a fill up to that very block recorded, rollbacks included. |
| Feed.RolledCursor | core/crates/ugraph-service/src/storage.rs:2109-2145 | A rollback leaves cursors below its block; the others go to the block before, with the hash stored for it, or to none before block 0. |
| Feed.RollbackExact | core/crates/ugraph-service/src/storage.rs:2078-2158 | A rolled-back feed is good for a new chain if and only if both chains have the same covered logs below the rollback block. |
| Feed.RollbackKeeps | core/crates/ugraph-service/src/storage.rs:2078-2158 | So it is good for every chain that agrees below the block. |
| Feed.ReaderRollbackExact | core/crates/ugraph-node/src/main.rs:950-976 | After the rollback to the block that the reader picks, the feed is good for the new chain if and only if no covered log below that block has changed. |
| Feed.StaleLogStays | core/crates/ugraph-node/src/main.rs:950-976 | A covered log below the rollback block that is gone from the chain stays in the feed: only cursor blocks are compared. |
| Feed.StaleLogRun | core/crates/ugraph-node/src/main.rs:895-976 | A reader that fills to block 20, meets a reorganization from block 15 on and rolls back to block 20 only: the log of block 15 stays. |
| Feed.FeedStore.ReadSource | core/crates/ugraph-node/src/main.rs:497-545 | Registering a source, asking whether the feed has caught up, and loading: the source is not pending exactly when its cursor has reached the block, and then what is loaded is what a direct scan returns; the feed stays good. |
| Feed.FeedStore.LoadSource | core/crates/ugraph-service/src/storage.rs:2333-2436 | The load returns exactly the stored logs asked for, in position order. |
| Feed.FeedIsScan | core/crates/ugraph-service/src/storage.rs:2333-2436 | On a good feed, what a caught-up source loads is what a direct scan of the chain returns. |
| QueryOrder.DecimalOrder | core/crates/ugraph-service/src/query.rs:786-820 | On texts accepted as decimal, comparing by length and then by character is exactly the order of the integers. |
| QueryOrder.NormalizedMeaning | core/crates/ugraph-service/src/query.rs:801-815 | The normalized sign and digits denote the same integer; zero has no sign. |
| QueryOrder.SortMeaning | core/crates/ugraph-service/src/query.rs:386-394 | A stable sort under a comparison by rank puts ranks in order, loses and adds nothing, and keeps the order of equal ranks. |
| QueryOrder.IntegerColumnSorted | core/crates/ugraph-service/src/query.rs:363-399 | On an all-integer column without nulls sorting gives number order, ascending or descending, each row once, ties in stored order. |
| ColumnOrder.IntegerPageSorted | core/crates/ugraph-service/src/query.rs:363-399 | A page over such a column is in number order, and is the part asked for of that sorted list. |
| QueryOrder.PagesAreAll | core/crates/ugraph-service/src/query.rs:396-399 | Pages with skip k*n and first n, put together, are the whole sorted list. |
| ColumnOrder.ColumnExact | core/crates/ugraph-service/src/query.rs:713-820 | The comparison of a column is transitive if and only if the column is orderly: two integers with other text between them, in text order, are in the order of their numbers; and with an explicit null, all values are one. |
| ColumnOrder.OrderlyPage | core/crates/ugraph-service/src/query.rs:363-399 | A page over an orderly column is in order: of its rows no later one comes first. |
| ColumnOrder.PageRows | core/crates/ugraph-service/src/query.rs:713-783 | Row by row: rows without the field come before all others, false before true, integers by number, and texts of which one is no integer in dictionary order; descending the other way round. |
| ColumnOrder.TextMeaning | core/crates/ugraph-service/src/query.rs:769-784 | Text comparison is dictionary order. |
| ColumnOrder.DefaultPage | core/crates/ugraph-service/src/query.rs:396-399 | Without arguments a query gives the first hundred rows. |
| ColumnOrder.TextOrderExact | core/crates/ugraph-service/src/query.rs:777-783 | Two plain decimals are in number order as texts if and only if their whole parts are. |
| ColumnOrder.DecimalRowsExact | core/crates/ugraph-service/src/query.rs:713-783 | A query puts two decimals, not negative and not both whole, in number order if and only if their whole parts, as text, are in number order. |
| ColumnOrder.NegativeRowsExact | core/crates/ugraph-service/src/query.rs:713-783 | Two negative decimals, not both whole, come in number order if and only if they are equal or their whole parts, as text, are not in number order. |
| ColumnOrder.SignsDecide | core/crates/ugraph-service/src/query.rs:713-783 | A negative decimal comes before one that is not negative. |
| QueryOrder.MixedColumnCycles | core/crates/ugraph-service/src/query.rs:713-783 | A column of integers and another text in which the comparison goes round in a circle, and a null that equals two different values. |
| QueryOrder.FractionsAsText | core/crates/ugraph-service/src/query.rs:777-783 | 9.5 comes after 10.5. |
| SchemaStore.ValidateStoreSet | core/crates/ugraph-runtime/src/lib.rs:500-561 | The errors reported are exactly those a `store.set` has, and there are none exactly when it is acceptable. |
| SchemaStore.ValidateStoreSets | core/crates/ugraph-runtime/src/lib.rs:491-498 | Reports for every set exactly the errors it has, counts them all, and the count is zero exactly when no set of the run fails. |
| SchemaStore.ValidateFieldValue | core/crates/ugraph-runtime/src/lib.rs:563-610 | A field's errors are exactly its null or ill-typed items, a missing list, or a wrong kind. |
| SchemaStore.FindsNothing | core/crates/ugraph-runtime/src/lib.rs:500-561 | Acceptable means: known type, an id, only declared stored fields, required ones present and not null, every value of its kind, and an `id` field that agrees with the key. |
| SchemaStore.KindsOfValue | core/crates/ugraph-runtime/src/lib.rs:612-625 | Which field kinds take which values, value by value: a name that is no scalar type refers to an entity and takes text or bytes. |
| SchemaStore.OtherIdRefused | core/crates/ugraph-runtime/src/lib.rs:548-558 | A set whose `id` field names another entity than the one it is stored under is refused. |
| SchemaStore.BytesId | core/crates/ugraph-runtime/src/lib.rs:627-636 | Bytes stand for the text of `0x` and two lower-case digits for each byte, from which they can be read back. |
| SchemaStore.IdsMatchClasses | core/crates/ugraph-runtime/src/lib.rs:638-652 | Matching of identifiers, with and without hexadecimal prefix, is an equivalence. |
| SchemaStore.TightMatch | core/crates/ugraph-runtime/src/lib.rs:638-652 | Without space around them, identifiers match when they are the same, or both hexadecimal and the same but for case. |
| SchemaStore.SpacedMatch | core/crates/ugraph-runtime/src/lib.rs:638-652 | Space around an identifier does not matter. |
| SchemaStore.LastWriteDecides | core/crates/ugraph-runtime/src/asc.rs:502-550 | After a run's calls an entity is what the last call that writes it says: the data of a set, or gone after a removal. |
| SchemaStore.UnwrittenStays | core/crates/ugraph-runtime/src/asc.rs:502-550 | An entity that no call with all its arguments names stays as it is. |
| SchemaStore.RunKeepsValid | core/crates/ugraph-runtime/src/asc.rs:502-550 | A handler run without a failing set turns a valid store into a valid store. |
| SchemaStore.FailingLogStops | core/crates/ugraph-node/src/main.rs:620-644 | A pass that meets a log whose sets fail validation has the state of the walk before that log, and the log's sets, on that very store, fail. |
| SchemaStore.CycleHolds | core/crates/ugraph-node/src/main.rs:978-1077 | Any property that clean handler runs keep is kept by a whole cycle, for the snapshot and every retained entry, whatever the chain, the options and the RPC's answers. |
| SchemaStore.EveryReachableStoreFits | core/crates/ugraph-node/src/main.rs:620-643 | Starting empty, every snapshot and every retained entry that any sequence of cycles leads to fits the schema, for every program the handlers may be. |
| Widths.UnsignedWidths | core/crates/ugraph-core/src/scan.rs:561-577 | Blocks are 64-bit unsigned, pointers of the module 32-bit. |
| Widths.SignedWidths | core/crates/ugraph-service/src/storage.rs:1853-1927 | Block columns, exponents and orders are signed 64-bit numbers, counts and object sizes signed 32-bit ones. |
| Widths.Saturates | core/crates/ugraph-core/src/scan.rs:561-577 | A sum of blocks that does not fit becomes the largest number that does. |
| Widths.Digits | core/crates/ugraph-runtime/src/asc.rs:1697-1728 | Normalized numbers have at most 34 digits. |

## Left out

- Names, addresses, topics, hashes and log data are numbers; the order of names and addresses stands for the byte order of the sorted maps, and addresses and topics are the lower-cased ones.
- Logs without a block, transaction or log index (pending logs) do not occur in the model.
- Handlers are deterministic functions; WebAssembly execution, calls to contracts, their cache, IPFS and JSON imports are not modelled, nor are block metadata, timestamps and the scanned and executed counters.
- RPC: transport, throttling and backoff are reduced to requests that fail or return the right logs; the worklist's scans fail per source, by an arbitrary predicate.
- Runs.SplitInvariance: asks of every cycle that it does not reset, and does not end before something processed (Bounds.CycleEndExact shows that exact; a head behind a complete checkpoint is allowed); of the first that it reaches its start block; of an unfinished pass without a start block that it left nothing behind (NoStart.NoStartExact); that no two dynamic sources share an address (SourceOrder.SharedAddress); and, unless every pass completes, that no dynamic source has a log at or before its creating log (SourceOrder.EarlierLog). Of these two, Reload.StopExact and Reload.CompleteExact give the exact form at each cut.
- TimeTravel.TimeTravelIsExact: asks that every pass completed, because an unfinished pass stamps its state with the block it was to reach (Witness.StampedEntry); AnyTravel.AnyQuery is about every run.
- AnyTravel.AnyQuery: is about runs with one history limit that end complete; with limits that change, Stamps.LaterAnswer is about the entries that are retained.
- Reorg.ReorgThenResync: is about rollbacks to complete entries; for entries recorded on the way of a pass see StampRollback.ExactLeadsRight and Partial.PartialEntryRedoes, for those of unfinished passes StampRollback.StampRedoes.
- Bounds.CycleEndExact: necessity is shown for a handler that counts and creates no sources (a handler that ignores what it gets needs no condition); that the condition suffices for every handler is Runs.CycleKeepsGood.
- NoStart.NoStartExact: likewise; that the condition suffices for every handler is Runs.NextGood.
- Watch.FailedFirstExact: likewise; that the condition suffices for every handler is Watch.WatchSplitInvariance.
- Partial.PartialEntryRedoes: likewise; that the condition suffices for every handler is StampRollback.ExactLeadsRight.
- StampRollback.StampRedoes: likewise; that the condition suffices for every handler is StampRollback.StampLeadsRight.
- Stamps.StampRightExact: likewise; that the condition suffices for every handler is Stamps.StampRight.
- Stamps.LaterAnswerExact: likewise; that the condition suffices for every handler is Stamps.LaterAnswerRight.
- AnyTravel.AnyQueryExact: likewise; that the condition suffices for every handler is AnyTravel.AnyQuery.
- QueryOrder.PagesAreAll: speaks of the model's stable insertion sort; on a column that is not orderly (ColumnOrder.ColumnExact) the order that the program's sort gives is unspecified, and it may panic.
- Feed mode of the worklist (backfill of a new source in a later pass) is not part of the engine model; the feed's equality with a scan is stated for caught-up sources.
- The feed is modelled for one chain; overflow of transaction and log indexes in its columns is not.
- A dynamic source's position of creation is kept inside a pass; a checkpoint keeps only its block, as the program does.
- Overflow of the 64-bit difference of two orders in addition, and the exponent whose negation does not fit when printing, are errors in the model.
- Trimming of decimal texts removes blanks, tabs, newlines and carriage returns only.
- Hexadecimal, JSON and decimal texts of stored integers are modelled by the bytes and integers they spell.
- AbiWord.EncodeWord: the bit width in kinds such as uint8 is not looked at, as in the program.
- Decoding of dynamic call outputs, ABI arrays and tuples, signature parsing and Keccak are not modelled.
- Heap: reading is bounded by a depth that stands for the host's stack; type identifiers, Ethereum values, events and JSON values on the heap are not modelled; they have the same layout of words and pointers.
- HeapAlloc.Memory.AllocEntity: writes the entries of a map in an arbitrary order of the keys, which includes the program's sorted one.
- Upserts that keep an older hash or timestamp, update times and per-block log counters of the audit tables are not modelled.
- Filters of queries, nested ordering, projection, GraphQL parsing and introspection are not modelled.
- The JSON state file, user and key tables, advisory locks, migrations and the HTTP server are not modelled.
- The command-line tool's copy of the sync engine is not modelled.
