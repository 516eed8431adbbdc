# A verified model of lsm-kv

lsm-kv is an LSM-tree key-value engine with a small relational database on top. This project models its
hard parts in Dafny and proves what they are for. There are four layers; each one is a group of modules.

**Transactions (A).** `Values`, `VersionStore`, `Protocol`, `Ddl` define the durable records (version
chains, heads, transaction records, counters, catalog) and what each call of the database does, as the list
of single puts it issues. `DurableSteps` and `CrashSafety` show that one invariant survives every single put
of every call; `LiveTxns`, `DdlProof` and `RecoveryProof` treat the calls, the schema changes and recovery as
wholes. `SnapshotIsolation` is the machine whose steps are the calls, crashes and recoveries of any number of
transactions, with its invariant over every run; `Lineage` adds how chains grow. On top of it stand
`IsolationTheorems` (snapshot reads, repeatable reads, first committer wins, no failing commit), `Histories`,
`CrashAtomicity`, `ClockWindow` and `CrashAnywhere`. `TxnTheorems`, `WriteTheorems` and `SchemaTheorems` say
what every call does in terms of what is read before and after it, without versions or chains. `SampleRuns`
writes runs out step by step. `Engine` holds the classes `Database` and `Transaction` with the source's loops;
each method is proved to issue exactly the puts of its specification.

**LSM engine (B).** `InternalKeys`, `Tables`, `LsmEngine` define layers of sorted tables and the engine's
steps; `LsmProof`, `CompactionProof` and `LsmRefinement` show that the engine is a map in every reachable
state. `Merging`, `DbIteration` and `LsmDb` are the imperative merge, iterator and database class, and
`LogRecovery` reads a log back.

**Structures (C).** `SkipList` (with the memtable), `Encoding`, `RowCodec`, `Blocks`, `BlockIo`, `Sstable`,
`SstableBuilder`, `SstableReader`, `TableFiles`, `Wal`, `Manifest`, `Versions` and `Crc32`: each fast or
byte-level form against the simple thing it stands for. `Formats` writes out one example of every format.

**Queries (D).** `KeyOrder`, `Expressions`, `Plans`, `PlanTheorems`, `Select`, `RangeScans` and `PlanSoundness`
for access paths, and `Aggregates`, `HashAggregate` for grouping.

Properties that one might expect and that the code does not have are stated as such, with an input that
shows it and the exact condition under which they do hold: the clock after a crash (`ClockWindow.CommitClock`,
`CrashAnywhere.ClockFallsBehind`), old snapshots after compaction (`LsmRefinement.SnapshotSurvives`,
`SnapshotLost`), updates after a delete (`IsolationTheorems.UpdateMissing`, `SampleRuns.UpdateRevives`), a
truncated log or MANIFEST (`Wal.CutLogRecovers`, `Versions.CutRecovers`), counters after recovery
(`Versions.CountersAgree`, `CounterFallsBack`), and point lookups and range scans in place of a filter
(`PlanSoundness.AccessPathExact`, with `WrongTypeInput` and `IntegerRangeInput`).

Calls under the exclusive lock are single steps of the machine; for crashes every put is a step. The key-value
store under the relational layer is a durable map that keeps a prefix of the puts. Sequence numbers in encoded
keys stay below 2^56, as the header asks. The checksum is a parameter of the file formats; `Crc32` is the one
the code uses, and `Wal.CrcBounded` shows that it fits.

## Model

| member | source | states |
|---|---|---|
| SnapshotIsolation.RunInv | src/reldb/database.cpp:474-677 | In every state of every run of transactions, schema changes, recoveries and crashes, after any put but the Committed record, the system invariant holds. |
| SnapshotIsolation.StepKeeps | src/reldb/database.cpp:157-677 | Each event, from any state with the invariant, leads to a state with the invariant. |
| SnapshotIsolation.CallKeeps | src/reldb/database.cpp:474-677 | Begin, Write, Commit and Abort, accepted or refused, keep durable and in-memory state consistent. |
| SnapshotIsolation.DdlKeeps | src/reldb/database.cpp:157-407 | CREATE, DROP and ALTER behind the gate keep it too. |
| SnapshotIsolation.CommitOrdered | src/reldb/database.cpp:639-660 | A committing transaction and every earlier committer of a common key are ordered: one had committed by the other's snapshot. |
| SnapshotIsolation.CallSeen | src/reldb/database.cpp:474-677 | After any call, each committed transaction had committed by an open transaction's snapshot, or every key it wrote has a committed version at least as new, which refuses the open one. |
| SnapshotIsolation.CallShapes | src/reldb/database.cpp:190-407 | Every version an open snapshot can reach keeps the width and types of the current schema. |
| IsolationTheorems.CommitAlwaysSucceeds | src/reldb/database.cpp:602-637 | In every run, each open transaction's writes are still the heads of their keys over versions no newer than its snapshot, so Commit never takes a Conflict branch and succeeds. |
| IsolationTheorems.FirstCommitterWins | src/reldb/txn.cpp:72-109 | Of two committed transactions that wrote a common key, one had committed by the other's snapshot. |
| IsolationTheorems.NoLostUpdate | src/reldb/txn.cpp:72-109 | The version a committed write replaced had been committed by the writer's snapshot. |
| Histories.HistoryIsStore | src/reldb/database.cpp:639-660 | In every state of every run the history holds exactly the transactions whose intent or Committed record is in the store, with that timestamp. |
| Histories.VersionsOrdered | src/reldb/txn.cpp:72-109 | Of two committed versions of a key by different transactions, one writer had committed by the other's snapshot. |
| IsolationTheorems.LifetimesTile | src/reldb/database.cpp:526-559 | Each committed version ends exactly where its successor starts, the newest is open, and start times decrease down the chain. |
| IsolationTheorems.VisibleIsLatest | src/reldb/mvcc.cpp:101-106 | A version passes the visibility test at a snapshot if and only if it is the latest committed at or before it. |
| IsolationTheorems.LiveRead | src/reldb/mvcc.cpp:157-203 | The chain walk returns the transaction's own last write or else the latest version committed by its snapshot, never an error. |
| IsolationTheorems.GetReadsSnapshot | src/reldb/mvcc.cpp:157-203 | The same in every state of every run. |
| IsolationTheorems.RepeatableRead | src/reldb/mvcc.cpp:170-201 | While a transaction is open, Get on a key it has not written answers the same at any two points of the run. |
| IsolationTheorems.ReadRowsFitSchema | src/reldb/txn.cpp:196-208 | Any row a transaction can read has the width, types and primary key the current schema demands, across ALTER, DROP and CREATE. |
| IsolationTheorems.UpdateMissing | src/reldb/txn.cpp:41-62 | Update of a row the transaction cannot see is refused if and only if the transaction has not written the key; after its own delete the row comes back. |
| WriteTheorems.WriteEffect | src/reldb/txn.cpp:34-194 | In every run, Insert, Update and Delete answer by what the transaction reads: Conflict if another open transaction wrote the key or a version was committed after the snapshot, an insert is refused for a row it sees, the others for a row it does not, but an update may follow its own delete. Refused, nothing changes. Accepted, the transaction reads the new row, or none after a delete, and every other read of every open transaction and of the next to begin is as before. |
| WriteTheorems.WriteMeans | src/reldb/txn.cpp:34-194 | The same for any running store, which is what the method WriteAction states. |
| WriteTheorems.TargetMeans | src/reldb/txn.cpp:170-194 | The key of a call is the given one, or the cell of the valid row in the column marked as primary key; no table is NotFound, an invalid row InvalidArgument. |
| TxnTheorems.BeginReads | src/reldb/database.cpp:474-495 | In every run, Begin gives a new handle that reads the committed state of every key, and no other read changes. |
| TxnTheorems.CommitReads | src/reldb/database.cpp:598-665 | In every run, Commit makes what the transaction reads of the keys it wrote the committed state of these keys; all other keys, and every read of the transactions still open, stay as they were. |
| TxnTheorems.AbortReads | src/reldb/database.cpp:667-677 | In every run, Abort succeeds and changes nothing anybody else reads. |
| SampleRuns.UpdateRevives | src/reldb/txn.cpp:54-58 | A run in which a transaction deletes its row, cannot read it, updates it with success, and reads it again. |
| SampleRuns.InsertRun | src/reldb/txn.cpp:34-168 | Every valid row of every valid table is reached by a run that creates the table and inserts it. |
| Reads.OneVisible | src/reldb/mvcc.cpp:101-106 | A snapshot sees at most one version of a key, in any durable state, also in the middle of a commit. |
| Reads.ReadRowCorrect | src/reldb/mvcc.cpp:157-203 | In any durable state the walk ends, never reports corruption, and returns the own provisional head or the one visible version. |
| LiveTxns.CommitNeverConflicts | src/reldb/database.cpp:602-637 | The checks made when writing make both re-checks in Commit pass. |
| LiveTxns.WalkMeans | src/reldb/txn.cpp:89-109 | The first-committer-wins walk refuses if and only if the newest committed version of the key is newer than the snapshot. |
| LiveTxns.WriteKeeps | src/reldb/txn.cpp:34-168 | Whatever Write decides, every put it issues is safe to stop after, and the running invariant holds with the write listed. |
| LiveTxns.CommitKeeps | src/reldb/database.cpp:598-665 | After a commit the running invariant holds for the store and the transactions that stay open. |
| LiveTxns.CommitEffect | src/reldb/database.cpp:639-661 | The store after a commit: every listed version stamped, its predecessor closed, record and clock set, all else as before. |
| LiveTxns.CommitSafe | src/reldb/database.cpp:639-661 | A commit may stop after any of its puts but the Committed record without breaking the durable invariant. |
| LiveTxns.AbortKeeps | src/reldb/database.cpp:667-677 | Abort succeeds, may stop after any put, and leaves the running invariant for the transactions that stay open. |
| LiveTxns.BeginKeeps | src/reldb/database.cpp:474-495 | Begin gives a snapshot behind which no commit can still happen. |
| DurableSteps.InstallKeeps | src/reldb/txn.cpp:135-166 | Adding a provisional version above the newest committed one keeps the durable invariant. |
| DurableSteps.MoveHeadKeeps | src/reldb/database.cpp:497-514 | Moving a provisional head back to its predecessor keeps it and every read of other transactions. |
| DurableSteps.CloseKeeps | src/reldb/database.cpp:526-559 | Ending the predecessor before stamping the new version leaves lifetimes disjoint. |
| DurableSteps.StampKeeps | src/reldb/database.cpp:526-559 | Stamping the version then leaves no gap. |
| DurableSteps.FinishKeeps | src/reldb/database.cpp:655-660 | The Committed record is consistent once all listed versions are stamped. |
| CrashSafety.ApplyWritesSafe | src/reldb/database.cpp:526-559 | The stamping loop is safe after each put and, where it completes, has stamped exactly the list. |
| CrashSafety.RestoreHeadsSafe | src/reldb/database.cpp:497-514 | So is the loop that restores heads, newest write first. |
| CrashSafety.AbortSafe | src/reldb/database.cpp:667-677 | Abort may stop after any put. |
| CrashSafety.BeginSafe | src/reldb/database.cpp:474-495 | Begin may stop after any put. |
| RecoveryProof.RecoverySafe | src/reldb/database.cpp:561-596 | From any durable state recovery succeeds, may itself stop after any put, and leaves every transaction committed or aborted. |
| RecoveryProof.RecoveryIdempotent | src/reldb/database.cpp:561-596 | Recovering a second time changes nothing. |
| CrashAtomicity.CrashIsAtomic | src/reldb/database.cpp:497-660 | Stop any call after any put but the Committed record, in any state of any run, and recover, with any number of recoveries interrupted likewise: a commit whose intent became durable is complete, anything else reads as if it had never been. |
| CrashAnywhere.EveryCrashAtomic | src/reldb/database.cpp:497-661 | The same for every put, the Committed record included, in calls and in recoveries: the commit is complete in versions, records and reads, and the clock is past it unless a cut fell right after the Committed record. |
| CrashAnywhere.WindowNext | src/reldb/database.cpp:474-495 | After such a cut the next transaction reads every key as before the commit, is refused with Conflict on every key the commit wrote, and commits at the same timestamp. |
| CrashAnywhere.LowerRecovery | src/reldb/database.cpp:561-596 | Without a durable intent recovery issues the same puts whatever the clock shows, and leaves the clock. |
| CrashAtomicity.CommitPendingRecovers | src/reldb/database.cpp:569-583 | A durable intent is redone to the end: every listed version stamped with its timestamp, predecessors closed, clock past it. |
| CrashAtomicity.AbortPendingRecovers | src/reldb/database.cpp:584-592 | Without an intent the transaction is rolled back and every read is as before it. |
| ClockWindow.CommitClock | src/reldb/database.cpp:655-661 | After a commit stopped after n puts and recovery, the clock is past every commit if and only if the last put kept is not the Committed record. |
| ClockWindow.RecoveryClock | src/reldb/database.cpp:561-596 | The same for recovery stopped and run again. |
| ClockWindow.BehindStays | src/reldb/database.cpp:569-583 | Recovery does not repair a clock that is behind a Committed record. |
| CrashAnywhere.ClockFallsBehind | src/reldb/database.cpp:660-661 | A run to a transaction with one inserted row, whose commit, stopped between its last two steps, leaves the clock at its own timestamp; the next commit is given that timestamp again. |
| Lineage.RunLineage | src/reldb/database.cpp:526-559 | Over every run, the writer of every committing or committed version is in the history with that key, and what the version replaced had been committed by the writer's snapshot. |
| DdlProof.AlterKeeps | src/reldb/database.cpp:190-407 | ALTER succeeds on a store without transactions, leaves the invariant under the new schema, and every snapshot taken before it sees what it saw. |
| DdlProof.DropKeeps | src/reldb/database.cpp:170-188 | The store without the table's heads, versions and catalog entry satisfies the running invariant. |
| DdlProof.DropEffect | src/reldb/database.cpp:170-188 | The puts of DROP remove exactly the heads, versions and catalog entry of the table, in whatever order the keys were collected. |
| DdlProof.CreateKeeps | src/reldb/database.cpp:157-168 | CREATE adds a table that has no rows yet. |
| SchemaTheorems.AddColumnEffect | src/reldb/database.cpp:190-297 | In every run, ADD COLUMN is accepted exactly when no transaction is open and a new named column that is not the key comes with a value of its type. Then the columns are the old ones and the new one, and the next transaction reads every row it could have read before with the old cells in place and exactly the default behind them; missing rows stay missing and other tables stay. |
| SchemaTheorems.DropColumnEffect | src/reldb/database.cpp:299-407 | In every run, DROP COLUMN is accepted exactly for a column that exists and is not the key, with no transaction open. Then the columns and every row lose exactly that place, the cells behind it move one forward, and nothing else changes. |
| SchemaTheorems.CreateTableEffect | src/reldb/database.cpp:157-168 | In every run, CREATE is accepted exactly for a valid schema of a new name with no transaction open; the table is then empty and every other read is as before. |
| SchemaTheorems.DropTableEffect | src/reldb/database.cpp:170-188 | In every run, DROP is accepted exactly for a table that exists with no transaction open; its rows are then gone and every other read is as before. |
| SchemaTheorems.RunCatalog | src/reldb/database.cpp:157-407 | Every table of every state of every run has a valid schema. |
| Values.ValidRowHasPk | src/reldb/row.cpp:148-157 | A row that passes validation always has a primary key. |
| Values.OnePk | src/reldb/schema.cpp:17-72 | A schema counts one primary key if and only if one column and no other is marked, and the index finds that column. |
| Values.AddColumnKeepsPk | src/reldb/database.cpp:190-297 | Appending a column and its default keeps a row valid and its key the same. |
| Values.DropColumnKeepsPk | src/reldb/database.cpp:299-407 | Removing a column that is not the key keeps a row valid and its key the same, though its index may move. |
| Engine.Database.Open | src/reldb/database.cpp:109-121 | From any durable contents, opening issues exactly the recovery puts and ends in a valid database with no open transaction. |
| Engine.Database.InitOracles | src/reldb/database.cpp:123-143 | Absent or zero counters become 1 and are written back. |
| Engine.Database.PersistOracles | src/reldb/database.cpp:145-155 | The three counters go out in order. |
| Engine.Database.Begin | src/reldb/database.cpp:474-495 | Refused during a schema change; else the handle, its snapshot and the puts are those of the protocol, and the database stays valid. |
| Engine.Database.RestoreHead | src/reldb/database.cpp:497-514 | One write is taken back only if it is still the head. |
| Engine.Database.RestoreHeads | src/reldb/database.cpp:497-514 | The reverse loop issues exactly the puts of the specification and stops at the same error. |
| Engine.Database.StampWrite | src/reldb/database.cpp:526-559 | One write: predecessor closed, then stamped, or nothing if that was done before. |
| Engine.Database.ApplyCommitWrites | src/reldb/database.cpp:526-559 | The loop over the write list does the same as the specification, also when repeated. |
| Engine.Database.RecoverTxn | src/reldb/database.cpp:561-596 | An intent is redone, an open transaction rolled back, a finished one left alone. |
| Engine.Database.RecoverTxns | src/reldb/database.cpp:561-596 | The loop over all ids issues exactly the recovery puts. |
| Engine.Database.CommitTransaction | src/reldb/database.cpp:598-665 | Status, puts and remaining live transactions are those of the protocol; a valid database stays valid. |
| Engine.Database.CheckWrites | src/reldb/database.cpp:602-637 | The re-check loop answers as the specification of the two conflict tests. |
| Engine.Database.AbortTransaction | src/reldb/database.cpp:667-677 | Heads restored, Aborted recorded, handle finished; repeating it does nothing. |
| Engine.Database.GetRow | src/reldb/mvcc.cpp:157-203 | The pointer walk ends and returns what the recursive reading of the chain gives. |
| Engine.Database.CheckChain | src/reldb/txn.cpp:89-109 | The walk loop ends and answers as the recursive walk over the chain. |
| Engine.Database.CheckInstall | src/reldb/txn.cpp:64-133 | The decision to install, and on top of which version, or the error. |
| Engine.Database.CreateTable | src/reldb/database.cpp:157-168 | Outcome and puts of CREATE; a valid database stays valid. |
| Engine.Database.CollectHeads | src/reldb/txn.cpp:275-307 | The row keys of a table, each once, in the order of their encoding. |
| Engine.Database.DropTable | src/reldb/database.cpp:170-188 | Refused while transactions are open; else erases exactly the collected keys. |
| Engine.Database.RewriteRow | src/reldb/database.cpp:239-291 | One key of ALTER: a new version of the new shape chained on the newest committed one; its cells are what `SchemaTheorems.AddColumnEffect` and `DropColumnEffect` say. |
| Engine.Database.AlteredCells | src/reldb/database.cpp:381-386 | The loop that copies all cells but the dropped one gives the row without that place. |
| Engine.Database.RewriteRows | src/reldb/database.cpp:190-407 | The loop over all keys is the specification's rewrite, with the same version ids. |
| Engine.Database.AlterTable | src/reldb/database.cpp:190-407 | Rewrite, counters, then schema, in that order, or the first error. |
| Engine.Database.AlterTableAddColumn | src/reldb/database.cpp:190-297 | All refusals of ADD COLUMN, else the whole alteration: on a valid database the next transaction reads each row with the default behind its old cells, and the database stays valid. |
| Engine.Database.AlterTableDropColumn | src/reldb/database.cpp:299-407 | The same for DROP COLUMN, with exactly that cell gone. |
| Engine.Transaction.Overwrite | src/reldb/txn.cpp:41-62 | A second write of a key goes into the same provisional version, or is refused; `WriteTheorems.WriteEffect` says what is read then. |
| Engine.Transaction.InstallVersion | src/reldb/txn.cpp:135-166 | Counter, version, head and record, in that order, and the write is listed. |
| Engine.Transaction.Write | src/reldb/txn.cpp:34-168 | Status, puts and write list follow the plan for any operation and key. |
| Engine.Transaction.WriteAction | src/reldb/txn.cpp:170-194 | Insert, Update and Delete with their schema checks: on a valid database the answer and every later read are those of `WriteTheorems.WriteMeans`, and the database stays valid. |
| Engine.Transaction.Get | src/reldb/txn.cpp:196-208 | The own last write or the latest version committed by the snapshot. |
| Tables.TableGetNewest | src/memtable.cpp:18-47 | Seeking the lookup key in one table finds the newest visible entry of the user, if there is any. |
| Tables.StackGetNewest | src/version.cpp:116-136 | Stopping at the first layer with a hit finds the newest visible entry of all layers. |
| LsmProof.WriteKeeps | src/db.cpp:115-137 | A write keeps the layering and changes the answer for its key alone. |
| LsmProof.RotateKeeps | src/db.cpp:180-202 | Rotation keeps the layering and every answer at every snapshot. |
| LsmProof.PublishKeeps | src/db.cpp:238-258 | Publishing the flushed file keeps them, with the memtable in two layers. |
| LsmProof.DropImmKeeps | src/db.cpp:259-264 | So does dropping the immutable memtable. |
| LsmProof.InsertSorted | src/memtable.cpp:9-16 | Insertion keeps internal-key order. |
| CompactionProof.LeftOutApart | src/version.cpp:110-114 | A level-1 file left out of the inputs lies wholly to one side of all of them. |
| CompactionProof.OutputBeside | src/compaction.cpp:39-49 | The output file touches no level-1 file that was left out. |
| CompactionProof.CompactL1Ok | src/compaction.cpp:18-76 | Level 1 stays sorted and pairwise disjoint in user keys. |
| CompactionProof.NewestSurvives | src/compaction.cpp:57-76 | Of every entry in the files there is one at least as new of its user key afterwards, and nothing is there afterwards that was not there before. |
| CompactionProof.CompactKeeps | src/db.cpp:266-294 | Compaction keeps the invariant and every answer at the last sequence. |
| LsmRefinement.EngineIsMap | src/db.cpp:115-294 | In every state of every run of Put, Delete, rotate, publish, drop and compact, a read at the last sequence is a lookup in the map of the writes. |
| LsmRefinement.SnapshotSurvives | src/compaction.cpp:68-74 | A read at an older snapshot survives compaction if and only if what it saw was not superseded in the inputs, or nothing was seen. |
| LsmRefinement.SnapshotLost | src/compaction.cpp:68-74 | Two puts and a flush lead to a file whose compaction loses what snapshot 1 could read. |
| Merging.FindSmallest | src/compaction.cpp:59-65 | The least key at the heads of all inputs, the first input on ties, or none when all are exhausted. |
| Merging.MergeNewest | src/compaction.cpp:57-76 | The output is strictly ascending with one entry per user key, the newest, and misses no user key of the inputs. |
| DbIteration.DbIterator.MergeNext | src/db_iter.cpp:158-197 | The merging iterator moves to the next entry of all children in order. |
| DbIteration.DbIterator.Advance | src/db_iter.cpp:262-305 | It stops at the next live user key with the value visible at the snapshot, having passed dead ones only. |
| DbIteration.DbIterator.SeekToFirst | src/db_iter.cpp:226-229 | The first live user key. |
| DbIteration.DbIterator.Seek | src/db_iter.cpp:231-236 | The first live user key at or above the target. |
| DbIteration.DbIterator.Next | src/db_iter.cpp:238-240 | The next live user key after the current one. |
| DbIteration.DbIterator.Drain | src/db_iter.cpp:226-305 | Iteration lists, strictly ascending, exactly the live user keys with their values. |
| LsmDb.DbImpl.MakeRoomForWrite | src/db.cpp:180-202 | Rotates when the memtable is full, and only then. |
| LsmDb.DbImpl.Write | src/db.cpp:115-137 | The state is the engine's step, the log grows by the frame of the write, and every later read at the last sequence sees the write and nothing else changed. |
| LsmDb.DbImpl.LogRestoresMem | src/db.cpp:115-131 | At any time, recovering the current log gives the current memtable, and with the first write in it the last sequence. |
| LsmDb.DbImpl.Get | src/db.cpp:147-178 | The walk over memtable, immutable memtable, level 0 newest first and level 1 answers as the engine. |
| LsmDb.LevelGet | src/version.cpp:116-136 | Skipping files whose range excludes the key loses nothing. |
| LsmDb.DbImpl.PublishFlush | src/db.cpp:238-258 | First half of a flush; every read as before. |
| LsmDb.DbImpl.FinishFlush | src/db.cpp:259-264 | Second half; every read as before. |
| LsmDb.RangeOfL0 | src/compaction.cpp:18-32 | The loop yields the user-key range of all level-0 files. |
| LsmDb.PickOverlapping | src/compaction.cpp:39-49 | Exactly the level-1 files that meet the range. |
| LsmDb.EraseNumbers | src/version.cpp:179-195 | Deleting by file number leaves exactly the files that were not inputs. |
| LsmDb.MergeInputs | src/compaction.cpp:57-76 | The merge of the picked files is a compaction output. |
| LsmDb.DbImpl.CompactIfNeeded | src/db.cpp:266-294 | Runs at the level-0 trigger only; the state is the engine's compaction step and every current read is as before. |
| LsmDb.DbImpl.NewIterator | src/db_iter.cpp:323-340 | The iterator starts over the captured layers. |
| LsmDb.LiveIsGet | src/db_iter.cpp:262-305 | A key is live for the iterator if and only if Get finds it, with the same value, at any snapshot, also between the halves of a flush. |
| SkipList.SkipList.FindGreaterOrEqual | include/lsmkv/skiplist.h:176-189 | The descent ends at the first node not before the key, with the last node before it on every level. |
| SkipList.SkipList.Insert | include/lsmkv/skiplist.h:40-59 | For whatever height is drawn the contents become the sorted insertion, an equal key is replaced, and every level stays the sublist of the nodes tall enough. |
| SkipList.SkipList.Link | include/lsmkv/skiplist.h:54-57 | The splice loop redirects exactly one link per level and the new node takes those over. |
| SkipList.SpliceLinks | include/lsmkv/skiplist.h:40-59 | Splicing behind the last taller node of each level keeps every link leading to the next node of its level. |
| SkipList.SkipList.RandomHeight | include/lsmkv/skiplist.h:161-171 | The height is between 1 and 12. |
| SkipList.SkipList.Find | include/lsmkv/skiplist.h:68-74 | The least entry not before the key, or none. |
| SkipList.Iterator.Seek | include/lsmkv/skiplist.h:123-126 | The cursor stands at the linear-search position. |
| SkipList.Iterator.Next | include/lsmkv/skiplist.h:113-116 | The cursor moves one position. |
| SkipList.Walk | include/lsmkv/skiplist.h:137-142 | Walking the lowest level gives the contents in order. |
| SkipList.MemTable.Add | src/memtable.cpp:9-16 | The memtable is the sorted insertion of the entry. |
| SkipList.MemTable.Get | src/memtable.cpp:18-47 | Found if and only if the sorted table has a visible entry; a deletion is found without a value. |
| InternalKeys.BeforeTotal | src/internal_key.cpp:33-45 | The internal order is total: no two different keys compare equal. |
| InternalKeys.LessMeans | include/lsmkv/slice.h:39-47 | Byte comparison is the lexicographic order: at the first difference the left byte is smaller, or the left string ends there. |
| InternalKeys.LookupPosition | src/internal_key.cpp:47-49 | An entry of the user comes before the lookup key if and only if it is newer than the snapshot. |
| Encoding.EncodeKeyOrder | src/internal_key.cpp:8-45 | Comparing encoded keys is comparing user keys, then sequences and types descending, for sequences below 2^56. |
| Encoding.Fixed32RoundTrip | src/encoding.cpp:7-63 | A 32-bit word reads back and leaves the rest. |
| Encoding.Fixed64RoundTrip | src/encoding.cpp:13-70 | A 64-bit word reads back and leaves the rest. |
| Encoding.Varint32RoundTrip | src/encoding.cpp:19-111 | Every 32-bit value reads back within five groups. |
| Encoding.Varint64RoundTrip | src/encoding.cpp:30-120 | Every 64-bit value reads back within ten groups. |
| Encoding.PutVarint | src/encoding.cpp:19-39 | The pushing loop appends the encoding. |
| Encoding.ReadVarint | src/encoding.cpp:72-102 | The shifting loop decodes the same value and rest, or fails on the same inputs. |
| Encoding.LengthPrefixedRoundTrip | src/encoding.cpp:41-128 | A length-prefixed string reads back and leaves the rest. |
| RowCodec.ValueRoundTrip | src/reldb/row.cpp:28-73 | A cell reads back and leaves the rest. |
| RowCodec.RowRoundTrip | src/reldb/row.cpp:93-125 | A row reads back whole. |
| RowCodec.RowExact | src/reldb/row.cpp:102-125 | The encoding of a row with any bytes missing at the end, or any bytes behind it, is refused. |
| RowCodec.EncodeValueInjective | src/reldb/row.cpp:75-79 | Different cells have different encodings. |
| RowCodec.HexRoundTrip | src/reldb/mvcc.cpp:11-40 | Hex text reads back. |
| RowCodec.PkRoundTrip | src/reldb/mvcc.cpp:108-118 | A key read from its row key is the key, so different keys have different row keys. |
| RowCodec.GroupKeyInjective | src/reldb/executor.cpp:418-426 | Different tuples of grouping cells have different group keys. |
| Crc32.InitTable | src/crc32.cpp:12-22 | Each table entry is the remainder of eight shifts of its index. |
| Crc32.FoldByte | src/crc32.cpp:26-35 | One table step is eight steps of bit-serial division. |
| Crc32.Crc32Extend | src/crc32.cpp:26-35 | The table-driven loop computes the bit-serial checksum of every byte string from any start. |
| Crc32.ExtendConcat | include/lsmkv/crc32.h:16-25 | Continuing over B after A is the checksum of A followed by B. |
| Crc32.MaskInverse | include/lsmkv/crc32.h:40-46 | Unmasking inverts masking on all 32-bit words. |
| Crc32.CheckValue | src/crc32.cpp:12-35 | The checksum of the digits 1 to 9 is 0xCBF43926, the published check value of CRC-32. |
| Crc32.MaskValue | include/lsmkv/crc32.h:40-42 | The masked form of that value, which fixes rotation and offset. |
| Wal.LogRoundTrip | src/wal.cpp:57-77 | Reading a log gives its records and then end of file. |
| Wal.ReadExact | src/wal.cpp:57-77 | A record is accepted if and only if the file begins with its frame: length, checksum of exactly this payload, payload. |
| Wal.CleanLog | src/wal.cpp:57-77 | A file reads cleanly to its end if and only if it is the log of the records read. |
| Wal.CutLog | src/wal.cpp:57-77 | A log cut at any byte gives its whole records, then end of file exactly at a frame boundary and corruption anywhere else. |
| Wal.WalWriter.AddRecord | src/wal.cpp:18-31 | The file becomes the log with one more record. |
| Wal.ReadLog | src/wal.cpp:57-77 | The reading loop gives the records and the final status of the specification. |
| Wal.BatchRoundTrip | src/wal.cpp:86-121 | A write batch decodes to its sequence and entries. |
| Wal.CutBatch | src/wal.cpp:102-121 | A batch cut at any byte is refused. |
| Wal.BatchAdds | include/lsmkv/wal.h:59-60 | Replaying a batch adds entry i under the starting sequence plus i, keeps the memtable sorted, and adds nothing else. |
| Wal.ReplayRebuilds | src/db.cpp:94-111 | Recovering the log of any writes rebuilds the memtable they made and the greatest sequence. |
| Wal.CutLogRecovers | src/db.cpp:87-113 | From a log cut at any byte, recovery succeeds if and only if the cut is at a frame boundary; then it gives the memtable and the greatest sequence of the whole writes, otherwise Corruption. |
| LogRecovery.RecoverLogFile | src/db.cpp:87-113 | The loops over records and entries fill the memtable and raise the last sequence as that function says; a missing log is an empty one, a torn frame or bad batch fails the call. |
| Wal.CrcBounded | include/lsmkv/crc32.h:40-42 | The masked checksum fits the stored word. |
| Manifest.EditRoundTrip | src/version.cpp:30-108 | Every edit decodes to itself. |
| Manifest.DecodeFrom | src/version.cpp:61-108 | The decoding loop gives the same edit or fails on the same bytes as the specification. |
| Manifest.ManifestRoundTrip | src/version.cpp:203-249 | A MANIFEST parses to the edits written. |
| Manifest.CutManifest | src/version.cpp:221-232 | A MANIFEST cut at any byte parses if and only if the cut is at a record boundary, and then to the whole edits. |
| Manifest.UnknownTag | src/version.cpp:61-108 | An edit followed by an unknown tag is refused. |
| Versions.RecoverRebuilds | src/version.cpp:203-249 | After any logged edits, Recover gives the live level 0 in order, the live level 1 and the log number. |
| Versions.AppliedMeans | src/version.cpp:172-195 | What one edit does to both levels, their order and the counters, without its loops. |
| Versions.ReplayedMeans | src/version.cpp:231-242 | The same for an edit replayed by Recover, where every counter is the last one given. |
| Versions.RecoveredFiles | src/version.cpp:203-249 | From any MANIFEST, Recover lists a file in a level if and only if some edit added it there and no later edit deleted its number, with level 1 in key order. |
| Versions.CutRecovers | src/version.cpp:221-232 | From a MANIFEST cut at any byte, Recover gives what the whole records say if and only if the cut is at a record boundary, otherwise Corruption. |
| Versions.CountersAgree | src/version.cpp:172-249 | Recovered counters are the last given and live ones the greatest; they agree if and only if no edit gave more than the last. |
| Versions.CounterFallsBack | src/version.cpp:233-234 | Two edits after which the live file counter is 9 and the recovered one 5. |
| Versions.VersionSetImpl.LogAndApply | src/version.cpp:172-201 | A file is in a level afterwards if and only if it was there and not deleted, or was added; level 0 keeps the survivors in order with the new files behind; level 1 stays in key order; two counters are the greater of old and given and the log number the last given. The file grows by the edit. |
| Blocks.ParseBuilt | src/block.cpp:84-105 | Parsing at the offset of entry i, after entry i-1 or at a restart, gives entry i and the next offset. |
| Blocks.RestartStored | src/block.cpp:49-55 | The r-th stored restart is the offset of the r-th restart entry. |
| BlockIo.BlockBuilder.Add | src/block.cpp:24-47 | The buffer encodes all entries so far, each compressed by the longest prefix shared with the one before, with restarts exactly the interval apart. |
| BlockIo.BlockBuilder.Finish | src/block.cpp:49-55 | The block is entries, restart offsets and their number. |
| BlockIo.BuiltLays | src/block.cpp:24-55 | A finished block is one from which every entry can be parsed and every restart found. |
| BlockIo.BlockIter.ParseNext | src/block.cpp:84-105 | On any bytes: the entry, the end, or corruption; the position never moves back. |
| BlockIo.BlockIter.SeekToFirst | src/block.cpp:112-119 | On a block of a layout, the first entry. |
| BlockIo.BlockIter.Next | src/block.cpp:107-110 | On a block of a layout, the next entry. |
| BlockIo.BlockIter.FindRestart | src/block.cpp:121-135 | The binary search ends at a restart below the target or at the first. |
| BlockIo.BlockIter.Seek | src/block.cpp:121-143 | Lands on the entry a linear search of the whole list would find. |
| Sstable.IndexFinds | src/sstable.cpp:147-182 | The index search picks the block with the first entry not below the target of the whole table; past the index there is none. |
| Sstable.ReadExact | src/sstable.cpp:114-124 | A block is handed out if and only if the file holds it at the handle with the checksum of exactly these contents behind it. |
| SstableBuilder.Builder.Add | src/sstable.cpp:57-77 | What has been added is the flushed blocks and the open one, with the index state they imply; a block is closed exactly when its encoded size reaches the block size. |
| SstableBuilder.Builder.WriteBlock | src/sstable.cpp:28-43 | Contents and checksum at the end of the file; the handle covers the contents alone. |
| SstableBuilder.Builder.FlushDataBlock | src/sstable.cpp:45-55 | Flushing changes neither the entries nor their order; an empty block is not written, any other becomes one block with its index entry held back. |
| SstableBuilder.Builder.Finish | src/sstable.cpp:79-110 | The file is a table whose blocks hold exactly the entries added, with the first and last key reported. |
| SstableReader.SSTable.Open | src/sstable.cpp:126-145 | A built file opens with its index handle; a file is refused, as Corruption, if and only if it is shorter than the footer or the magic differs. |
| SstableReader.SSTable.Get | src/sstable.cpp:147-181 | Two-level search answers as a linear search of all entries, tombstones included. |
| SstableReader.TableIter.SeekToFirst | src/sstable.cpp:237-242 | On any file the cursors stay in range; on a built table, the first entry. |
| SstableReader.TableIter.Next | src/sstable.cpp:226-235 | On any file the cursors stay in range; on a built table, the next entry, across block boundaries. |
| SstableReader.TableIter.Seek | src/sstable.cpp:244-249 | On any file the cursors stay in range; on a built table of ascending keys, the first entry not below the target, across blocks. |
| SstableReader.ReadAll | src/sstable.cpp:226-242 | Iteration returns exactly the entries of the table in order. |
| TableFiles.LookupIsTableGet | src/sstable.cpp:147-181 | The lookup of the encoded key in the encoded entries answers as the engine's lookup in the sorted table, for sequences below 2^56. |
| TableFiles.BuildTable | src/sstable.cpp:251-262 | The file built from a memtable is a table of exactly its entries in order. |
| TableFiles.FileGet | src/version.cpp:126-132 | Reading a file of a sorted table at a snapshot reports the engine's answer: a value, a tombstone, or nothing. |
| Formats.BatchExample | include/lsmkv/wal.h:62-66 | The documented example of a write batch, byte by byte. |
| Formats.FrameExample | include/lsmkv/wal.h:21-30 | A log frame: length, checksum, payload, low byte first. |
| Formats.RowExample | src/reldb/row.cpp:28-100 | A row with a cell of every type. |
| Formats.KeyExample | src/internal_key.cpp:8-14 | An internal key: user key, then sequence and type in eight bytes. |
| Formats.EditExample | src/version.cpp:12-59 | An edit with a field of every tag. |
| Formats.FooterExample | src/sstable.cpp:93-97 | A table footer with its magic number. |
| Formats.EntryExample | src/block.cpp:24-46 | A block entry that shares part of its key. |
| Expressions.EqualIsSame | src/reldb/expr.cpp:247-286 | Two values of one type compare equal if and only if they are the same. |
| Expressions.CompareMeans | src/reldb/expr.cpp:247-286 | A comparison is unknown with NULL, an error across types, and otherwise the relation it names: of numbers, of byte strings in lexicographic order, of false below true. |
| Expressions.LogicMeans | src/reldb/expr.cpp:296-358 | The three-valued tables: on the scale false, unknown, true, AND is the least of its operands, OR the greatest and NOT turns the scale round; an operand that fails or is no truth value makes the whole fail, and nothing else does. |
| Expressions.WhereMeans | src/reldb/expr.cpp:230-245 | A WHERE condition keeps a row if and only if it evaluates to true; AND keeps it if and only if both sides do. |
| Expressions.BindsMeans | src/reldb/expr.cpp:127-151 | Binding succeeds if and only if every column mentioned is one of the table. |
| Expressions.DeMorgan | src/reldb/expr.cpp:296-358 | AND and OR are dual under NOT for every operand, NULL and errors included. |
| Plans.TableRowScan.Advance | src/reldb/txn.cpp:232-273 | The cursor stops at the next key with a row at the snapshot; what is ahead is the rest of the visible rows. |
| Plans.SeqScanExecutor.Next | src/reldb/executor.cpp:106-122 | The next visible row, or the end, or an error; none is skipped by reading ahead. |
| Plans.FilterExecutor.Next | src/reldb/executor.cpp:223-241 | The next row that satisfies the condition. |
| Plans.CollectScan | src/reldb/executor.cpp:79-91 | All rows of the scan in order, or its error. |
| Plans.CollectFilter | src/reldb/executor.cpp:79-91 | All rows that satisfy the condition in order, or the error of the first that cannot be evaluated. |
| PlanTheorems.FilterMeans | src/reldb/executor.cpp:223-241 | The filter fails if and only if the condition fails on some row, and otherwise yields, in order, exactly the rows on which it is true. |
| PlanTheorems.ScanMeans | src/reldb/txn.cpp:232-273 | The scan fails if and only if some read fails, and otherwise yields one row for each key that has one, in the order of the keys. |
| Plans.PkPointGetExecutor.Open | src/reldb/executor.cpp:136-146 | The row at the snapshot; that there is none is no error. |
| Plans.CollectPoint | src/reldb/executor.cpp:79-91 | That row once, or nothing. |
| PlanTheorems.PointGetPlan | src/reldb/sql_session.cpp:19-33 | In every state of every run and for both operand orders, the point lookup equals the filtered scan if and only if the literal has the key's type or no row is visible; otherwise the filter fails and the lookup finds nothing. |
| PlanTheorems.EqualityOnRow | src/reldb/expr.cpp:202-294 | On a row stored under a key, the condition compares that key with the literal or fails on its type. |
| PlanTheorems.ScanSeesSnapshot | src/reldb/txn.cpp:232-307 | Whatever others do while a scan is open, each key reads as it did at the start, and a key without a head then has no row later. |
| PlanTheorems.SpreadScan | src/reldb/txn.cpp:232-307 | A scan spread over many states of a run returns what it would return in the first. |
| PlanTheorems.ScanInKeyOrder | src/reldb/txn.cpp:232-307 | A scan yields its rows in the order of their encoded keys. |
| Select.Run | src/reldb/sql_session.cpp:304-347 | Each condition gets its access path, an unknown column is refused, and the result is that path's. |
| Select.ChooseMeans | src/reldb/sql_session.cpp:19-90 | A lookup is chosen exactly for pk = v, a range exactly for pk >= v and pk < v, each also with the sides exchanged, and the filtered scan for every other condition. |
| Select.FlipMeans | src/reldb/sql_session.cpp:61-71 | Turning a comparison round keeps what it says for all values. |
| RangeScans.RangePlanUnsound | src/reldb/sql_session.cpp:75-89 | For every integer bound there is a key on which `pk >= c` and its key range disagree, and the same for `pk < c`. |
| RangeScans.StringRangeUnsound | src/reldb/sql_session.cpp:75-89 | Two zero bytes are below the byte 1, but not in its key range. |
| RangeScans.RangeExactIff | src/reldb/sql_session.cpp:75-89 | The key range of `pk >= c`, and of `pk < c`, is the comparison on all keys of the type if and only if c is a boolean, the empty string or the single zero byte. |
| PlanSoundness.RangePlan | src/reldb/sql_session.cpp:322-336 | In every state of every run an exact bound of the key's type gives the rows of the filtered scan; a literal of another type does only where no row is visible. |
| PlanSoundness.AccessPathExact | src/reldb/sql_session.cpp:304-347 | For every valid table and condition, the chosen path returns what the filtered scan would in all states of all runs and for all contents of the table, if and only if a point lookup has the key's type and a range an exact bound of it. |
| PlanSoundness.WrongTypeInput | src/reldb/sql_session.cpp:314-319 | A run and the condition `i = 'x'` on an integer key: the filter refuses, the lookup finds nothing. |
| PlanSoundness.IntegerRangeInput | src/reldb/sql_session.cpp:322-336 | A run and the condition `i >= 0` with the key -1: the range returns the row, the filter does not. |
| RangeScans.KeyOrder | src/reldb/mvcc.cpp:108-110 | Integer row keys order as their low-byte-first bytes. |
| Aggregates.AddChecked | src/reldb/executor.cpp:407-415 | Refuses if and only if the exact sum leaves the 64-bit range. |
| Aggregates.FoldMeans | src/reldb/executor.cpp:441-488 | The accumulator fails exactly where the aggregate is undefined: an argument of the wrong type or position, or a running total outside 64 bits. |
| Aggregates.FinalizeMeans | src/reldb/executor.cpp:490-528 | Otherwise the final value is the count, sum, minimum or maximum of the group, or the average q rounded toward zero: the sum misses q times the count by less than the count, on the side of zero. |
| HashAggregate.GroupsPartition | src/reldb/executor.cpp:579-607 | Each group is listed once, and exactly the groups that have rows. |
| HashAggregate.GroupsInOrder | src/reldb/executor.cpp:579-607 | The list follows the order of first appearance. |
| HashAggregate.KeyFinds | src/reldb/executor.cpp:592-601 | Looking up an encoded key finds the group of those cells and no other. |
| HashAggregate.TakeRow | src/reldb/executor.cpp:579-607 | One row changes its own group alone, and a failure means that aggregate is undefined on the whole input. |
| HashAggregate.HashAggregate | src/reldb/executor.cpp:539-644 | One row per group in order of first appearance, each aggregate over exactly its rows; one row for no input without grouping; an error if and only if a specification is malformed, a grouping column is missing or an aggregate is undefined. |

## Left out

- Servers, command line, shell, SQL lexer and parser, result formatting, AST printing: input and output only.
- Threads, mutexes and condition variables: critical sections are single steps, waiting is a precondition, and a background error never occurs.
- I/O faults, fsync and test hooks: every put and file write succeeds; a crash keeps a prefix of the puts.
- Durability of the key-value engine across reopening, and a crash between rotation and flush: the code does not keep it.
- Crashes inside CREATE, DROP and ALTER: the code does not promise an outcome.
- Wrap-around of the 64-bit timestamps, ids, sequence numbers and row counts: counters are unbounded; `HashAggregate.HashAggregate` takes fewer than 2^63 rows.
- Byte encodings of version records, transaction records and table schemas: the relational layer stores them as values; rows and keys have their codecs in `RowCodec`.
- Table names with a slash: a head key is a table and a primary key.
- Memtable entries are held decoded; `TableFiles` carries them over to bytes.
- SnapshotIsolation.RunInv: a crash right after the Committed record, in a commit or in recovery, is not an event of a run, because two commits may then share a timestamp; this goes for every statement about runs. `CrashAnywhere` says what such a crash leaves.
- LiveTxns.CommitSafe: the same put is exempt; `CrashAnywhere.EveryCrashAtomic` covers it.
- CrashAtomicity.CrashIsAtomic: the same; it is the part of `CrashAnywhere.EveryCrashAtomic` in which the clock is kept.
- LsmDb.DbImpl.Write: the memory estimate of an entry is a parameter.
- LsmDb.DbImpl.CompactIfNeeded: tables are lists of entries; opening the input files and writing the output file are in `SstableReader` and `SstableBuilder`.
- SkipList.SkipList.Insert: sequential behaviour only, and the order of entries is fixed to internal keys instead of any comparator.
- SstableReader.TableIter.SeekToFirst: on a file that is not a built table only the ranges of the cursors are stated, not which entries are read.
- SstableBuilder.Builder.Finish: promises a readable table for files below 4 GiB and keys and values whose lengths fit 32 bits, which is what the format can store.
- HashAggregate.HashAggregate: promises the grouping for strings whose encoded length fits 32 bits; the output column names are not modelled.
- Plans.FilterExecutor.Next: says nothing when the scan itself fails, which no state of a run lets happen.
- Plans.CollectFilter: the same.
- Expressions.DeMorgan: columns are looked up by name; the bound index is the same lookup done earlier.
- Select.Run: a range plan returns the rows whose encoded key lies in the encoded range.
- PlanSoundness.AccessPathExact: for literals and keys whose encoded length fits 32 bits, which is what the format can store.
- Project, Sort and Limit work on the rows another operator yields, joins are parsed and never executed, HAVING filters groups and name binding resolves qualified columns: nothing here rests on them.
