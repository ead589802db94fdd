# RucDDBS: transactions, log, storage and timestamps

A Dafny model of the parts of RucDDBS in which a mistake would lose or mix data, with proofs of what they
keep. `dafny verify dfyconfig.toml` checks everything.

**Transactions.** `LockQueue` holds the lock modes, one request queue and its small steps; `LockManager` the
lock table and the lock manager as a class; `Cluster` the whole system as a state machine: any number of nodes
with lock tables and stores, participants, coordinators, and a network in which a message once sent may be
delivered never, late or repeatedly. `AtomicCommit`, `LockSafety`, `ConflictOrder` and `Serializability` prove
properties of every run of that machine, and `Completions` that every run can be brought to its end; `Participant`
is the code of one node in place, `HandlerRuns` shows its handlers to be runs of the machine, and `Histories` is the
theory of histories and rollback lists that both use. `LossExamples` is the smallest run that is not serializable.

**Log and recovery.** `LogRecords` is the binary format, `LogManagers` the double-buffered log with its flush
thread, `Recoveries` redo and undo as functions of the log, `RecoveryManagers` the code that computes them.
`LogChain` is the chain of previous LSNs. `NodeLogs` says what one node logs, and `NodeRecovery` joins the two
halves: the log that each node writes in a run of the cluster, and what recovering that node from it gives.
`CommittedRecovery` compares that with what the committed transactions of the whole system leave, and
`PreparedExamples` is a run that recovery gets wrong.

**Storage.** `SortedEntries` is the abstract value of a memtable or table. `Towers` and `SkipLists` are the skip
list as a pointer structure edited in place. `Encoding`, `Blocks`, `Tables`, `LevelZeros` and `KvStoreBeta` go from
bytes to blocks, table files, the list of tables and the store over them.

**Timestamps.** `Oracles` is the timestamp oracle with its 64-bit and 32-bit arithmetic.

Code that changes objects is modelled by classes whose methods are proved against functions of the old state;
the theorems are about those functions. Mutexes make a critical section one step; in the state machines every
interleaving of such steps is a run.

## What turned out false of the code, and exactly when it holds

- The rollback list does not keep overwritten values. So rolling back restores every key if and only if the
  transaction never overwrote a key that it had not written before (`Participant.RollbackIsExact`), in one node's
  code and in every run of the cluster (`Serializability.RollbackRestoresFirstValue`). A run is serializable on
  values, in all its states, if and only if no aborted participant ever unlocks a row in which its first write to
  some key was a put over a value (`Serializability.SerializableIff`); `LossExamples.OverwriteLosesValue` is a run
  that is not. Overwriting by transactions that commit does no harm, and the conflict order needs no condition.
- Recovery undoes an insert by removing the key and a delete by writing the key in place of the value; and its log
  reader does not know PREPARED records. Redo files each under the invalid transaction 0, and a walk of undo that
  comes to one ends there. So undo takes back the records of an open transaction behind its last PREPARED record, if it
  has any there, and all of them otherwise (`Recoveries.ReachedIff`). The log of a strict two-phase run is recovered
  exactly if and only if what is left under each key is what its first open writer met (`Recoveries.RecoveryIsExactIff`);
  unless an open transaction has logged a write behind its PREPARED record, that is if and only if its first write to
  each key was an insert where nothing was, or a delete of a value that is the key itself
  (`NodeRecovery.NodeRecovery`, for every run of the cluster). `PreparedExamples.AbortedWritesSurvive` is a run in
  which every first write was such an insert, yet recovery keeps an aborted write and brings a key back, because
  the node crashed while it rolled a prepared transaction back.
- A transaction that has been decided but whose COMMIT has not reached the node is open there, and recovery takes its
  writes back too; when a recovered node still holds what the committed transactions leave is
  `CommittedRecovery.RecoversCommittedIff`. A crash in the middle of the undo does no harm (`Recoveries.CrashInUndo`). A
  second recovery after a complete one leaves the same store if and only if every key whose first undone record is a
  delete has itself as deleted value (`Recoveries.RecoveryIsStableIff`); `Recoveries.SecondRecoveryExample` is where not.
- The store over table files searches the oldest table first, and deletes only the memtable copy of a key. Each
  request has its exact condition (`KvStoreBeta.ServedAsMapIff`), and so has every run
  (`KvStoreBeta.StoreIsMapIff`); stale and revived values are shown by example.
- The check of the oracle's clock at a start subtracts unsigned numbers and so detects equality only
  (`Oracles.SyncIsMonotoneIff`). Its test whether to save compares the low 32 bits of the lead over the loaded value:
  an update is saved if and only if they are at most 2^31, or all ones (`Oracles.SavesIff`), so saving stops and
  resumes as the lead grows. The saved value is above the physical part in every state from the start on if and only
  if that test is met at every update (`Oracles.SavedAheadIff`). For the order of timestamps across restarts, by any
  clock that is not behind the saved value, less is needed and enough: that the saved value is never behind the physical
  part (`Oracles.OrderedAcrossRestartsIff`). `Oracles.UnsavedExample` is a run that issues a timestamp twice.
- The wait in `Flush` ends, with nothing more appended, if and only if the record is reported already or the flush
  thread has something left to do (`LogManagers.FlushEndsIff`). For a record of a log file that has just been opened it
  never does (`LogManagers.FlushInVain`).
- Before `SeekToLast` and `Seek` of a block read their first entry they assert that there is one, which holds if and
  only if the block is not empty (`Blocks.LastRestartIff`). In the default build, which leaves assertions out
  (CMakeLists.txt:13-14), they read a key from the trailer of an empty block and still end past its entries
  (`Blocks.BlockIterator.Seek`).

## Model

| member | source | states |
|---|---|---|
| LockQueue.UpgradeIffMoreConflicts | src/transaction/Lock_manager.cpp:47-76 | an upgrade is permitted if and only if it strictly enlarges the set of modes that others cannot be granted |
| LockQueue.HoldersAreCompatible | src/transaction/Lock_manager.cpp:149-157 | granted requests of two transactions on one item are compatible |
| LockQueue.StepKeepsQueueInv | src/transaction/Lock_manager.cpp:78-157 | each step of a waiting lock call keeps the queue invariant, with the granted flag cleared during an upgrade |
| LockQueue.EveryQueueRunIsSafe | src/transaction/Lock_manager.cpp:78-235 | in every run of such steps, in both modes, holders are pairwise compatible and no transaction has two requests |
| LockQueue.LockCallKeepsQueueInv | src/transaction/Lock_manager.cpp:184-227 | a whole no-wait lock call keeps the queue invariant, also when it fails and leaves its request behind |
| LockQueue.LockCallGrants | src/transaction/Lock_manager.cpp:78-147 | a successful lock call (exactly when is `LockCallSucceedsIff`) leaves the caller with exactly the mode asked for, never weaker than before; a refused one leaves it what it had or, after a failed upgrade, nothing; nobody else's grant changes |
| LockQueue.CompatibleIff | src/transaction/Lock_manager.cpp:8-45 | two modes go together unless one writes everything, or one reads everything and the other writes in it |
| LockQueue.LockCallSucceedsIff | src/transaction/Lock_manager.cpp:78-227 | a no-wait lock call succeeds if and only if whatever others hold is compatible with the mode and the caller has no request, one in this mode, or one that may be upgraded while no upgrade is pending; and what request and flag it leaves in each case |
| LockQueue.NewcomerAndHolder | src/transaction/Lock_manager.cpp:78-227 | a transaction without a request succeeds if and only if every holder is compatible; a holder, unless an upgrade is pending, if and only if it has the mode or may upgrade and every other holder is compatible |
| LockQueue.GrantIff | src/transaction/Lock_manager.cpp:191-207 | a waiting request may be granted if and only if whatever others hold is compatible with it |
| LockQueue.LockCallIsSteps | src/transaction/Lock_manager.cpp:78-227 | the no-wait call is the waiting one with one look at the queue in place of the wait |
| LockQueue.UnlockCallGrants | src/transaction/Lock_manager.cpp:436-467 | an unlock call takes away the caller's granted request and nobody else's |
| LockQueue.UnlockCallLeaves | src/transaction/Lock_manager.cpp:447-465 | an unlock call takes out a granted request and leaves every other request, and the upgrading flag |
| LockManager.LockOnSucceedsIff | src/transaction/Lock_manager.cpp:159-391 | a lock call succeeds if and only if the transaction may still grow, the mode is one for the item, and the same holds of the item's queue; only then is the item added to its lock set |
| LockManager.GrowingSucceedsIff | src/transaction/Lock_manager.cpp:159-391 | of a transaction that may still grow: a newcomer to the item succeeds if and only if every holder is compatible; a holder if and only if it has the mode or may upgrade and every other holder is compatible |
| LockManager.UnlockEndsGrowth | src/transaction/Lock_manager.cpp:443-465 | after an unlock call the transaction may lock again only if it had never locked and yet held the item |
| LockManager.NoLockAfterUnlock | src/transaction/Lock_manager.cpp:314-467 | two-phase rule: whatever others do in between, once a transaction has unlocked an item, every later lock call of it refuses |
| LockManager.LockOnEffect | src/transaction/Lock_manager.cpp:314-391 | a lock call keeps the table invariant, succeeds only in the growing phase (exactly when is `LockOnSucceedsIff`), aborts the caller when it fails, and changes no other transaction's or item's holdings |
| LockManager.LockOnKeepsCover | src/transaction/Lock_manager.cpp:314-391 | after a lock call every granted request is in its owner's lock sets, and a non-aborted owner's entries are backed by a request at least as strong |
| LockManager.LockOnKeepsInStep | src/transaction/Lock_manager.cpp:314-391 | what commit and abort rely on, cover and the kind of every lock-set entry, is kept by any lock call, also one that aborts |
| LockManager.UnlockOnEffect | src/transaction/Lock_manager.cpp:393-467 | an unlock call keeps the table invariant and changes only the caller's holding of the item |
| LockManager.UnlockOnKeepsCover | src/transaction/Lock_manager.cpp:393-467 | the lock sets still cover the lock table after an unlock call |
| LockManager.UnlockOnKeepsInStep | src/transaction/Lock_manager.cpp:393-467 | it is kept by any unlock call |
| LockManager.OthersStayInStep | src/transaction/Lock_manager.cpp:314-467 | neither call takes another transaction out of step |
| LockManager.Manager.CheckQueueCompatible | src/transaction/Lock_manager.cpp:149-157 | the scan answers whether the request is compatible with every other granted one |
| LockManager.Manager.CheckSameTxnLockRequest | src/transaction/Lock_manager.cpp:78-147 | the in-place search for an own request, with re-grant, upgrade and each abort reason |
| LockManager.Manager.Acquire | src/transaction/Lock_manager.cpp:176-227 | the in-place rest of a lock call: exactly what `LockCallSucceedsIff` says, in the lock map, the lock sets, the state and the answer |
| LockManager.Manager.Lock | src/transaction/Lock_manager.cpp:314-391 | the whole call on the object, with the state checks of tables, partitions and rows, does what the table function says, so it succeeds exactly as `LockOnSucceedsIff` says |
| LockManager.Manager.Unlock | src/transaction/Lock_manager.cpp:393-467 | the whole unlock on the object does what the table function says |
| LockManager.Manager.ReleaseSet | src/transaction/transaction_manager.cpp:42-48 | one of the release loops terminates and empties its set |
| LockManager.Manager.ReleaseLocks | src/transaction/transaction_manager.cpp:42-129 | after the twelve loops the transaction holds nothing anywhere, its sets are empty, and the others hold what they held |
| LockManager.EveryLockSetIsReleased | include/transaction/Transaction.h:152-268 | the twelve loops cover every lock set that a lock call can fill |
| LockSafety.LockInvKept | src/transaction/transaction_manager.cpp:42-129 | every action of the cluster keeps the lock tables safe, covered by the lock sets, and free of locks of ended transactions |
| AtomicCommit.CommitInvKept | src/transaction/transaction_manager.cpp:318-428 | every action keeps the two-phase commit invariant |
| AtomicCommit.CommitInvHolds | src/transaction/transaction_manager.cpp:318-428 | the invariant holds in every state of every run |
| AtomicCommit.Decide | src/transaction/transaction_manager.cpp:364-398 | the coordinator's loop over the replies decides commit exactly when all are yes, and what it decides is an allowed step |
| AtomicCommit.AtomicCommitment | src/transaction/transaction_manager.cpp:318-428 | in every run no node logs COMMIT while another logs ABORT, COMMIT comes after PREPARED of every participant, and each node logs at most one outcome (that outcomes are reached is `Completions`) |
| Completions.SystemInvHolds | src/transaction/transaction_manager.cpp:318-428 | in every state of every run each coordinator has sent every participant the message of its phase, and every participant that has ended has logged its outcome |
| Completions.DecidedCommits | src/transaction/transaction_manager.cpp:399-424 | from every state in which the coordinator has decided to commit, what has been sent lets every participant log COMMIT, end and hold nothing |
| Completions.VotedCommits | src/transaction/transaction_manager.cpp:364-424 | once every participant has said yes, a path leads through the decision to the same end |
| Completions.WorkCommits | src/transaction/transaction_manager.cpp:318-424 | a distributed transaction whose participants run and have not aborted can be asked, voted on, decided and committed everywhere |
| Completions.LocalCommits | src/transaction/transaction_manager.cpp:267-315 | a local one commits by the one message that it is sent |
| Completions.GivenUpEnds | src/transaction/transaction_manager.cpp:229-265 | until commit is decided, the coordinator can abort, and every participant that has not logged COMMIT rolls back, logs ABORT, ends and holds nothing |
| Completions.RefusedEnds | src/transaction/transaction_manager.cpp:229-265 | from every state after an abort decision every participant can come to that end |
| Completions.CanEndIff | src/transaction/transaction_manager.cpp:229-424 | in every state of every run, a started transaction can still be committed everywhere if and only if nobody has aborted and the coordinator has not given up without having sent COMMIT; and aborted everywhere if and only if commit is not decided and nobody has committed |
| Completions.NeverStuck | src/transaction/transaction_manager.cpp:229-424 | one of the two always is so |
| Completions.PathGoesOn | src/transaction/transaction_manager.cpp:229-424 | such a path continues the run that led to its first state |
| Completions.LocksAndAccesses | test/benchmark/benchmark_rpc.h:72-119 | a running participant new to a row locks it and then reads or writes it if and only if the row's holders are compatible |
| Completions.AccessDoes | include/Inmemory/KVStore.h:18-81 | a read tells what is under the key, a put stores, a delete removes and tells whether there was anything |
| Cluster.RowOfDigits | test/benchmark/benchmark_rpc.h:75 | behind three characters and white space, decimal digits with or without a sign name that row, if it fits in 32 bits |
| AtomicCommit.NoMixedOutcome | include/transaction/transaction_manager_rpc.h:15-80 | two log entries of one transaction never disagree on the outcome |
| ConflictOrder.TwoPhaseKept | test/benchmark/benchmark_rpc.h:72-119 | every event of a live transaction is still protected by a lock of sufficient mode |
| ConflictOrder.OrderInvHolds | src/transaction/transaction_manager.cpp:318-428 | in every run conflicting events of live or committed transactions follow the decision order |
| ConflictOrder.DecisionOrderIsSerial | src/transaction/transaction_manager.cpp:318-428 | a conflict edge between committed transactions goes forward in the order of the commit decisions |
| ConflictOrder.ConflictGraphIsAcyclic | src/transaction/Lock_manager.cpp:314-467 | no path of conflict edges returns to where it started |
| Serializability.SerializableIff | src/transaction/transaction_manager.cpp:174-205 | every state of a run is serialized if and only if no aborted participant unlocks a row in which its first write to some key was a put over a value |
| Serializability.Serializable | src/transaction/transaction_manager.cpp:318-428 | in every run, as long as that has not happened, the committed transactions, one after another in decision order, read and write exactly what they did, and unlocked keys hold what that serial run leaves |
| Serializability.CommittedValueIsStable | src/transaction/Lock_manager.cpp:314-391 | in every run, while an undecided transaction keeps a key X-locked, decisions of others do not change its committed value |
| Serializability.RollbackRestoresFirstValue | src/transaction/transaction_manager.cpp:174-205 | in every run, whatever others interleave, a rollback leaves each X-locked key as it was before the transaction's first write if and only if that write did not overwrite it |
| Serializability.AccessRollsBack | include/Inmemory/KVStore.h:18-81 | one more undoable access does not change what rolling back leaves |
| LossExamples.OverwriteLosesValue | src/transaction/transaction_manager.cpp:174-205 | a run of ten states, for any key with a row number and any values: a put over a value, aborted, rolled back and unlocked, whose last state is not serialized |
| Histories.SerialIsComplete | src/transaction/transaction_manager.cpp:318-428 | the serial history holds all events of each committed transaction, in order, and no others |
| LogChain.AppendKeepsChain | include/Inmemory/KVStore.h:18-32 | a record that points at the last record of its transaction keeps the log well chained |
| Participant.Wal.Append | include/Inmemory/KVStore.h:19-25 | each logged operation extends the chain of its transaction |
| Participant.KvStore.Put | include/Inmemory/KVStore.h:18-32 | a put logs, records and stores, in this order |
| Participant.KvStore.Del | include/Inmemory/KVStore.h:59-81 | a delete of an absent key logs and records nothing; otherwise it keeps the old value |
| Participant.TransactionManager.Begin | src/transaction/transaction_manager.cpp:131-149 | a new transaction is logged, known, holds nothing and, if its number is new to the log, is well chained |
| Participant.TransactionManager.PrepareCommit | src/transaction/transaction_manager.cpp:410-428 | prepare refuses aborted transactions, changing nothing, and logs PREPARED at most once |
| Participant.TransactionManager.CommitSingle | src/transaction/transaction_manager.cpp:207-227 | commit of a non-aborted transaction logs once, releases everything and forgets the transaction; a refusal changes nothing at all |
| Participant.TransactionManager.UndoLastWrite | src/transaction/transaction_manager.cpp:177-189 | one turn of the rollback takes the last write back and logs its compensation, if it changes the store |
| Participant.TransactionManager.RollBack | src/transaction/transaction_manager.cpp:174-191 | the loop takes every write back, the last first, and logs the compensations |
| Participant.TransactionManager.AbortSingle | src/transaction/transaction_manager.cpp:174-205 | the loop rolls the store back record by record, logs exactly the compensations of that rollback and then ABORT, and releases everything |
| Participant.TransactionManager.HandlePrepare | include/transaction/transaction_manager_rpc.h:35-60 | the handler says yes exactly for a known, non-aborted transaction, with its PREPARED record logged once; otherwise it changes nothing |
| Participant.TransactionManager.HandleCommit | include/transaction/transaction_manager_rpc.h:62-80 | the handler commits exactly a known, non-aborted transaction, with its COMMIT record, its locks released and the others' kept; otherwise it changes nothing, the transaction's own fields included |
| Participant.TransactionManager.HandleAbort | include/transaction/transaction_manager_rpc.h:15-33 | the handler rolls back exactly a known transaction, with its compensations, its ABORT record, its locks released and the others' kept; otherwise it changes nothing |
| HandlerRuns.PrepareRun | include/transaction/transaction_manager_rpc.h:35-60 | the prepare handler is one action of the cluster, with the answer, state and record that the handler ensures |
| HandlerRuns.CommitRun | include/transaction/transaction_manager_rpc.h:62-80 | the commit handler is a run of the cluster: delivery, unlocking of every item and finish do to store, log and locks what the handler ensures |
| HandlerRuns.AbortRun | include/transaction/transaction_manager_rpc.h:15-33 | the abort handler is a run of the cluster: delivery, each step of the rollback, its end, unlocking and finish do to store, log and locks what the handler ensures |
| Participant.RollbackIsExact | src/transaction/transaction_manager.cpp:174-190 | rolling back restores every key if and only if no put overwrote a key not written before |
| Participant.OverwriteExample | include/Inmemory/KVStore.h:18-32 | the smallest loss: one put over an existing key, rolled back |
| LogRecords.RecordLayout | include/recovery/log_record.h:15-30 | the format, number by number: where size, LSN, transaction, previous LSN, type code, lengths, key and value stand, with the code of every type |
| LogRecords.DeserializeRecord | include/recovery/log_record.h:72-119 | a record is read back as it was written, wherever it lies; a PREPARED record is read with its LSN, transaction 0 and no predecessor |
| LogRecords.ReadMeansLies | include/recovery/log_record.h:72-119 | where the reader finds a record of a type that it knows, with the size that the header tells, the bytes of that record lie, so it takes nothing else for one |
| LogRecords.RecordPlace | src/recovery/log_manager.cpp:14-46 | in a log each record lies at the sum of the sizes before it |
| LogManagers.LogManager.AppendStep | src/recovery/log_manager.cpp:14-47 | an append writes the record's bytes behind the others and gives it the next LSN; it never leaves the buffer |
| LogManagers.LogManager.AppendLogRecord | src/recovery/log_manager.cpp:4-48 | the waiting form: the wait ends, and nothing else is appended by the caller |
| LogManagers.LogManager.SwapStep | src/recovery/log_manager.cpp:58-63 | the swap keeps every byte |
| LogManagers.LogManager.WriteStep | src/recovery/log_manager.cpp:68 | the write moves the swapped-out buffer to the end of the file |
| LogManagers.LogManager.PersistStep | src/recovery/log_manager.cpp:69-70 | the published LSN is that of the last record in the file |
| LogManagers.LogManager.FlushThreadStep | src/recovery/log_manager.cpp:50-81 | one turn of the flush thread is the turn of the abstract pipeline, and the file only grows |
| LogManagers.FlushEndsIff | src/recovery/log_manager.cpp:50-90 | the wait for an appended record ends, with nothing more appended, if and only if it is reported already or the flush thread has something left to do |
| LogManagers.FlushInVain | src/recovery/log_manager.cpp:83-90 | a record of a log file that has just been opened is never reported |
| LogManagers.LogManager.Flush | src/recovery/log_manager.cpp:83-90 | under exactly that condition the busy wait ends, with the record reported |
| LogManagers.LogManager.BytesInOrder | src/recovery/log_manager.cpp:50-81 | file, swapped-out buffer and live buffer are together the encodings of all appended records in LSN order |
| LogManagers.LogManager.PersistentIsInFile | src/recovery/log_manager.cpp:68-70 | every record up to the persistent LSN is wholly in the file, at its place |
| LogManagers.RunPipeline | src/recovery/log_manager.cpp:4-90 | in every interleaving of appenders and the flush thread the object follows the steps: the records are exactly those accepted, in order, file and buffers together are their encodings, and whatever is reported is wholly in the file |
| Recoveries.ReachedIff | src/recovery/recovery_manager.cpp:76-98 | the walk comes to a record exactly if redo tracks its transaction and no PREPARED record of it lies between that record and a later record of it; for transaction 0, in logs without PREPARED |
| Recoveries.ReachedIsTracked | src/recovery/recovery_manager.cpp:106-146 | undo knows the transaction of every record that it takes back |
| Recoveries.RecoveredAt | src/recovery/recovery_manager.cpp:106-146 | what recovery leaves under a key is the undone value of the first record on it that the walk reaches, or what the log has built if there is none |
| Recoveries.UntouchedIsLeft | src/recovery/recovery_manager.cpp:76-146 | a key that no open transaction has written is left as the log builds it, with them or without |
| Recoveries.RecoveryIsExactIff | src/recovery/recovery_manager.cpp:14-146 | a linked log in which nobody writes a key after an open transaction is recovered to what it builds without the open transactions if and only if every key is left as its first open writer met it |
| Recoveries.FirstWriteIsLeft | src/recovery/recovery_manager.cpp:84-98 | where no PREPARED record cuts it off, the first write of an open transaction to a key is taken back |
| Recoveries.InsertOnlyRecovery | src/recovery/recovery_manager.cpp:106-127 | when the walk reaches no delete, the recovered store is the redone one without the keys that it reaches |
| Recoveries.LostValueExample | src/recovery/recovery_manager.cpp:128-141 | a committed value that a loser overwrote or deleted is lost |
| Recoveries.RecoveryIsStableIff | src/recovery/recovery_manager.cpp:76-146 | recovering again finds nothing to undo, and the same store if and only if undone deletes were of keys that equal their value |
| Recoveries.SecondRecoveryExample | src/recovery/recovery_manager.cpp:128-141 | a log whose second recovery leaves another value than the first |
| Recoveries.InsertOnlyRecoveryIsStable | src/recovery/recovery_manager.cpp:76-127 | when the walk reaches no delete, recovering again changes nothing |
| Recoveries.CrashInUndo | src/recovery/recovery_manager.cpp:84-146 | after a crash in the middle of the undo, with any number of compensations logged, recovery leaves the same store |
| Recoveries.ExtendedIsLinked | src/recovery/recovery_manager.cpp:112-141 | compensations keep the log numbered and linked and close no transaction |
| Recoveries.ClosedIsLinked | src/recovery/recovery_manager.cpp:99-103 | abort records keep it numbered and linked, close every tracked transaction and change no value |
| Recoveries.ExtendedIsWellFormed | src/recovery/recovery_manager.cpp:112-141 | in a log without PREPARED records, compensations keep every chain whole |
| Recoveries.ClosedIsWellFormed | src/recovery/recovery_manager.cpp:99-103 | there, abort records keep every chain whole |
| RecoveryManagers.ScanAt | src/recovery/recovery_manager.cpp:20-28 | what the probe of the size and the decoder find at a record, at a record cut off by the buffer, and at the end of the log |
| RecoveryManagers.RecoveryManager.ReadLog | include/storage/LogStorage.h:60-82 | a short read is padded with zeros |
| RecoveryManagers.RecoveryManager.RedoLog | src/recovery/recovery_manager.cpp:43-74 | one record, as it was read, is redone as the replay of the log says, and tracked |
| RecoveryManagers.RecoveryManager.ScanChunk | src/recovery/recovery_manager.cpp:20-36 | the scan of one buffer redoes every record that lies wholly in it |
| RecoveryManagers.RecoveryManager.ScanLog | src/recovery/recovery_manager.cpp:14-39 | the chunked scan terminates, redoes each record once and in order, and maps each LSN to its offset and size |
| RecoveryManagers.RecoveryManager.Redo | src/recovery/recovery_manager.cpp:14-41 | after redo the store is the replay, the tracked transactions are known, and the log goes on with the next LSN |
| RecoveryManagers.RecoveryManager.UndoLog | src/recovery/recovery_manager.cpp:106-146 | one record is taken back and compensated in the log |
| RecoveryManagers.PendingNext | src/recovery/recovery_manager.cpp:84-98 | whatever is still to be reached stays on the chain of a pending LSN, and the maximum falls |
| RecoveryManagers.RecoveryManager.UndoLast | src/recovery/recovery_manager.cpp:84-97 | one turn of the walk reads the record with the largest pending LSN back from the file and undoes exactly it |
| RecoveryManagers.RecoveryManager.UndoRecords | src/recovery/recovery_manager.cpp:76-98 | the walk over the pending LSNs terminates and undoes exactly the records that it reaches, the last first |
| RecoveryManagers.RecoveryManager.Undo | src/recovery/recovery_manager.cpp:76-104 | undo leaves the recovered store and the extended log, closed by one abort record for each tracked transaction, transaction 0 included |
| RecoveryManagers.RecoveryManager.Aries | src/recovery/recovery_manager.cpp:4-8 | redo and undo together compute the recovered store and the extended log, for every linked log, PREPARED records included |
| NodeRecovery.NodeLogsAreLocked | include/Inmemory/KVStore.h:18-81 | in every run of the cluster, for every node: nobody writes a key after an open transaction has; the open transactions are those that the log leaves open, each with BEGIN first and neither COMMIT nor ABORT; and the log is numbered and chained |
| NodeRecovery.NodeLogIsStore | include/Inmemory/KVStore.h:18-81 | replaying the log of a node that started empty gives its store, in every state of every run |
| NodeRecovery.NodeRecovery | src/recovery/recovery_manager.cpp:4-146 | recovering any node at any moment of any run: keys that no open transaction has written get the value they had; the whole store is that of the others if and only if every key is left as its first open writer met it; and unless an open transaction has logged a write behind its PREPARED record, that is if and only if each first write was safe |
| NodeRecovery.FileIsNodeLog | src/recovery/log_manager.cpp:50-81 | what the log file holds at any moment is the whole log that the node had at some earlier moment, with every record reported |
| NodeRecovery.LogsAgree | src/transaction/transaction_manager.cpp:131-227 | the outcomes in a node's log are, in order, the entries that atomic commitment speaks of |
| PreparedExamples.AbortedWritesSurvive | src/recovery/recovery_manager.cpp:84-98 | a run with safe first writes only, after which recovery keeps an aborted write and brings a key back |
| CommittedRecovery.MetAreCommitted | src/transaction/Lock_manager.cpp:314-391 | in every run that has unlocked nothing lost, what an undecided transaction met at its first logged write of a key is still the committed value of the key |
| CommittedRecovery.RecoversCommittedIff | src/recovery/recovery_manager.cpp:4-146 | in every such run, at any moment, recovering a node gives every key what the serial execution of the committed transactions leaves if and only if what undo leaves of each open writer's key is what that writer met or, if it is decided, has written, and no aborted transaction has lost a value already |
| CommittedRecovery.SafeToUndoIff | src/recovery/recovery_manager.cpp:84-146 | unless an open transaction has logged a write behind its PREPARED record, that depends on its first write to the key only |
| Towers.SuccAfterInsert | src/storage/SkipList.cpp:70-75 | how the successor at each level changes when a tower is inserted |
| Towers.SuccAfterRemove | src/storage/SkipList.cpp:91-95 | how the successor at each level changes when a tower is removed |
| Towers.SuccAfterRaise | src/storage/SkipList.cpp:141-162 | raising the sentinels changes no successor at the old levels |
| SkipLists.LinkedAfterSplice | src/storage/SkipList.cpp:70-75 | after the splice each level leads exactly through the nodes tall enough for it |
| SkipLists.LinkedAfterBypass | src/storage/SkipList.cpp:91-95 | after the bypass each level leads exactly through the remaining nodes tall enough for it |
| SkipLists.SkipList.FindGreaterOrEqual | src/storage/SkipList.cpp:167-195 | the search finds the first node not below the key and the last one below it at every level, and terminates |
| SkipLists.SkipList.EnlargeHeight | src/storage/SkipList.cpp:141-162 | the new levels lead from head to tail |
| SkipLists.SkipList.Put | src/storage/SkipList.cpp:48-79 | a put with any tower height keeps the structure and is a put on the sorted entries |
| SkipLists.SkipList.Del | src/storage/SkipList.cpp:82-100 | a delete keeps the structure, is a delete on the sorted entries and tells whether the key was there |
| SkipLists.SkipList.Get | src/storage/SkipList.cpp:32-44 | a get answers as the sorted entries do |
| SkipLists.SkipList.Contains | src/storage/SkipList.cpp:102-106 | membership in the map that the list stands for |
| SkipLists.SkipList.Clear | src/storage/SkipList.cpp:20-29 | every node is freed exactly once, and the list is empty |
| SkipLists.SkipList.FindLessThan | src/storage/SkipList.cpp:198-213 | the last node below the key, or the head |
| SkipLists.SkipList.FindLast | src/storage/SkipList.cpp:216-231 | the last node, or the head |
| SkipLists.CallsBuildMap | src/storage/SkipList.cpp:20-100 | any sequence of calls on sorted entries builds the map that it builds, with as many entries |
| SkipLists.RunCalls | src/storage/SkipList.cpp:20-100 | any sequence of put, del and clear on a new list, with any heights, leaves that map, its size and its space |
| SkipLists.Iterator.SeekToFirst | src/storage/SkipList.cpp:256-261 | stands on the first entry, if there is one; the order of keys is that of `SortedEntries.LessIff` |
| SkipLists.Iterator.SeekToLast | src/storage/SkipList.cpp:264-269 | stands on the last entry in that order, if there is one |
| SkipLists.Iterator.Seek | src/storage/SkipList.cpp:272-277 | stands on the least key that is at least the argument, in that order |
| SkipLists.Iterator.Next | src/storage/SkipList.cpp:280-286 | goes to the next entry in that order |
| SkipLists.Iterator.Prev | src/storage/SkipList.cpp:289-295 | goes back by one entry, so it undoes Next |
| SortedEntries.LessIff | src/storage/SkipList.cpp:175 | keys are ordered by their first differing byte, and a proper prefix comes first |
| SortedEntries.AsMapPut | src/storage/SkipList.cpp:48-79 | a put on the sorted entries is a put on the map |
| SortedEntries.AsMapDel | src/storage/SkipList.cpp:82-100 | a delete on the sorted entries is a delete on the map |
| SortedEntries.SpacePut | src/storage/SkipList.cpp:53-78 | what a put does to the sum of key and value lengths |
| SortedEntries.SpaceDel | src/storage/SkipList.cpp:96-97 | what a delete does to the sum of key and value lengths |
| Encoding.EncodeAt | src/storage/BlockBuilder.cpp:21-27 | byte `i` of a number is its digit to the base 256 at place `i`: the lowest comes first |
| Encoding.DecodeEncode | src/storage/BlockBuilder.cpp:21-27 | a number that fits is read back as it was written |
| Encoding.EncodeDecode | src/storage/Block.cpp:12-23 | the number read determines the bytes it was read from |
| Blocks.EntryRead | src/storage/Block.cpp:154-169 | what the reader finds at the offset of an entry |
| Blocks.TrailerRead | src/storage/Block.cpp:8-25 | what the reader finds in the trailer |
| Blocks.RestartsSnoc | src/storage/BlockBuilder.cpp:16-19 | an entry starts a restart point exactly when the last one has twenty entries |
| Blocks.BlockBuilder.Add | src/storage/BlockBuilder.cpp:11-32 | an added entry is behind the others, in bytes and in restart points |
| Blocks.BlockBuilder.Finish | src/storage/BlockBuilder.cpp:38-53 | the finished block is the encoding of the entries added |
| Blocks.BlockBuilder.EstimateIsExact | src/storage/BlockBuilder.cpp:65-69 | the estimated size is the length of the finished block |
| Blocks.Block.constructor | src/storage/Block.cpp:8-25 | opening a finished block recovers its restart points |
| Blocks.Block.Get | src/storage/Block.cpp:28-60 | the scan answers as the entries do, present or absent |
| Blocks.BlockIterator.SeekToFirst | src/storage/Block.cpp:86-91 | stands on the first entry, if there is one |
| Blocks.LastRestartIff | src/storage/Block.cpp:93-96 | the last restart point is on an entry if and only if the block has one |
| Blocks.BlockIterator.SeekToLast | src/storage/Block.cpp:93-107 | from the last restart point the walk ends on the last entry, or past the end of an empty block |
| Blocks.BlockIterator.Seek | src/storage/Block.cpp:110-124 | lands on the least key that is at least the argument, or past the end, in any block |
| Blocks.BlockIterator.Next | src/storage/Block.cpp:143-148 | goes to the next entry, or past the end |
| Tables.TwoLevelLookup | src/storage/SSTable.cpp:45-66 | the first block whose last key is not below the key answers for the whole table |
| Tables.NoBlockHolds | src/storage/SSTable.cpp:67 | a key past every block is absent |
| Tables.BlockRead | src/storage/SSTable.cpp:22-33 | each index entry leads to the bytes of its block |
| Tables.HandleRead | src/storage/SSTable.cpp:10-20 | the last sixteen bytes lead to the index block |
| Tables.FileFits | src/storage/TableBuilder.cpp:45-71 | for a memtable below a stated size every number in the file fits in eight bytes |
| Tables.TableBuilder.WriteDataBlock | src/storage/TableBuilder.cpp:45-71 | a closed block is in the file and in the index, and no entry is lost |
| Tables.TableBuilder.Add | src/storage/TableBuilder.cpp:26-35 | an added entry is behind the others; the block is closed exactly when it has become full |
| Tables.TableBuilder.Finish | src/storage/TableBuilder.cpp:73-79 | the file is the data blocks, the index and its handle, for the entries added |
| Tables.AddAll | src/storage/TableBuilder.cpp:84-89 | the loop over the memtable's iterator adds every entry once and in order |
| Tables.CreateSSTable | src/storage/TableBuilder.cpp:81-93 | the file holds exactly the memtable, cut into blocks that are closed as soon as they reach 4096 bytes |
| Tables.SSTable.constructor | src/storage/SSTable.cpp:10-20 | a written file can be opened |
| Tables.SSTable.Get | src/storage/SSTable.cpp:39-68 | a get on the file answers as the entries it was written from |
| Tables.WriteThenGet | src/storage/TableBuilder.cpp:81-93 | written out and read back, a memtable answers every key, present or absent, as in memory |
| LevelZeros.SearchSnoc | src/storage/LevelZero.cpp:40-56 | a new table answers only for keys that no older table has |
| LevelZeros.LevelZero.Open | src/storage/LevelZero.cpp:18-28 | the index file gives back the list of tables and the counters |
| LevelZeros.LevelZero.Add | src/storage/LevelZero.cpp:31-37 | the memtable becomes the newest table |
| LevelZeros.LevelZero.Search | src/storage/LevelZero.cpp:40-56 | the oldest table that has the key answers |
| LevelZeros.DiskStorage.Open | src/storage/DiskStorage.cpp:26-35 | the numbering goes on after a restart |
| LevelZeros.DiskStorage.Add | src/storage/DiskStorage.cpp:15-20 | table numbers stay distinct |
| KvStoreBeta.ServedAsMapIff | src/storage/KVStore_beta.cpp:15-58 | a request leaves every key with a map's answer if and only if it is harmless |
| KvStoreBeta.StoreIsMapIff | src/storage/KVStore_beta.cpp:15-58 | after every prefix of a run the store answers as a map if and only if every request was harmless when it was served; `PutSpillsIff` and `SmallRunIsMap` say by numbers when the memtable is written out |
| KvStoreBeta.PutSpillsIff | src/storage/KVStore_beta.cpp:15-23 | a put writes the memtable out if and only if its keys and values come to more than 2097152 bytes with it |
| KvStoreBeta.SmallRunIsMap | src/storage/KVStore_beta.cpp:15-58 | up to 2097152 bytes of puts, with any deletes, the store answers as a map after every prefix and writes no table |
| KvStoreBeta.StoreIsMap | src/storage/KVStore_beta.cpp:15-58 | over any run of non-empty writes to keys in no table the store is a map, through all flushes and restarts |
| KvStoreBeta.StaleValueExample | src/storage/LevelZero.cpp:40-56 | the newer of two values is lost once both are in tables |
| KvStoreBeta.DeletedValueExample | src/storage/KVStore_beta.cpp:43-58 | a deleted key comes back |
| KvStoreBeta.Store.Put | src/storage/KVStore_beta.cpp:15-23 | the put in place, with the memtable written out exactly as `PutSpillsIff` says |
| KvStoreBeta.Store.Get | src/storage/KVStore_beta.cpp:27-40 | the get in place, with empty values as absent |
| KvStoreBeta.Store.Del | src/storage/KVStore_beta.cpp:43-58 | the delete in place, and what it returns |
| KvStoreBeta.Store.Flush | src/storage/KVStore_beta.cpp:98-102 | the explicit flush keeps the memtable |
| Oracles.SyncIsMonotoneIff | meta_server/timestamp.h:71-85 | a start does not fall behind the loaded value if and only if the clock does not |
| Oracles.SavesIff | meta_server/timestamp.h:100-103 | an update is saved if and only if the low 32 bits of its lead are at most 2^31, or all ones |
| Oracles.UpdateAdvances | meta_server/timestamp.h:87-107 | an update either changes nothing or moves the physical part forward, and by how much |
| Oracles.LastLogicalCarries | meta_server/timestamp.h:120-132 | the last logical part carries into the physical one without meeting the next physical part's timestamps |
| Oracles.IssuedIncrease | meta_server/timestamp.h:87-132 | after one start, in every interleaving, issued timestamps increase strictly |
| Oracles.RestartsAreSafe | meta_server/timestamp.h:71-132 | over any number of restarts, if every update passes the test before the save, the saved value is ahead and issued timestamps increase strictly |
| Oracles.SavedAheadIff | meta_server/timestamp.h:71-107 | from the start on the saved value is above the physical part in every state if and only if every update passes that test |
| Oracles.RestartAdvancesIff | meta_server/timestamp.h:71-85 | every restart with a clock not behind the saved value goes past the physical part if and only if the saved value is not behind it |
| Oracles.OrderedAcrossRestartsIff | meta_server/timestamp.h:71-132 | reading, restarting and reading again keeps the timestamps increasing, whenever it happens and by any clock not behind the saved value, if and only if the saved value is never behind the physical part |
| Oracles.CloseRunsSave | meta_server/timestamp.h:100-103 | a clock that stays within 2^31 ms of the loaded value passes the test at every update |
| Oracles.UnsavedExample | meta_server/timestamp.h:100-103 | an update that fails the test is not saved, and after a restart a timestamp is issued twice |
| Oracles.Oracle.SyncTimestamp | meta_server/timestamp.h:71-85 | the start in place |
| Oracles.Oracle.UpdateTimestamp | meta_server/timestamp.h:87-107 | the update in place |
| Oracles.Oracle.TryGet | meta_server/timestamp.h:111-125 | one try in place |
| Oracles.Oracle.GetTimestamp | meta_server/timestamp.h:109-128 | the first of a hundred tries issues the next timestamp unless the logical part is used up; then the first try after an update of the background thread does; only if none comes in time is the result zero and nothing issued |

## Left out

- Whole-system assumptions: the handlers of one transaction on one node do not overlap; clients send operations only before the commit starts; nothing restarts a transaction at a node after it has ended there.
- The cluster machine uses the no-wait mode that the transaction manager configures. For the waiting mode only the safety of the lock queue is claimed; fairness, deadlock and lock waits that never end are not.
- `Completions` says that a way to the end exists in every state; that schedulers, retries and timeouts take it is not claimed. Of a transaction that has not started at every node yet, `CanEndIff` says nothing.
- A request whose key has no row number, where std::stoi throws, is not an access. The commented-out checks for locks on the parent table and partition.
- A coordinator that is also a participant shares one transaction object between both roles in the code; the model keeps the two apart. A local transaction is modelled as a one-node transaction whose messages are delivered.
- Coordinator takeover, and finishing prepared transactions after a crash, which the code does not do. Assertions, which the default build leaves out; the one at the end of the log reader looks past the record.
- A size probe with fewer than four bytes left in the scan buffer counts as the end of the chunk; the code reads past its buffer there.
- A restart is not an action of the cluster machine: `NodeRecovery` and `CommittedRecovery` say what a node that crashes in a state of a run recovers from the log of that state, and `NodeRecovery.FileIsNodeLog` that the file holds the log of that or an earlier one. A transaction that is prepared at the time counts as open.
- Durability at commit and at shutdown (commit never waits for the flush), crashes between file writes, and torn or truncated log files.
- Records as large as the log buffer wait forever in the code; the append methods ask for smaller ones. The next LSN is asked to stay within 31 bits, and a recovered log within 2^31 bytes, the width of the code's offsets.
- The mutex, the condition variables and the timeout of the flush thread appear only as the atomic steps they make; the flag that asks for a flush affects only when steps happen.
- File access, directories and the two metadata files appear as byte strings. Table files are opened by number; snappy is any compressor that loses nothing and at most doubles its input, up to a constant.
- The order of unordered_map iteration, tower heights and the clock are arbitrary values.
- Block iterator Prev, which does nothing in the code, the commented-out reader by restart points, and the reset of the store, which clears only the memtable.
- The caches that are never wired in, the SQL layer, plan shipping, placement and lookup in the meta server, the RPC plumbing, and allocation and frees other than those of `clear`.
- Reading the oracle before its first start; the unlocked second read of the physical part in `getTimeStamp` is taken together with the latched part.
