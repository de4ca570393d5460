# IceLog: verified model

IceLog is a metadata catalog for tables made of partitions. It keeps every
version of a table: a commit names the snapshot it started from, adds rows,
tombstones rows by partition key and moves the table's pointer; a read names a
snapshot and sees the rows visible at it. In front of PostgreSQL stand an LRU
cache, reader-writer locks per table, a bounded connection pool and an
in-memory transaction manager. This project models those pieces and proves
what they keep, together and under interleaving.

## How it is laid out

The model has three layers.

*Meaning.* `Store` gives the SQL statements a meaning on values: tables keyed by
their unique name, rows keyed by id, id sequences that a rollback does not
rewind. `Replay` proves that reading tombstones is replaying the commit log.
`Chain` is the walk along parent ids. `History` and `Catalog` prove what every
commit and every create, alter, rename and drop keep. `Statements` and `Requests`
say what queries answer and what catalog operations and commits leave in the
columns of the tables and of the requests alone, without naming the functions that
compute it. `Recency` is the LRU cache as a list with its laws; `CacheKeys` is the
text of its keys.

*Interleaving.* `Serving` is the server as a state machine of any number of
handler threads, each taking small steps (lock, resolve the snapshot, look up,
borrow a connection, each statement, put, unlock, late invalidation), where any
statement or connection may fail and other users draw ids in between.
A table's lock is two levels, as in the lock manager: a thread asks for the
registry mutex, finds or creates the table's mutex under it, gives it back and
only then waits; every release takes the registry again. `Invariant` proves the
inductive invariant, `Registry` that of the locking; `Reads`, `ReadRuns`,
`CommitRuns`, `Immutability`, `Forks`, `SchemaHistory`, `Progress` and `Finishing`
state the results about all runs (`Finishing`: without new arrivals they end, with
every request done), and `Solo` follows threads that run without interruption.
`Transactions` is the same for the transaction manager.

The mutexes of the pool, the cache and the transaction manager are not states
of the machine, because they are leaves: each is taken and given back inside one
call, and nothing is locked under it. `ConnectionPool::acquire` waits on its
condition variable, which gives the pool's mutex back, and at most opens a
connection under it; the cache's operations call only a prefix comparison; the
transaction manager calls nothing. A thread inside one of them waits for no
other thread, so each such call is one step.

*The code's own form.* `LruCache`, `ConnectionPool`, `LockManager`,
`MvccManager`, `PgClient`, `PartitionRegistry` and `CatalogManager` are classes
whose methods do what the C++ methods do, in the same order and with the same
loops and exits, proved against the meaning layer. `Statistics` holds the sums.
`Sequential` proves that an uninterrupted thread of the state machine ends as these
methods' contracts say: step by step for a commit, and with
`Sequential.DdlStepIsCatalogManager` for the one step of a catalog operation.
A method whose C++ original waits, for a lock or for a connection, ends by saying
that it waits, and has taken nothing; it can go on when others have moved.

Smaller lemmas fix single steps: `Statements.RenamedReads`, `Statements.CreatedReads`
and `Statements.DroppedReads` what readers find after a catalog operation,
`ReadRuns.ReadIsCached` and `ReadRuns.HitIsTouched` what a read does to the cache,
`Transactions.EndsExactly` whom a sweep, a commit and an abort end,
`CacheKeys.DecimalDigits` how ids are printed.

A statement's failure is a nondeterministic choice; `Database.faults` counts
failures, so that contracts can say what happens when there is none. In the
state machine a commit's statements take effect on the store at COMMIT, while
the ids they draw are drawn at once. A tombstone's snapshot 0 stands for NULL.
Ids, counts and the counter are unbounded numbers; the one width that matters,
that a snapshot number above 2^63 - 1 makes a query fail, is modelled.

## Where the code and its promises differ

- A table forks exactly when a commit names parent 0 while the table has a
  current snapshot (`Forks.CommitForks`). The check before it compares the
  parent with what the SELECT of the pointer returned, and a failed SELECT
  returns 0 (src/db/pg_client.cpp:495-509), so such a commit passes and is
  published: `Forks.FailedReadForks` gives the run. In runs in which that one
  SELECT does not fail, no table ever forks (`Forks.ReliableRunsDoNotFork`), and
  on an unforked table the chain is the whole history and the id comparison is
  ancestry. On a forked one the id comparison is ancestry between two snapshots
  exactly when no history of the table began between them
  (`Forks.AncestryIsChainMembership`), and a read at any committed snapshot still
  shows rows of the earlier histories that the snapshot's chain has lost:
  `Reads.ReadsReplayTheChain` says which.
- The same function is asked by reads. With the transaction counter at 0, a read of
  the latest snapshot whose SELECT of the pointer fails goes on at snapshot 0
  (src/catalog/partition_registry.cpp:15-36) and answers, with success, no rows for
  a table that has some: `ReadRuns.FailedReadIsEmpty` gives the run, and
  `ReadRuns.LatestReadAnswers` says that this is the only exception. `get_stats`
  answers zeros likewise.
- A snapshot number can be read before it is settled: one that an open commit
  has drawn, or a later one, reads differently after that commit
  (`Immutability.UnsettledReadsChange`). From a moment at which a reader holds
  the table's lock on, every number issued so far reads the same for good.
- A pin is lost when any transaction reading the same snapshot ends:
  `Transactions.FinishKeepsPinsIff` gives the exact condition for one end,
  `Transactions.SweepKeepsPinsIff` for a sweep that ends several.
- A read of "latest" uses the process-wide transaction counter, which is
  unrelated to the table's pointer: `ReadRuns.LatestReadAnswers` says what it
  returns on either side of the pointer.
- After a drop or rename has released its lock, a reader can be served the
  table's old rows until the invalidation: `Reads.StaleRead`. An alter changes
  no read, and its late invalidation matters to nobody.
- Two renames that cross, or one onto its own name, deadlock for good:
  `Progress.CrossingRenames`, `Progress.RenameToItself`,
  `Progress.KnotNeverFinishes`. A knot of renames is the only way to get stuck;
  if all renames lock in one order of names, every request finishes.
- Version 1 of a schema is never in the history, so it can not be looked up:
  `SchemaHistory.VersionsOnRecord`.

## Model

| member | source | states |
|---|---|---|
| Replay.PublishRefines | src/catalog/partition_registry.cpp:107-136 | publishing a commit keeps "a scan at snapshot s is the replay of the table's commits up to s" for every table and every s, rows in order |
| Replay.CommittedScan | src/catalog/partition_registry.cpp:117-129 | at its own snapshot and after, a commit shows the old rows then its own, less every row, old or just added, whose key it deletes |
| Replay.ScanFinds | src/db/pg_client.cpp:329-362 | inserted rows come out of a scan in insertion order, after all earlier rows |
| Statements.SelectedRows | src/db/pg_client.cpp:229-274 | a query answers iff a table of that name is not deleted and the snapshot number fits a BIGINT, and then exactly the rows of the WHERE clause, by ascending id |
| Statements.PagedRows | src/db/pg_client.cpp:276-327 | a paged query answers iff the full one does: its rows after the last id, by position, as many as the page size, or 1000, and fewer only if no more follow |
| Requests.CommitShowsRequest | src/catalog/partition_registry.cpp:107-136 | at its snapshot and later a commit shows the rows from before and then the partitions of its request, in order and column by column, less each whose key, as stored or as requested, it deletes |
| Requests.DeletedByRequestedKey | src/db/pg_client.cpp:364-386 | a partition that one request adds is invisible once the next one deletes the key it asked for |
| Requests.PublishedRecords | src/db/pg_client.cpp:329-420 | a commit leaves the pointer moved, one row of snapshots with the parent, operation and counts of the request, its rows of partitions column by column, tombstones on the live rows with deleted keys, and every other column of every table alone |
| History.PublishedOk | src/catalog/partition_registry.cpp:87-145 | a commit keeps ids, sequences, pointers (no row or tombstone of a table is above its pointer), replay and linear history |
| History.PublishedQuery | src/db/pg_client.cpp:242-248 | a commit changes no other table's reads and none of its own below its snapshot number |
| History.DrawnOk | scripts/init_db.sql:1-49 | ids drawn and thrown away change no read of any table at any snapshot |
| Catalog.EffectOk | src/db/pg_client.cpp:41-188 | create, alter, rename and both kinds of drop keep everything that commits keep |
| Statements.EffectLeaves | src/db/pg_client.cpp:41-188 | when each catalog operation is possible, exactly, and what it leaves, column by column: a new live table; a new schema and version with its history row; the same table under another name; a table that is gone, with all its rows after a purge and none of them without |
| Catalog.EffectQuery | src/db/pg_client.cpp:98-146 | a catalog operation changes nothing for readers of other names, and an alter for no reader |
| Invariant.StepInv | src/catalog/partition_registry.cpp:10-145 | every step of every thread keeps exclusion, the ledger's order and replay, what each open commit and reader relies on, and cache coherence: a cached value is what the query returns now, unless a drop or rename that took the table away has yet to invalidate, or a commit still holds its lock |
| Invariant.RunInv | src/server/metadata_server.cpp:92-246 | so every reachable state has them |
| Invariant.CoherentKept | src/server/metadata_server.cpp:131-143 | steps that put only what they read, and owe an invalidation for the reads they change, keep the cache coherent |
| Invariant.ClearedCache | src/catalog/partition_registry.cpp:147-156 | after prefix invalidation of a table no key of it is left, and nothing new is there |
| Reads.ReadsReplayTheLog | src/db/pg_client.cpp:229-274 | in every reachable state a read of a live table at any snapshot is the replay of its log |
| Reads.ReadsReplayTheChain | src/transaction/snapshot.h:22-42 | on any table, forked or not, the read at any committed snapshot is the replay, oldest first, of that snapshot's own chain, behind the rows of the table's earlier histories that the chain never deletes; it is the chain's own replay iff the chain deletes them all, and an unforked table has no earlier history |
| Chain.ReplayBehindLost | src/transaction/snapshot.h:32-39 | the same for logs and chains alone |
| Chain.ChainMembers | src/transaction/snapshot.h:32-39 | a chain is descending and complete from its snapshot down to the youngest commit without a parent at or below it |
| Reads.ReadsAreCurrent | src/catalog/partition_registry.cpp:10-37 | however a read ends it returns what the query would return at that moment: on a hit unless a drop or rename of its table has yet to invalidate, on a miss whenever the statement worked |
| ReadRuns.OthersKeepTable | src/lock/lock_manager.cpp:15-17 | while a thread holds its lock, shared or exclusive, no step of another thread changes what its table means, its pointer or any read of it |
| ReadRuns.ReadAnswers | src/catalog/partition_registry.cpp:10-57 | a whole read, cached or paged, any threads running in between and any statement failing: it answers what the query answers at its snapshot, when the request resolved and when it ends, and nothing exactly if its query fails; the snapshot is the one wanted, else the counter, else the pointer, else, when the SELECT of the pointer fails, 0 |
| ReadRuns.LatestReadAnswers | src/catalog/partition_registry.cpp:15-36 | a whole read of the latest snapshot answers iff its query does not fail, with the live rows if the counter it loaded is 0 or at least the pointer, and below the pointer the replay up to the counter; except that with the counter at 0 and the SELECT of the pointer failing it returns no rows |
| ReadRuns.FailedReadIsEmpty | src/db/pg_client.cpp:495-509 | the run that answers wrongly: from any state with the counter at 0, an idle thread, a connection, nobody writing the table or in the registry and no invalidation of the table owing, a read of the latest snapshot of a live table answers no rows, whatever the table holds |
| CommitRuns.RepliesAreTrue | src/catalog/partition_registry.cpp:87-145 | a whole commit, any threads running in between and any statement failing: if it answers with a snapshot, that is the pointer and shows exactly the request on top of what the table showed when the commit got its lock, and nothing older reads differently; if it answers failure, the table is and reads as it did |
| Reads.LatestReadIsLiveRows | src/db/pg_client.cpp:245-248 | reads at or above the pointer are exactly the live rows |
| Reads.LatestReadResolution | src/catalog/partition_registry.cpp:15-22 | the query at the snapshot that "latest" resolves to: the live rows if the counter is 0 or at least the pointer, below it the replay up to the counter |
| Reads.CounterCounts | src/transaction/mvcc_manager.cpp:38-54 | the counter that reads load moves by one with each commit of a transaction and by nothing else |
| Reads.CacheAnswers | src/catalog/partition_registry.cpp:24-27 | a cached snapshot is answered with nothing but the shared lock, without a connection |
| Reads.StaleRead | src/server/metadata_server.cpp:131-143 | a run in which a reader that comes between a drop's or rename's unlock and its invalidation gets rows under a name that is gone |
| Reads.LateInvalidation | src/server/metadata_server.cpp:131-143 | an alter or a rename invalidates whatever came of it, a drop when it succeeded, and afterwards no key of the table is left |
| Immutability.OldReadsNeverChange | src/db/pg_client.cpp:364-386 | what a table shows at a settled snapshot is the same after any run of commits, rollbacks and operations that leave the table its name |
| Immutability.UnsettledReadsChange | src/catalog/partition_registry.cpp:107-136 | a read at or above the number an open commit has drawn changes when it commits, iff it removes a visible row or keeps one of its own: being settled is what time travel needs |
| Immutability.PagedScanFromFirstReply | src/server/metadata_server.cpp:161-203 | from a reader thread's reply to the first request on, any runs in between: the replies reader threads give, each page's last id fed back, collect a prefix of the full read at that first moment, of exactly as many rows as the page sizes add up to while there are that many; an empty page ends it with the whole, and more requests than rows are enough |
| Immutability.ReplyIsNextRows | src/server/metadata_server.cpp:165-200 | what a thread answers a paging client is the next rows of the full read by position, as many as the page size, and fewer only if no more are left |
| Immutability.PageIsNextRows | src/db/pg_client.cpp:276-327 | a page from the k-th row's id is the next rows of the full read by position, as many as the page size, or 1000, and fewer only if no more are left |
| Forks.CommitForks | src/catalog/partition_registry.cpp:96-103 | a commit forks its table iff it names parent 0 although the table has a current snapshot |
| Forks.UnforkedIsLinear | src/transaction/snapshot.h:22-42 | no fork iff no two commits share a parent iff the chain from current lists all snapshots; the chain is strictly descending |
| Forks.ReliableRunsDoNotFork | src/catalog/partition_registry.cpp:92-136 | in every run without a failed read of a commit's pointer no table forks |
| Forks.FailedReadForks | src/db/pg_client.cpp:495-509 | the run that forks: from any state with an idle thread, a connection and nobody at the table or the registry, a commit with parent 0 whose SELECT of the pointer fails is published over the current snapshot |
| Solo.CommitGoesThrough | src/catalog/partition_registry.cpp:87-145 | an uninterrupted commit whose transaction's statements work is published, if it names the pointer, or 0 when the SELECT is what fails |
| Forks.WholeChain | src/transaction/snapshot.h:22-42 | on the snapshots of an unforked table the loop ends and returns its whole history, each snapshot once, newest first |
| Forks.AncestryIsChainMembership | src/transaction/snapshot.h:17-19 | for any two committed snapshots of any table: s is on the chain from p iff the id comparison says so and no history of the table began after s and up to p; so on an unforked table the id comparison decides |
| Forks.ChainsEnd | src/transaction/snapshot.h:32-39 | the walk along parents ends from any id in every reachable store, forked or not |
| Chain.BuildSnapshotChain | src/transaction/snapshot.h:22-42 | when a finite chain exists the loop returns it, and it is the only one: it starts at the id asked for, goes from parent to parent, takes the last listed snapshot of an id, and ends at 0 or at a parent that is not listed |
| Chain.SelfParentNeverEnds | src/transaction/snapshot.h:32-39 | without the protocol's order of ids the walk need not end |
| Chain.ChainIsWalk | src/transaction/snapshot.h:26-29 | the chain built from a vector of a table's snapshots is the walk over their parents |
| SchemaHistory.SchemasFromStart | src/catalog/catalog_manager.cpp:35-66 | after any run each table's history holds versions 2 to its current one once each in order, the newest entry being the current schema |
| SchemaHistory.HistoryOnlyGrows | src/db/pg_client.cpp:98-132 | no step changes or removes an earlier entry of a table that stays |
| SchemaHistory.VersionsOnRecord | src/catalog/schema_store.cpp:24-54 | exactly versions 2 to the current one of a table that is not deleted can be looked up, and the answer is that table's row of that version |
| Registry.WaitersNeverOwnTheRegistry | src/lock/lock_manager.cpp:4-33 | in every reachable state at most one thread is inside the registry, and nobody who waits for a table's mutex or for a connection |
| Registry.ReleasesFinish | src/lock/lock_manager.cpp:19-39 | no release hangs, whatever others wait for: at most three steps unlock |
| Progress.StuckOnlyInAKnot | src/catalog/catalog_manager.cpp:68-83 | with registry and table mutexes and a live connection, requests that can not go on contain renames each waiting for a name another of them holds |
| Progress.OrderedRenamesNeverStick | src/lock/lock_manager.cpp:4-39 | if waiting renames lock in one strict order of names, some step is always enabled |
| Progress.CrossingRenames | src/catalog/catalog_manager.cpp:72-73 | the run in which two crossing renames tie a knot |
| Progress.RenameToItself | src/catalog/catalog_manager.cpp:72-73 | the run in which a rename of a table to its own name ties a knot alone |
| Progress.KnotNeverFinishes | src/lock/lock_manager.cpp:31-33 | a knot stays one through every later run |
| Progress.ConnectionsConserved | src/db/connection_pool.cpp:47-63 | a step of the server loses a connection only in an acquire whose replacement fails |
| Finishing.RunsAreFinite | src/lock/lock_manager.cpp:4-39 | each step of a thread lowers a bound on what is left to do, so a run without new arrivals has at most so many steps, whatever fails |
| Finishing.MaximalRunsFinish | src/catalog/catalog_manager.cpp:68-83 | if the renames under way go upward in one strict order of names, a run without arrivals that no thread can continue, with a connection left, ends with every thread idle |
| Finishing.EveryRequestFinishes | src/server/metadata_server.cpp:92-246 | and from every such state there is a run to that end |
| Recency.InclusionFromEmpty | src/cache/lru_cache.h:20-81 | after any trace a smaller cache's list is a subsequence of a larger one's with the same values, shorter by at most the difference of capacities, and its hits are hits there |
| Recency.HeldIsLastPut | src/cache/lru_cache.h:20-50 | a held value is the last one put under its key, and no invalidation came since |
| Recency.Retention | src/cache/lru_cache.h:32-50 | once put or hit, a key survives while fewer than capacity other keys are touched and it is not invalidated |
| Recency.ListedByLastUse | src/cache/lru_cache.h:20-50 | after any trace, of two held keys the one listed first was put or hit more recently |
| Recency.EvictsLeastRecent | src/cache/lru_cache.h:39-46 | a put of a new key evicts only from a full cache, and then exactly the key whose last use is longest ago |
| Recency.RunSound | src/cache/lru_cache.h:32-50 | keys stay distinct and within capacity |
| LruCache.LRUCache.Get | src/cache/lru_cache.h:20-30 | list and index stay linked; a hit returns the value and moves its node to the front; a miss changes only the counter |
| LruCache.LRUCache.Put | src/cache/lru_cache.h:32-50 | list and index stay linked; the new list is the model's step, the evicted entry the least recent one |
| LruCache.LRUCache.InvalidateIf | src/cache/lru_cache.h:61-75 | erasing while iterating in any order removes exactly the matching keys, keeps the others' order and counts the removed |
| LruCache.LRUCache.Size | src/cache/lru_cache.h:83-86 | the index has as many keys as the list has entries |
| CacheKeys.KeyIsFaithful | src/catalog/partition_registry.h:68-70 | equal keys mean equal table and snapshot, whatever characters the names hold |
| CacheKeys.PrefixReach | src/catalog/partition_registry.cpp:147-151 | invalidating t reaches the keys of t and of tables whose name starts with "t:", and no others |
| CacheKeys.DecimalRoundTrip | src/server/metadata_server.cpp:165-200 | an id printed as a token is read back |
| Transactions.CounterCountsCommits | src/transaction/mvcc_manager.cpp:24-54 | with begins split into their atomic steps, the counter is the number of successful commits and bounds every active read snapshot |
| Transactions.GoneForGood | src/transaction/mvcc_manager.cpp:8-22 | an id that has left never becomes active or commits again |
| Transactions.CommitsWithinTimeout | src/transaction/mvcc_manager.cpp:24-54 | a transaction begun at t that nobody has ended commits at a later time iff no more than the timeout has passed, whatever sweeps there have been |
| Transactions.CommitsOnce | src/transaction/mvcc_manager.cpp:24-54 | an id commits at most once |
| Transactions.LaterBeginsSeeTheCommit | src/transaction/mvcc_manager.cpp:8-22 | a begin that starts after a commit returned reads its value or a later one |
| Transactions.CleanupIsInvisible | src/transaction/mvcc_manager.cpp:81-96 | runs that differ only in where expired transactions are swept show the same begins, verdicts and counters |
| Transactions.PinsAreLastTouch | src/transaction/mvcc_manager.cpp:12-19 | a snapshot is pinned iff the last begin or end of a transaction reading it was a begin |
| Transactions.FinishKeepsPinsIff | src/transaction/mvcc_manager.cpp:51-61 | one end leaves all active readers pinned iff no other active transaction reads the same snapshot |
| Transactions.SweepKeepsPinsIff | src/transaction/mvcc_manager.cpp:81-96 | a sweep leaves all active readers pinned iff no transaction that survives it reads the snapshot of one that it ends |
| Transactions.ApartReadersStayPinned | src/transaction/mvcc_manager.cpp:103-106 | while no two overlapping transactions share a snapshot, pins are exactly the active reads |
| MvccManager.BeginAlone | src/transaction/mvcc_manager.cpp:8-22 | an uninterrupted begin takes the next id, reads the counter and pins it |
| MvccManager.MVCCManager.CommitTransaction | src/transaction/mvcc_manager.cpp:24-54 | it succeeds iff the transaction is active and no more than the timeout has passed since its begin; then, through any number of spurious failures of the publish loop, the counter advances by one, and otherwise not at all; the transaction is gone either way |
| MvccManager.MVCCManager.CleanupExpiredTransactions | src/transaction/mvcc_manager.cpp:81-96 | erasing while iterating in any order leaves exactly the transactions within their timeout, removes the others' pins, and counts them |
| ConnectionPool.Conservation | src/db/connection_pool.cpp:47-89 | if each live connection has one owner, queued and held ones add up to the live ones |
| ConnectionPool.ConnectionPool.constructor | src/db/connection_pool.cpp:5-16 | as many attempts to connect as the pool's size, and each connection made is in the queue |
| ConnectionPool.ConnectionPool.Acquire | src/db/connection_pool.cpp:47-63 | it waits exactly while the queue is empty; otherwise the head of the queue, or its replacement, goes to one new handle; on the exception one connection is lost and no owner changes |
| ConnectionPool.ConnectionPool.AcquireWithTimeout | src/db/connection_pool.cpp:65-82 | the same with an empty handle on timeout and a handle on nothing when the replacement fails |
| ConnectionPool.ConnectionHandle.Move | src/db/connection_pool.cpp:106-111 | move construction keeps one owner per connection and empties the source |
| ConnectionPool.ConnectionHandle.Assign | src/db/connection_pool.cpp:113-126 | so does move assignment; an overwritten connection goes back to the queue; assigning a handle to itself changes nothing |
| ConnectionPool.ConnectionHandle.Destroy | src/db/connection_pool.cpp:100-104 | a destroyed handle's connection is back in the queue |
| LockManager.LockManager.GetOrCreate | src/lock/lock_manager.cpp:4-13 | inside the registry and out again: a name keeps the mutex it was first given; no hold changes |
| LockManager.LockManager.AcquireShared | src/lock/lock_manager.cpp:15-17 | one reader more, or waiting exactly while a writer holds the table, with the registry given back either way |
| LockManager.LockManager.ReleaseExclusive | src/lock/lock_manager.cpp:32-39 | the table is free and so is the registry, also when the name is unknown |
| LockManager.LockManager.TryAcquireExclusive | src/lock/lock_manager.cpp:41-51 | with others locking and unlocking between the looks, and looks that fail spuriously: success is holding the table exclusively after a look that found nobody; without it every look found somebody or failed spuriously, and the looks went on, one every sleep, until the deadline |
| PgClient.Database.DropTable | src/db/pg_client.cpp:148-188 | though three DELETEs of a purge go unchecked, success means all of them worked, because a failure aborts the transaction |
| PgClient.Database.UpdateTableSchema | src/db/pg_client.cpp:98-132 | success is the new schema with its history row; without faults it succeeds iff the table is live |
| PgClient.Database.QueryPartitionsPaged | src/db/pg_client.cpp:276-327 | the rows fetched are the page the statement means, by position in the full answer, and never more than the page size |
| PgClient.Database.InsertPartition | src/db/pg_client.cpp:329-362 | success is one more row, live, under a new id, with the snapshot and each column as given, and empty statistics stored as "{}" |
| PartitionRegistry.PartitionRegistry.InsertRows | src/catalog/partition_registry.cpp:117-122 | the loop inserts the request's rows in order, column by column, with ascending new ids, and stops at the first failure |
| PartitionRegistry.PartitionRegistry.MarkKeys | src/catalog/partition_registry.cpp:124-129 | marking key by key is marking all keys at once |
| PartitionRegistry.PartitionRegistry.TryCommit | src/catalog/partition_registry.cpp:96-136 | wherever a statement fails no row, log entry or root has changed; success publishes exactly the request, and no statement of the transaction has failed; without faults it succeeds iff the table is live and the parent is its pointer |
| PartitionRegistry.PartitionRegistry.CommitSnapshot | src/catalog/partition_registry.cpp:87-145 | the same from call to return; success is the request in the columns of the tables and for a reader of the new snapshot, and every key of the table is gone from the cache and every key out of the prefix's reach found as before; otherwise cache and rows are untouched; the cache is current, the connection back and no transaction open; it waits exactly while there is no connection, and nothing has happened then |
| PartitionRegistry.CurrentAfterCommit | src/catalog/partition_registry.cpp:138-138 | after a commit and its invalidation every remaining cached value is current |
| PartitionRegistry.OutcomeOk | src/catalog/partition_registry.cpp:87-145 | either outcome of a commit leaves a store whose reads replay its log |
| PartitionRegistry.PartitionRegistry.GetPartitions | src/catalog/partition_registry.cpp:10-37 | a cached read answers what the query would answer now at the snapshot wanted, or the counter, or the pointer; the live rows for the latest snapshot under the condition on the counter, no rows when the SELECT of the pointer failed; an answer is cached afterwards; it waits exactly when there is no connection and it must ask for the pointer or misses |
| PartitionRegistry.PartitionRegistry.GetPartitionsPaged | src/catalog/partition_registry.cpp:39-57 | a paged read answers its page of the resolved snapshot, by position and never more than the page size; the empty page when the SELECT of the pointer failed; it always needs a connection |
| PartitionRegistry.PartitionRegistry.GetStats | src/catalog/partition_registry.cpp:59-85 | count, row total, byte total and average of the rows at the resolved snapshot, of the live rows under the condition on the counter; zeros for no table, a failed statement or a failed SELECT of the pointer |
| PartitionRegistry.PartitionRegistry.AddUp | src/catalog/partition_registry.cpp:73-83 | the count is the number of rows, the two totals are the sums of row counts and of sizes, row by row, and the average is bytes by count, rounded towards zero |
| Statistics.Quotient | src/catalog/partition_registry.cpp:81-83 | division that rounds towards zero, for negative totals too |
| Statistics.StatsAcrossCommit | src/catalog/partition_registry.cpp:59-85 | across a commit the totals change by exactly the added minus the removed rows |
| Requests.TotalsAcrossCommit | src/catalog/partition_registry.cpp:59-85 | across a commit count, row total and byte total change by those of the request's partitions less those of the rows whose key it deletes |
| Requests.OneMorePartition | src/catalog/partition_registry.cpp:73-83 | a commit of one partition that deletes nothing raises them by one, by its row count and by its size |
| CatalogManager.CatalogManager.CreateTable | src/catalog/catalog_manager.cpp:9-26 | all or nothing; it succeeds iff no table holds the name, soft-deleted ones included, and no statement fails; then the table is live with the columns given, version 1 and an id of its own |
| CatalogManager.CatalogManager.AlterTableSchema | src/catalog/catalog_manager.cpp:35-66 | all or nothing; it succeeds iff the table is live and no statement fails; then it has the schema, the next version and its history row, and all other columns as before |
| CatalogManager.CatalogManager.RenameTable | src/catalog/catalog_manager.cpp:68-83 | all or nothing; it succeeds iff no statement fails and the table is missing, keeps its name, or takes a free one; then it is live under its new name only, with all its columns and every read, and a missing one leaves everything alone |
| CatalogManager.CatalogManager.DropTable | src/catalog/catalog_manager.cpp:86-104 | all or nothing; it succeeds iff the table is live and no statement fails; then it is gone for readers, with every column kept unless purged, and all its rows purged otherwise |
| CatalogManager.OutcomeOk | src/catalog/catalog_manager.cpp:9-104 | either outcome leaves a store whose reads replay its log |
| Sequential.CommitThreadIsCommitSnapshot | src/catalog/partition_registry.cpp:87-145 | an uninterrupted commit thread, whatever its statements do, ends as commit_snapshot's contract says |
| Sequential.CatalogRepliesAreTrue | src/catalog/catalog_manager.cpp:9-104 | a catalog thread reports success exactly when its operation is possible and its statements work, and then the tables are what the operation says; otherwise every row is as it was |

## Left out

- Defaults that the handlers fill in (format "parquet", operation "append", statistics "{}", a page size of 0 for a full read): requests arrive here with them.
- More than one server process: the locks and the parent check work in one process only.
- Failure of COMMIT, crash recovery and PostgreSQL's internals: BEGIN, COMMIT and ROLLBACK are atomic, sequences only grow.
- libpq, gRPC, protobuf copying, logging, configuration, JSON text: no logic of their own.
- A cache of capacity 0: `put` then reads the last element of an empty list; capacity 1 or more is required.
- `validate_schema_change`, `list_tables`, `list_snapshots`, `filter_expr`, the unimplemented partition-spec update: little to prove.
- The database's `transactions` table: nothing else reads it.
- `hit_rate` and memory orders of atomics: atomics are sequentially consistent here.
- Integer overflow of ids, counters, sums and versions: unbounded here.
- `GetTableMetadata` as a thread: it takes the table's shared lock twice (src/server/metadata_server.cpp:52-66), so its table row and its partitions can come from two different states.
- `GetStats` and schema lookups as threads of the state machine: they are reads under one shared lock, like those modelled.
- Pool, cache and transaction-manager mutexes as states: leaves, see above.
- Fairness and writer preference of `std::shared_mutex`: a lock is granted whenever its state allows it.
- The lenient parse of a page token (`stoll` accepts a sign, blanks and trailing text): a token here is a decimal number or counts as 0.
- A row of `partitions` visible to its own open transaction before COMMIT: in the state machine the statements' effects appear at COMMIT; in the classes they appear at once to the one connection.
- ConnectionPool.ConnectionPool.Acquire: a call that waits ends by saying so; what others do while it waits, and its going on, is in the state machine.
- LockManager.LockManager.AcquireShared: likewise; the registry's own mutex is free whenever a method of the class starts, as the state machine proves that its owner never waits.
- CatalogManager.CatalogManager.RenameTable: runs on a connection and under locks that it already has, like the other three; getting them is in the state machine.
- PartitionRegistry.PartitionRegistry.CommitSnapshot: does not take the table lock itself; exclusion and interleaving are the state machine's subject, and `Sequential` ties the two.
- PartitionRegistry.PartitionRegistry.GetPartitions: likewise; and `error_msg` texts are not modelled.
- MvccManager.MVCCManager.BeginTransaction: runs its three steps uninterrupted; their interleaving is in `Transactions`.
