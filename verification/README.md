# Verification of the database connectors and the TPC-C workload

The connectors run one native worker thread per database connection. Clients leave a request in
the connection's one-slot mailbox, the worker runs it and posts a notification; a pool hands the
connections out. The benchmarks drive them with TPC-C transactions and compare the measurements
with rank tests. This project models these parts and proves what they promise.

- `SlotProtocol.dfy` is the mailbox as a state machine over the atomic steps of all submitters, the
  worker and the thread that destroys the pool; condition variables lose nothing but may wake
  spuriously. `NativePool.dfy` is the code inside the critical sections, tied to those steps.
- `FreeList.dfy` is acquire and release with all wakeups and timeouts; `SqliteExclusion.dfy` is
  SQLite's synchronous fast path beside its worker.
- `ResultChain.dfy` is the linked chain through which a multi-read hands over its results, with a
  ledger of what became of each result; `PipelineDrain.dfy` is the pipeline path. libpq is a
  sequence of results that is busy exactly when the next call would block.
- `SqlJoin.dfy` is the joining of statements into one text, `SqlSplit.dfy` how SQLite's tokenizer takes
  the text apart again, and `SqliteMultiRead.dfy` the loop that runs it and the chain of its results.
- `Deadline.dfy`, `SqliteResult.dfy`, `MysqlRowCache.dfy` and `BsonSlicer.dfy` are the time slices of
  the wait loops, the materialised SQLite result, the one-row cache of a MySQL result and the
  slicing of an `insert_many` blob.
- `Tpcc.dfy` holds the tables as maps, money in cents, and the transactions as functions;
  `TpccDrivers.dfy` holds the drivers' methods, one statement at a time on a connection that may be
  lost at any of them. `TpccConsistency.dfy`, `TpccCounts.dfy`, `TpccStock.dfy`, `TpccCommits.dfy` and
  `TpccReadFirst.dfy` prove the consistency conditions of the TPC-C Standard Specification, Revision
  5.11, the customers' counters, the stock arithmetic, when a transaction commits, and the relation
  between the PostgreSQL and the MySQL driver. `Sums.dfy` sums over maps.
- `MidRanks.dfy` and `ExactTest.dfy` are the Mann-Whitney tests, in doubled integers.
- `Results.dfy` holds the option type.

`dafny verify dfyconfig.toml` checks the whole project.

## Findings

- A Payment for an existing warehouse and a missing district commits (an UPDATE of no row is no
  error) and breaks W_YTD = sum of D_YTD; this is the only way in which a transaction breaks a
  condition (`TpccConsistency.PaymentKeepsConsistency`).
- The MySQL driver's NewOrder loses stock updates exactly when two lines of an order name the same
  stock row (`TpccReadFirst.SameDatabaseExactlyWhenDistinct`).
- A statement that leaves a comment open swallows the ';' that the join puts behind it, and with it
  the next statement, if there is one (`SqlSplit.JoinedStatementsComeApart`). The comment above the
  join does not mention this.
- A multi-read on a connection that has lost its socket fails before it frees what an earlier multi-read
  has left, and the next poll hands out those stale results
  (`ResultChain.Conn.ExecuteMultiRead`, `ResultChain.StaleResultIsPolled`). The comment in that place
  says that a connection reused without release must not accumulate stale results.
- The free list relies on `pthread_cond_timedwait` not reporting a timeout to a client that has
  consumed a signal (`FreeList.SignalledTimeoutStrandsASleeper`).
- The pipeline path acknowledges success also when a statement failed
  (`PipelineDrain.ExecutePipeline`).
- The exact rank test answers p = 0 exactly when the tied pairs within the first sample outnumber the
  pairs in which it does not have the larger value, as for [2, 2] and [0, 1]
  (`ExactTest.MannWhitneyExact`, `ExactTest.TwoEqualValues`); its documentation assumes that there
  are no ties.
- The comment on the worker's snapshot says that the slot stays filled until the notification is
  posted; the code clears it first, as a later comment explains, and the model follows the code.

## Model

| member | source | states |
|---|---|---|
| `SlotProtocol.EachAcceptedIsPostedOnceInOrder` | packages/dart_db_connector/native/c/src/native_pool_worker.c:564-636 | In every state of every interleaving the accepted requests are, in acceptance order, the posted ones, then the one in the worker's hands, then the one in the slot; at most two are outstanding, and the k-th notification goes to the port of the k-th accepted request after a run of the path its entry point asked for |
| `SlotProtocol.EachNotificationReportsItsRun` | packages/dart_db_connector/native/c/src/native_pool_worker.c:595-636 | In every run, with its steps: the notifications posted are the runs that have ended, in order, each with the job that was executed and the status its execution path returned, without the one run not yet posted |
| `SlotProtocol.FlagsNameTheEntryPoint` | packages/dart_db_connector/native/c/src/native_pool.c:46-75 | Although each submit writes only some of the mode flags, a cleared slot plus one submit always dispatches to the entry point's own execution path with its own payload |
| `SlotProtocol.NoLostWakeup` | packages/dart_db_connector/native/c/src/native_pool_worker.c:566-575 | A sleeping worker implies an empty slot and a destroyer whose signal is still to come; a filled slot always leaves the worker a step to take |
| `SlotProtocol.ExitDrains` | packages/dart_db_connector/native/c/src/native_pool_worker.c:571-575 | Once the worker has exited the slot is empty, everything accepted has been posted, and nothing is accepted or posted from then on |
| `SlotProtocol.ExitIsFinal` | packages/dart_db_connector/native/c/src/native_pool.c:380-412 | No step of a submitter or the destroyer revives an exited worker or gets a request accepted |
| `SlotProtocol.ShutdownIsBounded` | packages/dart_db_connector/native/c/src/native_pool.c:256-278 | After the destroyer has passed the slot's lock a measure of at most 6 bounds the worker's remaining steps: every worker step lowers it, no other step raises it, and until it is 0 the worker has a step to take |
| `SlotProtocol.DrainedClientIsNeverBusy` | packages/dart_db_connector/native/c/src/native_pool_worker.c:613-636 | A client whose notifications have all arrived is never refused as busy |
| `SlotProtocol.RefusedExactlyWhenBusyOrShutDown` | packages/dart_db_connector/native/c/src/native_pool.c:380-385 | A request is turned away, and nothing else happens, exactly if the slot is filled or shutdown has been asked for |
| `SlotProtocol.PostFirstRefusesADrainedClient` | packages/dart_db_connector/native/c/src/native_pool_worker.c:612-622 | With the opposite order, post before clear, there is a run in which a fully notified client is refused although no shutdown is under way |
| `SlotProtocol.InvHolds` | packages/dart_db_connector/native/c/src/native_pool_worker.c:561-636 | The control invariant and the ledger of accepted and posted requests hold in every state of every run |
| `SlotProtocol.ControlIsPreserved` | packages/dart_db_connector/native/c/src/native_pool.c:371-414 | Every atomic step of every thread keeps the invariant on lock, slot, worker and destroyer, including the steps that fall between the test of the shutdown flag and the wait |
| `SlotProtocol.LedgerIsPreserved` | packages/dart_db_connector/native/c/src/native_pool_worker.c:612-635 | Every step keeps: accepted == posted ++ in hand ++ in slot |
| `NativePool.NativeConn.SubmitLocked` | packages/dart_db_connector/native/c/src/native_pool.c:371-414 | Succeeds exactly when the arguments are complete, the slot is free, no shutdown is requested and all copies can be allocated; then the slot is filled as the protocol step says, else nothing changes |
| `NativePool.NativeConn.PoolSubmitQuery` | packages/dart_db_connector/native/c/src/native_pool.c:416-422 | The slot after a query submit is the protocol's; refusals leave it untouched |
| `NativePool.NativeConn.PoolSubmitPipeline` | packages/dart_db_connector/native/c/src/native_pool.c:424-430 | Likewise for a pipeline of statements |
| `NativePool.NativeConn.PoolSubmitMultiRead` | packages/dart_db_connector/native/c/src/native_pool.c:432-438 | Likewise for a multi-read |
| `NativePool.NativeConn.PoolSubmitQueryParams` | packages/dart_db_connector/native/c/src/native_pool.c:445-562 | Succeeds exactly when the arguments are complete, no binary value has a negative length, the slot is free, no shutdown is requested and the statement, four arrays and one buffer for each non-NULL value can be allocated; the slot then holds for each parameter its own length and format, its type or zero without types, and its value: text whole, the announced bytes of a binary, NULL as it is |
| `NativePool.CopyParams` | packages/dart_db_connector/native/c/src/native_pool.c:493-542 | All parameters are copied, or none is kept as soon as one allocation fails |
| `NativePool.NativeConn.FreeSlotPayload` | packages/dart_db_connector/native/c/src/native_pool.c:46-75 | Resets every slot field but the filled flag to its initial value |
| `NativePool.NativeConn.TakeJob` | packages/dart_db_connector/native/c/src/native_pool_worker.c:577-611 | The snapshot and the chain of flag tests are the protocol's dispatch |
| `NativePool.NativeConn.ClearSlot` | packages/dart_db_connector/native/c/src/native_pool_worker.c:625-629 | Leaves exactly the empty slot of the protocol |
| `NativePool.NativeConn.InitConn` | packages/dart_db_connector/native/c/src/native_pool.c:116-173 | A new connection starts in the protocol's empty slot |
| `FreeList.EachConnectionHasOneOwner` | packages/dart_db_connector/native/c/src/native_pool.c:297-363 | In every run, under barging, spurious wakeups and timeouts: no two clients hold the same connection, a connection is marked in use exactly if someone holds it, and free plus held is the size of the pool |
| `FreeList.SleepersAreServed` | packages/dart_db_connector/native/c/src/native_pool.c:315-363 | While a client sleeps and the pool is not shutting down, the free connections are no more than the woken clients that have yet to scan, and the next of these to scan gets a connection |
| `FreeList.ScanOutcome` | packages/dart_db_connector/native/c/src/native_pool.c:315-346 | A round of the scan ends with the lowest free connection if there is one; else a probe gives up and only a client that may block goes to sleep; during shutdown every client gives up; nothing else changes |
| `FreeList.ReleaseOutcome` | packages/dart_db_connector/native/c/src/native_pool.c:359-362 | A release gives its connection back, wakes a sleeper if there is one, and touches nobody else |
| `FreeList.ShutdownIsFinal` | packages/dart_db_connector/native/c/src/native_pool.c:299-319 | Once shutdown has begun nobody enters, and whoever holds a connection held it before |
| `FreeList.SignalledTimeoutStrandsASleeper` | packages/dart_db_connector/native/c/src/native_pool.c:336-346 | The result needs the assumption on condition variables: a run exists after which a signalled client that reported a timeout would leave a sleeper beside a free connection |
| `FreeList.OwnershipIsPreserved` | packages/dart_db_connector/native/c/src/native_pool.c:315-363 | Every acquire, release, wakeup and timeout keeps: holders hold distinct connections that are in use, and every connection in use is held |
| `FreeList.CoveredIsPreserved` | packages/dart_db_connector/native/c/src/native_pool.c:330-363 | Every step keeps the cover of free connections by woken clients |
| `FreeList.InvariantsHold` | packages/dart_db_connector/native/c/src/native_pool.c:297-363 | Both invariants hold in every state of every run, and the pool keeps its size |
| `FreeList.FirstFree` | packages/dart_db_connector/native/c/src/native_pool.c:321-328 | The connection taken is the lowest free one; none only if all are in use |
| `FreeList.Pool.TryTake` | packages/dart_db_connector/native/c/src/native_pool.c:321-328 | The scan takes the lowest free connection and marks it, or changes nothing |
| `FreeList.Pool.Release` | packages/dart_db_connector/native/c/src/native_pool.c:360-360 | Frees that connection and no other; the signal behind it is the second half of the protocol's Release step |
| `SqliteExclusion.HandleIsExclusive` | packages/dart_db_connector/native/c/src/sqlite_pool.c:313-330 | In every interleaving of submit, synchronous execution, worker and destroyer at most one thread is inside SQLite on the handle: the worker only with the slot filled, a synchronous client only with the mutex held and the slot empty, the destroyer only when nobody can enter again |
| `SqliteExclusion.FilledSlotHasAnAwakeWorker` | packages/dart_db_connector/native/c/src/sqlite_pool_worker.c:220-250 | Whenever a request is in the slot the worker is awake and the mutex is free for it, also when it was submitted right after a synchronous query |
| `SqliteExclusion.RefusedExactlyWhenBusyOrShutDown` | packages/dart_db_connector/native/c/src/sqlite_pool.c:320-325 | The fast path turns a client away, and the submit likewise, exactly if a request is in the slot or shutdown has been asked for |
| `SqliteExclusion.EachRequestIsRunOnce` | packages/dart_db_connector/native/c/src/sqlite_pool_worker.c:217-253 | In every run, with its steps: the accepted requests are the ones the worker has run and the one in the slot not yet run, and the ones run are the ones posted and the one in the worker's hands |
| `SqliteExclusion.FastPathIsReachable` | packages/dart_db_connector/native/c/src/sqlite_pool.c:318-330 | Any client can get onto the fast path |
| `SqliteExclusion.MutexAloneIsNotEnough` | packages/dart_db_connector/native/c/src/sqlite_pool.c:320-324 | Without the test of the slot under the mutex there is a run with the worker and a client inside SQLite together |
| `SqliteExclusion.InvHolds` | packages/dart_db_connector/native/c/src/sqlite_pool_worker.c:217-253 | The invariant behind the exclusion holds in every state of every run |
| `ResultChain.Conn.ExecuteMultiRead` | packages/dart_db_connector/native/c/src/native_pool_worker.c:476-555 | From any chain: success leaves the chain equal to the server's whole result sequence in order and the connection idle. Failure empties the chain, unless the connection has no socket: then the chain is left as it was, so that it is empty if and only if it was empty before or there was a socket. However it ends, every result that left libpq was pulled, and after a failure with a socket each result pulled has been returned or cleared once. A calm environment with a socket always ends in success |
| `ResultChain.StaleResultIsPolled` | packages/dart_db_connector/native/c/src/native_pool_worker.c:481-487 | A run from a new connection in which a multi-read fails for want of a socket and the next poll hands out a result of the multi-read before it |
| `ResultChain.Conn.DrainRound` | packages/dart_db_connector/native/c/src/native_pool_worker.c:508-552 | A round pulls a result only when libpq would not block, and brings the end of the loop closer; on every outcome what was pulled and what is still queued are together unchanged; a failed round has cleared everything that had not been returned or cleared |
| `ResultChain.Conn.PollResult` | packages/dart_db_connector/native/c/src/native_pool.c:581-598 | Hands over the head of the chain, or what libpq still holds, exactly once |
| `ResultChain.Conn.Drain` | packages/dart_db_connector/native/c/src/native_pool.c:581-598 | Repeated polling after a multi-read returns exactly the chain, in order, then NULL; afterwards every result ever pulled has been returned or cleared once |
| `ResultChain.Conn.Release` | packages/dart_db_connector/native/c/src/native_pool.c:351-357 | Clears the leftovers; every result ever pulled has then met exactly one fate |
| `ResultChain.Conn.FreeResultChain` | packages/dart_db_connector/native/c/src/native_pool.c:85-95 | Clears each result of the chain once, in order, and empties it |
| `ResultChain.Conn.ChainAppend` | packages/dart_db_connector/native/c/src/native_pool.c:97-111 | Appends at the tail of the linked list, or changes nothing without memory |
| `ResultChain.Conn.Keep` | packages/dart_db_connector/native/c/src/native_pool_worker.c:544-549 | A result that cannot be appended is cleared together with the whole chain |
| `PipelineDrain.AnswerHasOneResultEach` | packages/dart_db_connector/native/c/src/native_pool_worker.c:324-332 | Wherever the first failure is, the server's answer to n queries and a sync has n + 1 non-NULL results and the sync is the last |
| `PipelineDrain.EachQueryHasItsOutcome` | packages/dart_db_connector/native/c/src/native_pool_worker.c:324-332 | The results are in the order of the queries, complete before the first failure and skipped behind it |
| `PipelineDrain.Drain` | packages/dart_db_connector/native/c/src/native_pool_worker.c:285-333 | Counting the non-NULL results pulls the whole answer, never blocks, never reads past the sync, and ends in a calm environment |
| `PipelineDrain.ExecutePipeline` | packages/dart_db_connector/native/c/src/native_pool_worker.c:242-352 | Success means that all of the answer was pulled and the connection has left pipeline mode; it does not mean that the statements succeeded. Unless the ROLLBACK itself fails, a failed statement then leaves no transaction at all, and an open transaction is left alone |
| `Deadline.ComputeDeadline` | packages/dart_db_connector/native/c/src/native_pool_worker.c:46-54 | The deadline is exactly the timeout after now, in normal form |
| `Deadline.MsUntilIsClose` | packages/dart_db_connector/native/c/src/native_pool_worker.c:58-64 | With C's truncating division the answer is off by strictly less than a millisecond: down when the deadline's nanoseconds are the larger, up when they are the smaller |
| `Deadline.SlicesRespectTheDeadline` | packages/dart_db_connector/native/c/src/native_pool_worker.c:70-86 | A slice lasts 1 to 1000 ms, starts before the deadline and ends less than 1 ms after it; there is none only with less than 1 ms to go |
| `Deadline.NextSelectTv` | packages/dart_db_connector/native/c/src/native_pool_worker.c:70-86 | The branches compute that slice, or report expiry |
| `Deadline.TickBringsTheBoundDown` | packages/dart_db_connector/native/c/src/native_pool_worker.c:514-532 | Each slice that runs out lowers the bound on the remaining idle ticks |
| `Deadline.IdleWait` | packages/dart_db_connector/native/c/src/native_pool_worker.c:507-532 | When nothing arrives and no shutdown comes first, the wait ends by the timeout, less than 1 ms early; in any case after at most timeout/1000 + 2 idle ticks, and every slice keeps within the deadline |
| `SqlJoin.SqliteJoin` | packages/dart_db_connector/native/c/src/sqlite_pool.c:43-60 | All writes stay in the buffer, which ends up holding each statement followed by ';' and the NUL, filled to the last byte; NULL exactly if a statement is missing |
| `SqlJoin.MysqlJoin` | packages/dart_db_connector/native/c/src/mysql_pool.c:368-385 | All writes stay in the buffer; it holds the statements with ';' between them and the NUL, with one byte to spare |
| `SqlJoin.NativeJoin` | packages/dart_db_connector/native/c/src/native_pool_worker.c:457-474 | All writes stay in the buffer, filled to the last byte with the statements, ';' between them, and the NUL |
| `SqlSplit.JoinedStatementsComeApart` | packages/dart_db_connector/native/c/src/sqlite_pool_worker.c:190-215 | For statements that hold a token and no ';' outside quotes and comments: SQLite finds exactly those statements in the joined text, in order, if and only if each but the last closes every quote and comment it opens and the last one does not end inside a quote; the parentheses of a parameter are a quote |
| `SqlSplit.QuotesHide` | packages/dart_db_connector/native/c/src/sqlite_pool_worker.c:199-206 | A quoted text of any of the four kinds between ordinary texts makes one closed statement, whatever ';' and comment signs are in the quote |
| `SqlSplit.CommentsHide` | packages/dart_db_connector/native/c/src/sqlite_pool_worker.c:199-206 | So does a closed comment of either kind behind the first token |
| `SqlSplit.ParametersHide` | packages/dart_db_connector/native/c/src/sqlite_pool_worker.c:199-206 | and the parentheses of a parameter, with any name, also one in which `::` or a single `:` stands |
| `SqlSplit.ParametersEnd` | packages/dart_db_connector/native/c/src/sqlite_pool_worker.c:199-206 | A parameter without parentheses ends with its name: a quote right behind it hides its text as anywhere else |
| `SqlSplit.NamelessParameter` | packages/dart_db_connector/native/c/src/sqlite_pool_worker.c:199-206 | Without a name there are no parentheses to a parameter, and the ';' behind an opening one ends the command |
| `SqlSplit.SemicolonEnds` | packages/dart_db_connector/native/c/src/sqlite_pool_worker.c:199-206 | Outside all of these the first ';' ends the command |
| `SqlSplit.FirstCommand` | packages/dart_db_connector/native/c/src/sqlite_pool_worker.c:199-206 | A closed statement followed by ';' is found alone, and the rest is taken apart as if it stood alone; one that ends inside a comment either is all that is left of the text or takes more with it; one that ends inside a quote always does |
| `SqlSplit.LastCommand` | packages/dart_db_connector/native/c/src/sqlite_pool_worker.c:199-206 | An open comment in the last statement does no harm: the ';' it swallows is the last one |
| `SqlSplit.BlankStatementIsPassedOver` | packages/dart_db_connector/native/c/src/sqlite_pool_worker.c:199-206 | A statement of white space and closed comments is passed over together with its ';': a ';' without a token before it ends no command |
| `SqlSplit.CommentSwallowsTheRest` | packages/dart_db_connector/native/c/src/sqlite_pool.c:53-57 | A statement that ends inside a line comment swallows its separator and every later statement on the line, and none of them is run |
| `SqlSplit.CommentSwallowsTheNextStatement` | packages/dart_db_connector/native/c/src/sqlite_pool.c:53-57 | A concrete pair of statements of which only the first is run |
| `SqliteMultiRead.JoinedStatementsRunInOrder` | packages/dart_db_connector/native/c/src/sqlite_pool_worker.c:190-215 | Running the joined text of statements that come apart is running the statements, each on the database the one before has left, with one result for each |
| `SqliteMultiRead.EachCommandHasItsResult` | packages/dart_db_connector/native/c/src/sqlite_pool_worker.c:200-213 | There are results exactly if every command succeeds on the database on which it runs, and then result i is the one of command i |
| `SqliteMultiRead.BuildChain` | packages/dart_db_connector/native/c/src/sqlite_pool_worker.c:190-213 | The loop terminates because the cursor strictly advances, runs every command of the text in turn, and links the results in order; after an error the whole partial chain, exactly the results obtained so far, has been freed |
| `SqliteMultiRead.ExecuteMultiRead` | packages/dart_db_connector/native/c/src/sqlite_pool_worker.c:190-215 | Success replaces the connection's chain by the results in order; after an error the connection keeps what it had |
| `SqliteMultiRead.SubmitRunAndPoll` | packages/dart_db_connector/native/c/src/sqlite_pool.c:270-311 | The whole way of statements that come apart: joined, run and polled for, the i-th poll answers the result of the i-th statement on the database those before it have left, and nothing remains; it fails exactly if one of the statements fails there |
| `SqliteMultiRead.Prepare` | packages/dart_db_connector/native/c/src/sqlite_pool_worker.c:199-206 | The contract of the library: the next command is taken, blank ones before it are passed over, and the tail pointer is left behind the ';' that ended it, strictly further on; without a token left there is no command and the tail is the end of the text |
| `SqliteMultiRead.FreeResultChain` | packages/dart_db_connector/native/c/src/sqlite_pool_worker.c:148-154 | Frees each node of the chain once, in order |
| `SqliteMultiRead.LinkBehind` | packages/dart_db_connector/native/c/src/sqlite_pool_worker.c:209-210 | Appends at the tail of the linked list |
| `SqliteMultiRead.Conn.PollResult` | packages/dart_db_connector/native/c/src/sqlite_pool.c:304-311 | Hands over the first result of the chain and advances it, or answers NULL when it is empty |
| `SqliteMultiRead.Conn.Poll` | packages/dart_db_connector/native/c/src/sqlite_pool.c:304-311 | Any number of polls returns exactly the results in order, each once, and NULL ever after |
| `SqliteResult.Materialize` | packages/dart_db_connector/native/c/src/sqlite_pool_worker.c:54-145 | Yields a table with exactly the statement's rows, column names and change count if and only if the statement ends well, the table can be allocated and the rows fit into the doublings the memory allows; rows never exceed the capacity, and all the doublings together move at most two rows per row stored |
| `SqliteResult.CopyRow` | packages/dart_db_connector/native/c/src/sqlite_pool_worker.c:85-106 | Each column of the row under the cursor lands at its row-major index in all three arrays with its type, length and bytes |
| `SqliteResult.FlatAt` | packages/dart_db_connector/native/c/src/native_sqlite.c:42-44 | Cell (row, col) of any rectangular row list lies at row * columns + col |
| `SqliteResult.CellType` | packages/dart_db_connector/native/c/src/native_sqlite.c:51-54 | The code of the stepped type for every cell in range (1 integer, 2 float, 3 text, 4 blob, 5 NULL), 5 everywhere else and for a null table |
| `SqliteResult.RawValue` | packages/dart_db_connector/native/c/src/native_sqlite.c:56-60 | The stepped bytes for every cell in range, no bytes for SQL NULL, everywhere else and for a null table |
| `SqliteResult.RawLength` | packages/dart_db_connector/native/c/src/native_sqlite.c:62-65 | The number of those bytes in range, 0 elsewhere |
| `SqliteResult.ColName` | packages/dart_db_connector/native/c/src/native_sqlite.c:36-40 | The name of a column in range, NULL elsewhere and for a null table |
| `MysqlRowCache.CachedResult.ReadAll` | packages/dart_db_connector/native/c/src/native_mysql.c:74-99 | Any sequence of value and length reads, in and out of range, is answered as by the table itself; the fetches are exactly the reads of an existing row other than the last existing row read |
| `MysqlRowCache.CachedResult.EnsureRow` | packages/dart_db_connector/native/c/src/native_mysql.c:74-84 | Succeeds exactly for existing rows, and fetches exactly if that row is not the cached one |
| `MysqlRowCache.CachedResult.RawValue` | packages/dart_db_connector/native/c/src/native_mysql.c:86-92 | The table's own cell, or NULL out of range |
| `MysqlRowCache.CachedResult.RawLength` | packages/dart_db_connector/native/c/src/native_mysql.c:94-99 | The length of the table's own cell as a C int, 0 for SQL NULL and out of range |
| `MysqlRowCache.AsInt` | packages/dart_db_connector/native/c/src/native_mysql.c:98-98 | The conversion to int wraps around at 32 bits, and is exact if and only if the length is below 2 GiB |
| `MysqlRowCache.ForwardReadersFetchEachRowOnce` | packages/dart_db_connector/native/c/src/native_mysql.c:77-84 | A reader that never goes back to an earlier row fetches each row it reads exactly once, whatever else it asks in between |
| `BsonSlicer.SlicesExactly` | packages/dart_db_connector/native/c/src/mongo_pool_worker.c:177-200 | The slicer accepts exactly if the blob is the concatenation of exactly the announced number of well-formed documents, and answers exactly those |
| `BsonSlicer.DecompositionIsUnique` | packages/dart_db_connector/native/c/src/mongo_pool_worker.c:177-193 | A blob has at most one decomposition into well-formed documents, whatever their number |
| `BsonSlicer.SlicingUndoesConcatenation` | packages/dart_db_connector/native/c/src/mongo_pool_worker.c:177-200 | Slicing the concatenation of documents gives them back, and with any other announced count nothing is accepted |
| `BsonSlicer.PrefixIsLittleEndian` | packages/dart_db_connector/native/c/src/mongo_pool_worker.c:184-185 | The length prefix is the signed little-endian number of its four bytes, by division and remainder |
| `BsonSlicer.WellFormedDocuments` | packages/dart_db_connector/native/c/src/mongo_pool_worker.c:184-189 | The well-formed documents are exactly those a serialiser builds: the length in four little-endian bytes, the body, a zero byte |
| `BsonSlicer.SerialisedDocumentsComeBack` | packages/dart_db_connector/native/c/src/mongo_pool_worker.c:177-200 | Documents serialised from any bodies and concatenated are sliced back into themselves |
| `BsonSlicer.EmptyDocument` | packages/dart_db_connector/native/c/src/mongo_pool_worker.c:182-193 | The five bytes 5, 0, 0, 0, 0 are one empty document |
| `BsonSlicer.DocumentsFit` | packages/dart_db_connector/native/c/src/mongo_pool_worker.c:182-192 | The first document of a batch lies where its own length prefix says, and the rest of the blob is the rest of the batch |
| `BsonSlicer.SliceBlob` | packages/dart_db_connector/native/c/src/mongo_pool_worker.c:177-200 | The loop with its offset and validity flag computes that slicing, and never reads outside the blob |
| `MidRanks.RankSumFormIsPairCount` | benchmarks/docker/aggregate-http.py:46-56 | For all samples with any ties, and for any order of the pool: the rank sum of the first sample by midranks, less n1(n1+1)/2, is #{x>y} + #{x=y}/2 |
| `MidRanks.RanksAddUp` | benchmarks/docker/aggregate-http.py:49-55 | The midranks of N observations always sum to N(N+1)/2 |
| `MidRanks.UIsSymmetric` | benchmarks/docker/aggregate-http.py:56-56 | The reported U does not change when the samples are swapped |
| `MidRanks.PairsOfBothSides` | benchmarks/docker/aggregate-http.py:56-56 | The two pair counts always add up to n1*n2 |
| `MidRanks.BlockRank` | benchmarks/docker/aggregate-http.py:52-53 | In an ordered pool the block formula (i+j)/2+1 is the midrank: one for each smaller value and half for each equal one |
| `MidRanks.Midranks` | benchmarks/docker/aggregate-http.py:50-55 | The two nested loops fill every position with its midrank |
| `MidRanks.FirstRankSum` | benchmarks/docker/aggregate-http.py:56-56 | The generator's sum is the rank sum of the first sample |
| `MidRanks.Mw` | benchmarks/docker/aggregate-http.py:46-56 | U is the smaller of the two pair counts, for all samples; no answer exactly if one of them is empty |
| `ExactTest.PValueIsSymmetric` | benchmarks/docker/aggregate-driver.py:128-152 | Swapping the samples changes neither the number of extreme rank assignments nor their total, so p(a,b) = p(b,a) |
| `ExactTest.PValueIsAProbability` | benchmarks/docker/aggregate-driver.py:143-152 | Without ties at least one assignment is extreme, the observed one, and never more than all: p is in (0,1] |
| `ExactTest.ComplementsAreAsExtreme` | benchmarks/docker/aggregate-driver.py:143-150 | The complement bijection: k-subsets and their complements are equally often at least a given distance from their means |
| `ExactTest.CombinationsAreTheSubsets` | benchmarks/docker/aggregate-driver.py:146-146 | The enumeration holds exactly the ascending k-subsets of the ranks |
| `ExactTest.CombinationsAreDistinct` | benchmarks/docker/aggregate-driver.py:146-146 | and each of them once |
| `ExactTest.ObservedIsASplit` | benchmarks/docker/aggregate-driver.py:133-137 | The ranks of the first sample are one of the enumerated assignments, and their sum is the pair count plus n1(n1+1)/2 |
| `ExactTest.RankIsPosition` | benchmarks/docker/aggregate-driver.py:133-136 | Without ties the position in the sorted pool is the midrank |
| `ExactTest.ToleranceIsHarmless` | benchmarks/docker/aggregate-driver.py:145-149 | The comparison with the slack of 1e-9 is the exact integer comparison of doubled values |
| `ExactTest.RankTable` | benchmarks/docker/aggregate-driver.py:133-136 | The dictionary maps every observation to the position of the last one equal to it, with ties or without |
| `ExactTest.CountExtremes` | benchmarks/docker/aggregate-driver.py:140-150 | The loop counts all assignments and exactly the extreme ones |
| `ExactTest.MannWhitneyExact` | benchmarks/docker/aggregate-driver.py:128-152 | For all samples: p is the fraction of assignments at least as extreme as the rank sum the dictionary gives, it lies in [0,1], and it is above zero if and only if the tied pairs within the first sample are no more than the pairs in which it does not have the larger value; U is determined by these two counts. Without ties U and p are those of the exact test |
| `ExactTest.ObservedCountsTies` | benchmarks/docker/aggregate-driver.py:133-137 | For all samples: the dictionary's rank sum less n1(n1+1)/2 is the number of pairs in which the first sample is larger plus the tied pairs within it; ties between the samples count nothing |
| `ExactTest.LastRankCounts` | benchmarks/docker/aggregate-driver.py:133-136 | The rank in the dictionary is the number of observations at or before one in the sorted pool |
| `ExactTest.ExactP` | benchmarks/docker/aggregate-driver.py:140-152 | The enumeration and the quotient give that fraction for any observed rank sum |
| `ExactTest.SomeSplitIsExtreme` | benchmarks/docker/aggregate-driver.py:145-150 | Some assignment of ranks lies at least a given distance from the mean if and only if the distance is at most n1*n2/2 |
| `ExactTest.ObservedIsPairCount` | benchmarks/docker/aggregate-driver.py:133-137 | Without ties the dictionary's rank sum is the pair count plus n1(n1+1)/2 |
| `ExactTest.TwoEqualValues` | benchmarks/docker/aggregate-driver.py:134-152 | The samples [2, 2] and [0, 1] are given p = 0 |
| `TpccConsistency.EveryRunIsConsistent` | benchmarks/drivers/go/transactions.go:46-316 | After every serial run of NewOrder, Payment and Delivery from the seeded database the conditions of Clauses 3.3.2.1 to 3.3.2.10 and 3.3.2.12 hold, as long as no Payment misses its district |
| `TpccConsistency.SeedIsConsistent` | benchmarks/harness-dart/fixtures/tpcc_seed.dart:151-213 | The seeded database satisfies every condition |
| `TpccConsistency.PaymentKeepsConsistency` | benchmarks/drivers/go/transactions.go:158-210 | A committed Payment keeps the conditions if and only if it does not pay a non-zero amount into an existing warehouse for a district it does not have |
| `TpccConsistency.MissedDistrictBreaksTheRun` | benchmarks/drivers/go/transactions.go:172-177 | From the seeded database one such Payment is enough to break a condition |
| `TpccConsistency.EverySeedCanBeBroken` | benchmarks/drivers/go/transactions.go:172-177 | In every seeded database one cent paid for district 11 is such a Payment: it commits and breaks a condition |
| `TpccConsistency.OneCentBreaksTheSmallSeed` | benchmarks/drivers/go/transactions.go:172-177 | A concrete seeded database and Payment that show it |
| `TpccConsistency.PaymentPays` | benchmarks/drivers/go/transactions.go:158-210 | What a committed Payment has done to every table, with the whole row of the customer who pays, and to nothing else |
| `TpccConsistency.NewOrderKeepsConsistency` | benchmarks/drivers/go/transactions.go:46-156 | A committed NewOrder keeps every condition |
| `TpccConsistency.NewOrderEnters` | benchmarks/drivers/go/transactions.go:63-153 | A committed NewOrder has taken the next id of its district, added the undelivered order with exactly the lines 1 to O_OL_CNT, and changed no other order, line or customer |
| `TpccConsistency.AddLineWrites` | benchmarks/drivers/go/transactions.go:102-153 | One line inserts exactly its row at quantity times price and updates exactly the stock row it names |
| `TpccConsistency.DeliveryKeepsConsistency` | benchmarks/drivers/go/transactions.go:248-316 | A committed Delivery keeps every condition after each of its districts |
| `TpccConsistency.DeliverOrderDelivers` | benchmarks/drivers/go/transactions.go:264-311 | Delivering an order takes it from NEW_ORDER, sets its carrier and the dates of its lines, credits its own customer with the sum of their amounts and counts the delivery, and changes nothing else |
| `TpccConsistency.DeliveredLinesGrow` | benchmarks/drivers/go/transactions.go:289-311 | The amounts of a customer's delivered lines grow by the lines of the order exactly if it is the customer's |
| `TpccConsistency.UndeliveredOrdersAreAnInterval` | benchmarks/drivers/go/transactions.go:250-262 | A district's undelivered orders are the ids from the one Delivery selects up to D_NEXT_O_ID; it selects none only if there are none |
| `TpccConsistency.DeliveryTakesTheNextOrder` | benchmarks/drivers/go/transactions.go:250-287 | Orders are delivered in creation order: a round delivers the first undelivered order of its district and no other, and the next one becomes the first |
| `TpccConsistency.SettledOrdersStay` | benchmarks/drivers/go/transactions.go:264-295 | A delivered order is never delivered again: no transaction changes it or its lines |
| `TpccConsistency.SettledForever` | benchmarks/drivers/go/transactions.go:264-295 | nor does any serial run |
| `TpccCounts.EveryRunCountsRight` | benchmarks/drivers/go/transactions.go:192-200 | After every serial run from the seed, also one that pays for missing districts, C_PAYMENT_CNT is one more than the customer's history rows and C_DELIVERY_CNT is the number of the customer's orders that have a carrier |
| `TpccCounts.DeliveryCarries` | benchmarks/drivers/go/transactions.go:281-288 | A delivery adds its order to the carried orders of its own customer and of no other |
| `TpccCommits.NewOrderCommitsExactly` | benchmarks/drivers/go/transactions.go:46-156 | A NewOrder commits if and only if district and customer are there, the next order id is free and the one after it is an int4, and for each line item and stock row are there, its number is free, its amount is a numeric(6,2) and the stock row after it and the lines before it fits its columns |
| `TpccCommits.SeededOrderCommits` | benchmarks/drivers/go/transactions.go:63-153 | From the seed an order of existing items with quantities 1 to 10 commits |
| `TpccCommits.AfterLines` | benchmarks/drivers/go/transactions.go:113-138 | After any number of lines of an order each stock row is what these lines, in turn, take from it |
| `TpccCommits.PaymentCommitsExactly` | benchmarks/drivers/go/transactions.go:158-210 | A Payment commits if and only if the amount fits the history and the sums fit those rows that are there |
| `TpccCommits.SeededPaymentCommits` | benchmarks/drivers/go/transactions.go:158-210 | From the seed every amount that is a numeric(6,2) commits |
| `TpccCommits.DeliveryCommitsExactly` | benchmarks/drivers/go/transactions.go:248-316 | A Delivery commits if and only if the oldest order of each of the ten districts has its row, the carrier is an int4, and the customer's row, if it is there, can take the amount and the count, all in the database the transaction finds |
| `TpccStock.EveryRunKeepsStock` | benchmarks/drivers/go/transactions.go:113-151 | After every serial run with line quantities 0 to 91 each stock row lies between 10 and 100, its level is 10 + ((q0 - 10 - S_YTD) mod 91), and S_YTD, S_ORDER_CNT and S_REMOTE_CNT are the quantity sum, the count and the remote count of the order lines it has supplied |
| `TpccStock.RangeKeptExactly` | benchmarks/drivers/go/transactions.go:125-128 | The replenishment rule keeps every level in [10,100] inside it exactly for quantities 0 to 91 |
| `TpccStock.LevelSteps` | benchmarks/drivers/go/transactions.go:125-128 | The rule follows the closed form for every history of quantities |
| `TpccStock.LineAdds` | benchmarks/drivers/go/transactions.go:125-151 | A line adds its own measure to the row it names and nothing to any other |
| `TpccStock.SeedAgrees` | benchmarks/harness-dart/fixtures/tpcc_seed.dart:182-184 | The seeded stock rows agree with the closed form and with having supplied nothing |
| `TpccReadFirst.SameDatabaseExactlyWhenDistinct` | benchmarks/drivers/go-mysql/transactions.go:62-138 | For an order that the interleaved NewOrder commits, reading all stock rows before the writes leaves the same database if and only if the (SupplyWID, IID) pairs are pairwise distinct; for any order, if and only if they are or both transactions fail |
| `TpccReadFirst.DistinctRowsGiveTheSameDatabase` | benchmarks/drivers/go-mysql/transactions.go:62-138 | With distinct pairs the two transactions agree for any number of lines, in success and in failure |
| `TpccReadFirst.SharedRowGivesAnotherDatabase` | benchmarks/drivers/go-mysql/transactions.go:112-128 | Any two lines that share a stock row lose an update: the row counts fewer orders than the interleaved transaction gives it |
| `TpccReadFirst.AddedLinesAreReadable` | benchmarks/drivers/go-mysql/transactions.go:69-86 | Lines that can be added one by one can also all be read beforehand |
| `TpccDrivers.Payment` | benchmarks/drivers/go/transactions.go:158-210 | Commits exactly the specified effect or leaves the database as it was, on a connection that may be lost at any statement, and commits if and only if the connection answers each of its statements and the numbers fit |
| `TpccDrivers.NewOrder` | benchmarks/drivers/go/transactions.go:46-156 | Likewise for the interleaved NewOrder, with its own condition |
| `TpccDrivers.Delivery` | benchmarks/drivers/go/transactions.go:248-316 | Likewise for Delivery, with its own condition |
| `TpccDrivers.NewOrderReadFirst` | benchmarks/drivers/go-mysql/transactions.go:41-141 | Likewise for the MySQL NewOrder; with distinct stock rows its effect is the interleaved one's |
| `TpccDrivers.NewOrderLine` | benchmarks/drivers/go/transactions.go:102-153 | The four statements of a line have the line's effect on item, stock and order line |
| `TpccDrivers.SelectOldest` | benchmarks/drivers/go/transactions.go:250-262 | The smallest undelivered id of the district, none only if there is none |
| `TpccDrivers.SelectSumAmount` | benchmarks/drivers/go/transactions.go:296-303 | The sum over the order's lines, 0 without lines |
| `TpccDrivers.CheckAllLocal` | benchmarks/drivers/go/transactions.go:80-86 | True exactly if every line is supplied by the home warehouse |

## Left out

- libpq, libmysqlclient, libmongoc, SQLite and the Dart API are modelled only by small contracts: a stream of results, a table with a cursor, a list of rows, a tokenizer.
- Connection set-up and teardown with its rollback (`pool_create`, `init_conn`), and the broadcast to waiting clients when a pool is destroyed.
- The MySQL, MongoDB and SQLite pools share the mailbox and the free list of the PostgreSQL pool; the two protocols are proved for the PostgreSQL code, SQLite's exclusion for its own.
- The MySQL worker's batch and multi-read and the MongoDB worker's find: they build and free the same kind of linked chain as the PostgreSQL worker; the drivers other than the Go ones for PostgreSQL and MySQL.
- `poll_result` reads the SQLite result without the mutex; that a client polls only after its notification is its own contract, like not releasing twice and not using a destroyed pool.
- `execute_single`, `execute_single_params` and `flush_outgoing` appear only as outcomes: they wait before they test for input, so they promise no progress.
- Memory handling below the level of results: double frees of buffers, allocations of size zero, and error texts.
- Concurrent database transactions: the histories are serial, isolation is the server's business. The outcome of a commit whose answer is lost is taken as a rollback.
- OrderStatus and StockLevel, which only read, and columns that no condition mentions (names, dates of entry, credit, discount); floating-point amounts and their formatting with two decimals are cents.
- Welch's test, Student's t, the p-value of the approximate rank test and other floating-point numerics.
- FreeList.SleepersAreServed: assumes that a signalled waiter does not report a timeout, because the claim fails without it.
- PipelineDrain.Drain: the server answers each query with exactly one result; with fewer the loop of the C code would not end, and its deadline is looked at only while libpq is busy.
- PipelineDrain.ExecutePipeline: the transaction status behind the sync is a parameter, tied to whether a query fails; what the queries do to the database is not modelled.
- NativePool.NativeConn.InitConn: opening the connection, its mutex, condition variable and thread, and their rollback, are not modelled.
- Deadline.IdleWait: the clock only moves forward, and the time between reading it and starting to wait is taken as part of the wait.
- SqliteMultiRead.ExecuteMultiRead: a chain that the client has not polled is overwritten by the next request without being freed, as in the C code; that leak is not tracked.
- SqlSplit.JoinedStatementsComeApart: SQLite's grammar lets a ';' be part of a CREATE TRIGGER statement, which is then not one statement here; a byte order mark counts as a token, and '/*' as the very last characters of a text, which a joined text never has, counts as a comment.
- SqliteResult.Materialize: the copies of cells and names are allocated without a check in the C code and succeed here.
- BsonSlicer.SliceBlob: the additions of 32-bit offsets and lengths are taken as not wrapping, and the allocations succeed.
- ExactTest.MannWhitneyExact: rank sums and means are exact reals.
- MidRanks.Mw: stops at U, before the approximate p-value; values are reals, without NaN; U is doubled instead of a half-integer float.
- TpccConsistency.EveryRunIsConsistent: Clause 3.3.2.11 is not among the conditions, because it presupposes the seeded orders of the specification, and this seed has none.
- NativePool.NativeConn.PoolSubmitQueryParams: requires of the caller's arrays only that they can be read where the code reads them.
