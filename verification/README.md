# Verification of rusqlite's state machines

Rusqlite wraps SQLite. What is its own lives in the state machines and loops around the C calls:
transaction and savepoint handles, the statement cache, row iteration, text splitting, aggregate
callbacks, and the protocols between threads. This project models those, over small environments
that stand for SQLite, and proves what they keep over every input and every run.

`dafny verify dfyconfig.toml` checks everything.

| module | what it covers | source |
|---|---|---|
| `SqlText` | the SQL printer for savepoint commands, and SQLite's reading of its output | `src/pragma.rs`, `cmd` in `src/transaction.rs` |
| `Transactions` | `Transaction` and `Savepoint` handles on SQLite's name-matched savepoint stack | `src/transaction.rs` |
| `StatementCache` | the LRU cache with the life cycle of statement handles | `src/cache.rs`, `src/raw_statement.rs` |
| `CacheRuns` | the cache against a connection without one; inclusion between capacities | `src/cache.rs` |
| `RowsIteration` | `Rows`, its mapping iterators, the query calls built on them, parameter binding | `src/row.rs`, `src/statement.rs` |
| `Batches` | `execute_batch`, `Batch::next` and `prepare_with_flags` against one run and one split of the text | `src/lib.rs`, `src/inner_connection.rs` |
| `Aggregates` | aggregate and window callbacks and the box behind the accumulator pointer | `src/functions.rs` |
| `UnlockNotify` | unlock notification with any number of waiters and callbacks | `src/unlock_notify.rs` |
| `RetryLoops` | the shared-cache retry loops around step and prepare | `src/raw_statement.rs`, `src/inner_connection.rs` |
| `InterruptClose` | close against interrupts from any number of threads | `src/inner_connection.rs`, `src/lib.rs` |
| `ClientData` | ownership of the busy callback | `src/inner_connection.rs`, `src/busy.rs` |
| `Backups` | the backup and restore loops | `src/backup.rs` |

## How it is built

Code that changes an object in place is a class with the source's fields and methods. Each method is
proved equal to a function on plain values (`FinishSavepoint`, `TakeBack`, `StepCall`, `Script`, ...),
and the properties are lemmas about those functions. Concurrent code is a step relation whose steps
are single locks, unlocks, flag accesses, waits, notifications and calls into SQLite.

Several results compare with a second definition that does not share the code's mechanism:

- nested savepoints with `Simple` and `Mean`, which have no stack;
- the cache with `PlainRun`, which has no cache and no handles;
- the ends of the outermost level with `Settle`, which only counts attempts;
- the pointer-based accumulator with `PlainRun` and `Fold`, which have no pointers;
- the two batch loops with one `Script` and the pieces it consumes, and the recursive check with one
  `Segments`;
- the printer with `Unquote`, `Lex` and `ParseCommand`, which know nothing about it.

## What the environments assume

- Transactions: SQLite's savepoint stack as its SAVEPOINT page describes it: RELEASE and ROLLBACK TO
  act on the innermost savepoint whose name matches with ASCII case folded, releasing the outermost one
  commits. An attempt to make the outermost level durable may be refused by a deferred constraint, be
  busy, or roll the whole transaction back, in any order over time; so may BEGIN IMMEDIATE and EXCLUSIVE
  be refused. Clients write, roll back in the
  middle, nest and leak scopes, but issue no transaction control of their own inside a scope.
- A word in `keywords` is not accepted as a bare savepoint name. SQLite does accept some keywords as
  names; for those the model refuses more than SQLite does.
- Cache: for transparency and inclusion, what a text compiles to depends on the text alone. Handle
  conservation needs no such assumption.
- Splitting: the prepare function, the step function and the reported tail are arbitrary.
- Aggregates: user functions may succeed, fail or panic in every call and may change the accumulator
  in each case. SQLite inverts only rows whose step succeeded; `FaultIsExact` says what happens if not.
- Unlock notification: spurious wakeups are allowed; for the lifetime result SQLite delivers each
  registered notification at most once.
- Retry loops: result, extended and wait codes are arbitrary; for termination some attempt is not retried.
- Backups: the source has a fixed number of pages; what stands in the way of each step is arbitrary.
  `RunToCompletion` is given some step by which one broke or enough of them copied.

## Findings

- `Error::InvalidParameterCount` is documented to carry the number of parameters given
  (`src/error.rs:134-137`). When too many are given, the code reports one more than expected instead,
  whatever the number (`src/statement.rs:479-492`). `RowsIteration.CountIsGiven` says exactly when the
  documentation holds, and `RowsIteration.ThreeForOne` is an input for which it does not.
- `busy_handler` and `busy_timeout` free the old callback through SQLite's client data. If SQLite has no
  memory for a first entry it destroys the new callback while it is already registered;
  `ClientData.CallIsSafe` shows that this is the only unsafe case, and
  `ClientData.FirstRegistrationWithoutMemory` that it happens.
- A savepoint left open (`DropBehavior::Ignore`) under a default name captures the commit of the savepoint
  around it. The unit test at `src/transaction.rs:695-714` observes only the sum of the rows, which agrees
  either way. For an outermost savepoint it means that `commit()` reports success while nothing is
  committed and the connection stays in a transaction: `Transactions.CommittedYetOpen` is such a program,
  and `Transactions.EndsAtEntryIffNoCapture` says exactly when it cannot happen.

## Model

| member | source | states |
|---|---|---|
| SqlText.ScanIdentifier | src/pragma.rs:287-299 | the scan answers whether the text is a bare identifier, which for a non-empty text means that SQLite reads it as exactly that one word (`BareIffOneWord`); the empty string passes |
| SqlText.BareIffOneWord | src/pragma.rs:301-312 | a non-empty name is printed bare if and only if SQLite, by its own character classes, reads it as it stands as that one word: what must be quoted is, and nothing else |
| SqlText.Sql.PushKeyword | src/pragma.rs:49-56 | appends a non-empty keyword unchanged, refuses anything else and then leaves the buffer alone |
| SqlText.Sql.PushIdentifier | src/pragma.rs:62-68 | appends the bare name if SQLite would read it as that one word, and otherwise the name in double quotes with inner quotes doubled |
| SqlText.Sql.PushStringLiteral | src/pragma.rs:98-100 | appends the text in single quotes with inner quotes doubled |
| SqlText.Sql.WrapAndEscape | src/pragma.rs:134-145 | the loop appends quote, text with each quote doubled, quote |
| SqlText.Cmd | src/transaction.rs:359-369 | produces verb, blank, optional TO and blank, printed name; or an error if a word is no keyword |
| SqlText.QuotingRoundTrip | src/pragma.rs:134-145 | for every string: undoubling gives it back and stops at the closing quote if and only if the following text does not begin with that quote |
| SqlText.UnquoteRunsOn | src/pragma.rs:134-145 | if the following text begins with the quote, the reader runs past the closing quote |
| SqlText.UnquoteUnterminated | src/pragma.rs:134-145 | without the closing quote the reader finds no end, so no content of the text can end it early |
| SqlText.IdentTextInjective | src/pragma.rs:62-68 | two names printed alike are the same name; no bare form equals a quoted form |
| SqlText.LexIdentText | src/pragma.rs:62-68 | SQLite reads a printed name as exactly one token with the same text, as none if it is empty, and not at all if it contains NUL |
| SqlText.LexNamed | src/transaction.rs:359-369 | a printed command is read as its verb, the optional TO, and the tokens of the name |
| SqlText.ParseNamed | src/transaction.rs:359-369 | for any spelling of the verb, the command read is the one printed, with exactly the given name, when the name is accepted, and none otherwise |
| SqlText.CommandRoundTrip | src/transaction.rs:359-369 | SAVEPOINT, RELEASE and ROLLBACK TO are read back with exactly the given name if and only if it is non-empty, free of NUL and no bare keyword |
| Transactions.Transaction.NewUnchecked | src/transaction.rs:117-130 | issues one text, which SQLite reads as BEGIN of exactly the behavior asked for; it fails inside a transaction, and for IMMEDIATE and EXCLUSIVE also if the lock is refused; otherwise it remembers the contents; a handle exists exactly on success |
| Transactions.Transaction.CommitInner | src/transaction.rs:192-195 | issues one statement, which acts as SQLite's COMMIT |
| Transactions.Transaction.RollbackInner | src/transaction.rs:204-207 | issues one statement, which acts as SQLite's ROLLBACK |
| Transactions.Transaction.FinishInner | src/transaction.rs:220-230 | nothing, not even SQL, in autocommit mode; otherwise commit with rollback as fallback, rollback, nothing or panic, by drop behavior; it reports success in every case but a panic and a commit that SQLite answers by rolling back itself |
| Transactions.Transaction.Drop | src/transaction.rs:243-247 | the drop finishes; once the connection is in autocommit mode it issues no SQL |
| Transactions.Transaction.Commit | src/transaction.rs:187-189 | result and effect of commit followed by the drop; after a success the drop adds no statement |
| Transactions.Transaction.Rollback | src/transaction.rs:199-201 | likewise for rollback: whatever the drop behavior, the drop changes nothing more |
| Transactions.Transaction.Finish | src/transaction.rs:215-217 | reports success, a failure exactly for a commit SQLite rolled back itself, or the panic; and has the effect of finishing and then dropping |
| Transactions.Savepoint.WithName | src/transaction.rs:252-261 | a handle exists exactly for accepted names; a refused name leaves the connection unchanged |
| Transactions.Savepoint.New | src/transaction.rs:264-272 | a savepoint without a name of its own has the one name all of these share |
| Transactions.Savepoint.CommitInner | src/transaction.rs:314-319 | acts as RELEASE of its own name and sets `committed` exactly on success |
| Transactions.Savepoint.Rollback | src/transaction.rs:328-331 | acts as ROLLBACK TO its own name and leaves the handle usable |
| Transactions.Savepoint.FinishInner | src/transaction.rs:344-356 | nothing, not even SQL, once committed; otherwise release with rollback-then-release as fallback, rollback-then-release, nothing or panic; it reports success exactly if it is committed or was to be left open |
| Transactions.Savepoint.Drop | src/transaction.rs:381-386 | after a successful commit or finish the drop issues no further SQL |
| Transactions.Savepoint.Commit | src/transaction.rs:309-311 | result and effect of commit followed by the drop; after a success exactly one statement was issued |
| Transactions.Savepoint.Finish | src/transaction.rs:339-341 | result of finishing, and the effect of finishing and then dropping |
| Transactions.RunBody | src/transaction.rs:252-356 | any finite tree of scopes run on real handles, through SQL text, does what the stack machine does |
| Transactions.NestedEnding | src/transaction.rs:309-356 | a nested savepoint without a same-named leak above it ends with the body's contents under commit and the entry contents under rollback, on the entry stack |
| Transactions.BaseIsKept | src/transaction.rs:252-356 | any client, with any names, leaks and panicking handles, leaves every frame below its scope untouched and never tries to commit the outermost level |
| Transactions.NestedScopesRefine | src/transaction.rs:314-356 | for every tree of scopes, leaked ones included, in which no name is captured, the handles end with the contents of the stackless meaning and with the entry stack plus exactly the leaks |
| Transactions.ScopeRefines | src/transaction.rs:344-356 | one whole nested scope, from its SAVEPOINT to its end, commits its meaning, restores the entry environment, or leaves its frame and leaks |
| Transactions.NoIgnoreIsSimple | src/transaction.rs:344-356 | if no scope is left open, no name is ever captured and the meaning is the textbook one |
| Transactions.NestedScopes | src/transaction.rs:314-356 | any tree of scopes ending in commit or rollback restores the stack exactly and gives the textbook contents, though all default savepoints share one name |
| Transactions.LeakCaptures | src/transaction.rs:314-356 | with a leak of the same name, for an outermost savepoint too, RELEASE and ROLLBACK TO act on the innermost leak and succeed, and the stack stays deeper |
| Transactions.CapturedEnding | src/transaction.rs:309-356 | every way of ending a captured savepoint releases or rolls back the innermost leak of its name and leaves the savepoint open |
| Transactions.CommittedYetOpen | src/transaction.rs:309-319 | a program from autocommit whose outer `commit()` reports success and leaves the connection in a transaction |
| Transactions.EndsAtEntryIffNoCapture | src/transaction.rs:314-356 | a savepoint not left open on purpose ends with the stack of its creation if and only if no leak above it has its name and, if it is outermost, not all its attempts to close are refused |
| Transactions.TransactionAllOrNothing | src/transaction.rs:187-230 | for every ending and whatever was leaked: the exact environment, with the whole body if an attempt to commit succeeds, else the entry contents, and autocommit mode unless it was to be left open |
| Transactions.OutermostEnding | src/transaction.rs:309-356 | for every ending, the consuming `finish()` with its second try included, the outermost savepoint comes out as its attempts do: body kept, entry restored and closed, or still open on the entry contents |
| Transactions.OutermostSavepointAllOrNothing | src/transaction.rs:309-356 | the same for every ending and all leaks, a captured name included |
| Transactions.FinishReports | src/transaction.rs:344-356 | finishing under Commit reports success whenever the savepoint was captured, though it is open, and otherwise only if it is closed, which a constraint alone never prevents |
| Transactions.SavepointReports | src/transaction.rs:344-356 | what finishing reports for any savepoint: success if nested, captured or left open; for an outermost one exactly if an attempt to close it went through, on the body or then on the entry contents |
| Transactions.FailedCommitIsUndone | src/transaction.rs:309-319 | a consuming commit that fails under the default drop behavior has restored the entry contents after the drop, and has closed the scope exactly if SQLite aborted or lets the second attempt through |
| Transactions.OutermostScope | src/transaction.rs:717-748 | a whole outermost scope ends as its attempts do on the textbook contents; if only constraints can refuse it, it always closes, with those contents exactly if it commits and they violate nothing |
| Transactions.RunTransaction | src/transaction.rs:117-247 | one transaction on real handles goes from autocommit to autocommit: nothing changes if BEGIN is refused, and otherwise its attempts to commit decide between the textbook contents and the old ones |
| StatementCache.StatementCache.SetCapacity | src/cache.rs:125-127 | the capacity is the one asked for; the most recent entries that fit are kept and the others finalized |
| StatementCache.StatementCache.Get | src/cache.rs:136-151 | a hit leaves the cache with its entry removed; a miss is prepared from the trimmed text; both are keyed by it; an error hands out nothing, after finalizing whatever was opened to find it |
| StatementCache.RefusalLeavesNothingOpen | src/lib.rs:797-804 | refusing a text of several statements changes no live statement and finalizes each one opened for it exactly once |
| StatementCache.StatementCache.CacheStmt | src/cache.rs:154-168 | an empty statement is ignored; any other loses its bindings, becomes the most recent entry, and what it displaces is finalized |
| StatementCache.StatementCache.Flush | src/cache.rs:171-174 | empties the cache and finalizes what was in it |
| StatementCache.CachedStatement.Drop | src/cache.rs:91-98 | returns the statement once; a second drop does nothing |
| StatementCache.CachedStatement.Discard | src/cache.rs:112-114 | finalizes the statement and never returns it |
| StatementCache.InsertPtrs | src/cache.rs:154-168 | what insertion keeps and drops is, as a multiset of handles, what was there and the new one |
| StatementCache.DropConserves | src/raw_statement.rs:236-240 | finalizing statements moves exactly their handles to the finalized ones |
| StatementCache.CheckoutIsAlone | src/cache.rs:136-151 | a checked-out handle is neither cached nor checked out a second time, also when the same SQL is |
| StatementCache.StepKeepsInv | src/cache.rs:91-174 | every get, bind, step, reset, return, discard, flush and resize keeps the invariant |
| StatementCache.HandlesAreConserved | src/cache.rs:91-174 | in every reachable state each handle ever prepared is cached, checked out or finalized, in one way and once; the cache is within capacity; entries are ready, unbound and filed under their own text |
| StatementCache.FlushLeavesNothingOpen | src/lib.rs:817-822 | after a flush with nothing checked out no statement is live and each was finalized exactly once, so close meets none |
| CacheRuns.StepShows | src/cache.rs:136-174 | each step of the cached connection shows its clients what the same step shows without a cache |
| CacheRuns.CacheIsTransparent | src/cache.rs:136-174 | over every interleaving, at every capacity, what clients see is what a connection without a cache shows: compiled from the trimmed request, ready, unbound |
| CacheRuns.KeysFollow | src/cache.rs:136-174 | the cached keys after a step depend only on the keys before it and on what clients see |
| CacheRuns.SmallerIsPrefix | src/cache.rs:136-174 | on the same run the keys at a smaller capacity are the most recent ones of those at a larger |
| CacheRuns.CapacityIsLast | src/cache.rs:125-127 | over every run the capacity is the last one asked for |
| CacheRuns.RunKeys | src/cache.rs:125-174 | over every run the cached keys, in their order, are those a recency list of that capacity holds for what the clients did |
| CacheRuns.HitReuses | src/cache.rs:136-151 | a hit hands out the cached handle itself and changes nothing in SQLite |
| CacheRuns.ReturnThenGet | src/cache.rs:136-168 | the statement that came back last is the one the next request for its text gets, if there is any capacity; with none it is finalized |
| CacheRuns.HitStaysHit | src/cache.rs:136-151 | a larger capacity never turns a hit into a miss |
| CacheRuns.TrimIsExact | src/cache.rs:141-141 | trimming removes blanks at both ends, nothing else, and is idempotent, so all paddings of a text share its key |
| CacheRuns.BlanksAreWhiteSpace | src/cache.rs:141-141 | the characters trimmed are those of Unicode White_Space, by code point |
| RowsIteration.Rows.ResetRows | src/row.rs:17-23 | resets the statement exactly if it still has it, and lets go of it |
| RowsIteration.Rows.Advance | src/row.rs:215-237 | one step while the statement is there, none after; it lets go with a reset on the end and on an error, whose value it returns |
| RowsIteration.Rows.Next | src/row.rs:39-42 | call number i returns item i of the outcome sequence |
| RowsIteration.Rows.GetExpectedRow | src/row.rs:101-106 | item i, with "no rows" for an end |
| RowsIteration.Rows.Drop | src/row.rs:109-114 | whenever it happens, the statement has been reset exactly once, after its last step |
| RowsIteration.CallTimes | src/row.rs:39-42 | a caller that calls any number of times gets the items in order, and the statement sees the steps up to the end and one reset |
| RowsIteration.RowsThenErrorThenNone | src/row.rs:215-237 | the items are the rows in order, then at most one error, then nothing for ever |
| RowsIteration.ItemsAre | src/row.rs:133-189 | from the outcomes alone, each item and each mapped item: the row or the function's answer to it, then the error of the step or of the reset, then nothing |
| RowsIteration.StepsStopAtTheEnd | src/row.rs:215-237 | the statement is stepped once per row and once more, however often the caller asks |
| RowsIteration.MappedRows.Next | src/row.rs:151-164 | the mapped item; an error of SQLite or of the function is an item, the end is the end |
| RowsIteration.MapNext | src/row.rs:133-138 | the fallible form: an error of either kind ends the call, not the iteration |
| RowsIteration.Statement.Exists | src/statement.rs:349-353 | true exactly on a first row; one step, one reset |
| RowsIteration.Statement.QueryRow | src/statement.rs:370-378 | the first row mapped, "no rows" on an empty result, or the error; later rows unread |
| RowsIteration.Statement.QueryOne | src/statement.rs:394-405 | success exactly on one row that maps followed by a clean end; otherwise which error, for a failing reset too |
| RowsIteration.Statement.ExecuteWithBoundParameters | src/statement.rs:691-703 | one step and one reset in every case; success exactly on a clean end; a row is an error |
| RowsIteration.FirstBindError | src/statement.rs:474-493 | the first parameter that does not bind, all before it having bound; none only if all bind |
| RowsIteration.BindParameters | src/statement.rs:474-493 | binds from the left up to the first error or the last parameter, and succeeds exactly if the counts agree; a wrong count is reported as the code counts it |
| RowsIteration.CountIsGiven | src/statement.rs:479-492 | the reported count is the number given if and only if that is at most one more than expected |
| RowsIteration.ThreeForOne | src/statement.rs:479-492 | three parameters for one are reported as two |
| Batches.TailOf | src/inner_connection.rs:237-246 | the tail is 0 or strictly inside the text |
| Batches.SegmentsCover | src/lib.rs:797-804 | the pieces the recursive check compiles, in the one database it finds, concatenate to the text; all but the last compile and are not empty |
| Batches.FirstPieceIsConsumed | src/inner_connection.rs:237-246 | the tail encoding loses nothing if and only if prepare consumes something of a non-empty text |
| Batches.ScriptStepsConsumed | src/lib.rs:553-572 | for any prepare and step, a run steps the statements of the pieces it consumes, all of them, once and in order, whatever they do to how later ones compile |
| Batches.ConsumedCover | src/lib.rs:553-572 | the consumed pieces are a prefix of the text, and all of it on success; only a piece that does not compile consumes nothing, and it is the last and the error |
| Batches.Connection.Prepare | src/inner_connection.rs:179-250 | a text longer than a C integer can say is refused; otherwise the compiler's own error, or its statement with the tail where it lies strictly inside the text and 0 elsewhere |
| Batches.ErrorIsTheCompilers | src/inner_connection.rs:220-222 | a text that does not compile gives the compiler's own error from every entry point, and only one too long gives the too-big error |
| Batches.PiecesAreCompiled | src/lib.rs:797-804 | each piece of the recursive check is what the compiler makes of the text from there on, the first with the caller's flags and the others with none |
| Batches.PiecesAreCompiledInTurn | src/lib.rs:553-572 | each piece of a run is what the compiler makes of the text from there on in the database the pieces before it left |
| Batches.Connection.ExecuteBatch | src/lib.rs:553-572 | the loop terminates and steps each statement once, in order, each compiled in the database its predecessors left, up to the first error |
| Batches.Batch.Next | src/lib.rs:1223-1242 | finds the next real statement, skipping empty pieces; on an error stays at the piece that does not compile, so the next call finds it again; once finished stays finished |
| Batches.NextIsFirst | src/lib.rs:1223-1242 | what `next` finds is what a run of the text steps first |
| Batches.DrainBatch | src/lib.rs:1204-1242 | draining a batch and stepping each statement once has the same statements, database and error as `execute_batch` |
| Batches.PrepareMeaning | src/lib.rs:797-804 | the recursive check returns the compile error of the split if there is one, else MultipleStatement exactly if a later piece is a statement, else the first piece's statement |
| Aggregates.Callbacks.AggregateContext | src/functions.rs:721-727 | memory is found if present, allocated zeroed only if asked for and available |
| Aggregates.Callbacks.CallBoxedStep | src/functions.rs:729-770 | creates the box on first use, not if init fails or panics, and then steps in place; reports what init or step said, or a lack of memory |
| Aggregates.Callbacks.CallBoxedInverse | src/functions.rs:773-809 | inverts in place behind a pointer it does not test and reports what inverse said; without memory for the group it only reports that |
| Aggregates.Callbacks.CallBoxedValue | src/functions.rs:850-875 | passes the accumulator, or none if there is no memory or no box, creates nothing, and reports what value said |
| Aggregates.Callbacks.CallBoxedFinal | src/functions.rs:811-847 | takes the box, frees it, passes its content, or none, and reports what finalize said |
| Aggregates.FaultIsExact | src/functions.rs:773-809 | over every run the pointers mirror a plain optional accumulator, and a null pointer is reached exactly if an inverse comes when there is none |
| Aggregates.VerdictsReported | src/functions.rs:756-769 | a callback reports to SQLite what the user's step, inverse or failed init said, and a failure of its own only without memory |
| Aggregates.ValueGets | src/functions.rs:850-875 | value is called with the accumulator there is, and with none exactly if there is none |
| Aggregates.InverseNeedsARow | src/functions.rs:773-809 | a concrete run with such an inverse |
| Aggregates.RunIsOwned | src/functions.rs:729-809 | if only rows whose step succeeded are inverted, no such access happens and there is a live box whenever a row is left |
| Aggregates.BoxFreedOnce | src/functions.rs:811-847 | over every run ending in the final callback at most one box is created, every box is freed exactly once, and finalize gets the plain accumulator |
| Aggregates.RunCallbacks | src/functions.rs:729-875 | the callbacks themselves, driven through any run and the final call, meet no null or freed pointer, end without a box, and hand finalize the plain accumulator |
| Aggregates.SomeIffInitSucceeded | src/functions.rs:741-757 | finalize gets an accumulator exactly if some step found memory and an init that succeeded |
| Aggregates.MoveTracks | src/functions.rs:729-875 | each step, inverse and value keeps the accumulator a fresh fold over the window |
| Aggregates.WindowIsFold | src/functions.rs:729-875 | after any valid sequence of callbacks it is; there is none only if no row was ever stepped, and it survives an empty window |
| Aggregates.EachValueIsFold | src/functions.rs:850-875 | hence each value callback gets the fold over the current window |
| Aggregates.LawIsExact | src/functions.rs:401-406 | every valid sequence of callbacks is a fresh fold if and only if inverse undoes step for the oldest row |
| UnlockNotify.ReachableInv | src/unlock_notify.rs:22-50 | in every interleaving the mutex is held by whom it should be, and a sleeping waiter whose flag is set has a notification coming |
| UnlockNotify.NoLostWakeup | src/unlock_notify.rs:22-33 | wait returns only after the flag was set, also if the callback fired first; no waiter sleeps with its flag set and no notification pending |
| UnlockNotify.SeenMeansDone | src/unlock_notify.rs:22-33 | a waiter that holds the mutex and sees the flag knows that the callback that set it is through with it |
| UnlockNotify.NoUseAfterWait | src/unlock_notify.rs:73-86 | once a waiter is leaving or has left wait, no callback will touch its notification again |
| UnlockNotify.QuietMeansDelivered | src/unlock_notify.rs:22-50 | if only spurious wakeups are possible, every callback is delivered and every waiter it names has left: no deadlock |
| UnlockNotify.StepsRankDown | src/unlock_notify.rs:22-50 | every other step lowers a rank |
| UnlockNotify.RunsAreBounded | src/unlock_notify.rs:22-50 | so runs without spurious wakeups are no longer than the initial rank |
| RetryLoops.EarlyExitIsSound | src/unlock_notify.rs:52-58 | no shared-cache lock is missed by leaving early on codes whose low byte is not LOCKED; among the others, it is one exactly if the result code or the extended code says so |
| RetryLoops.Sqlite.WaitForUnlockNotify | src/unlock_notify.rs:73-86 | returns the registration's code and waits only on success |
| RetryLoops.Sqlite.Step | src/raw_statement.rs:145-173 | stops at the first attempt that is no shared-cache lock or whose wait is refused, returns that outcome or that code, with one wait and one reset before each retry; the early exit changes nothing |
| RetryLoops.Sqlite.Prepare | src/inner_connection.rs:191-216 | the same stopping point, with one wait and no reset before each retry |
| RetryLoops.RetryLogAt | src/raw_statement.rs:145-173 | each retry is a call, one successful wait and, for a step, one reset, in that order |
| RetryLoops.StopIsFirst | src/raw_statement.rs:145-173 | the stopping point does not depend on how late the blockers are known to end |
| InterruptClose.InnerConnection.constructor | src/inner_connection.rs:32-38 | an owned connection shares its pointer, a borrowed one shares null |
| InterruptClose.InnerConnection.Close | src/inner_connection.rs:111-135 | idempotent on a closed connection; clears both pointers on success, neither on failure; a borrowed handle is dropped, not closed |
| InterruptClose.ReachableInv | src/inner_connection.rs:111-142 | the invariant over every interleaving of close, interrupts and new handle clones |
| InterruptClose.InterruptAndCloseAreSafe | src/lib.rs:1358-1363 | interrupt never overlaps close nor gets a closed handle; close gets only an open, owned one; outside the critical section the shared pointer is the open handle or null; the assertion holds |
| InterruptClose.InterruptReaches | src/lib.rs:1358-1363 | an interrupt that has the lock reaches SQLite if and only if the connection is owned and not closed |
| InterruptClose.CloseOutcome | src/inner_connection.rs:111-135 | in every interleaving a call of close that has the lock comes out as the uninterrupted one does for the answer SQLite gave; a failed close changes nothing and can be retried; the assertion holds |
| InterruptClose.UndisturbedClose | src/inner_connection.rs:111-135 | from the lock on, the owner's own steps take close to its end |
| InterruptClose.NoDeadlock | src/inner_connection.rs:111-142 | whoever holds the mutex can move, and if nobody does everyone can |
| ClientData.Connection.StoreClientdata | src/inner_connection.rs:359-371 | frees the old entry and stores the new; frees the new one if it cannot be stored |
| ClientData.Connection.BusyHandler | src/busy.rs:55-79 | the exact list of states registration goes through, and when it succeeds |
| ClientData.Connection.BusyTimeout | src/busy.rs:82-94 | SQLite's own handler is set before the callback's entry is cleared, and nothing is cleared if that fails |
| ClientData.CallIsSafe | src/inner_connection.rs:340-372 | every intermediate state of a call has a null or live pointer if and only if the call is not a first registration without memory; a callback is freed only after SQLite points elsewhere |
| ClientData.FirstRegistrationWithoutMemory | src/inner_connection.rs:359-371 | that call exists on a fresh connection and leaves SQLite with a freed callback |
| ClientData.RegistrationTakes | src/busy.rs:55-94 | after a registration SQLite's pointer and the stored entry are the one new box, or both null; after a timeout both are null; if SQLite refuses, both are as before and the new box is freed |
| ClientData.RunsAreSafe | src/inner_connection.rs:340-372 | so is every state of every run without such a call, and every box is stored or freed exactly once |
| ClientData.CloseFreesTheLast | src/inner_connection.rs:340-372 | closing frees the stored box, and then every box was freed exactly once |
| ClientData.Millis | src/busy.rs:24-32 | the checked conversion gives the milliseconds, or panics exactly if they exceed a 32-bit integer |
| Backups.Backup.Step | src/backup.rs:265-276 | copies pages only when nothing is in the way and reports done exactly when all are copied |
| Backups.Backup.RunBackup | src/backup.rs:64-88 | takes at most max(1, ceil(N/100)) steps, gives up at the first obstacle with its error, and succeeds exactly with all pages copied |
| Backups.Backup.Restore | src/backup.rs:102-134 | takes at most max(1, ceil(N/100)) + 2 steps and meets at most three busy ones, never reaches `unreachable!`, and succeeds exactly with all pages copied; otherwise which error |
| Backups.Backup.RunToCompletion | src/backup.rs:294-314 | ends at the first step that breaks or completes the copy, whenever there is one; success exactly with all pages copied by just enough copying steps |

## Left out

- Transactions.RunTransaction: a transaction that ends in Ignore, or in a panic, stays open or aborts and is not run here; `TransactionAllOrNothing` covers Ignore.
- Transactions.NestedScopesRefine: `DropBehavior::Panic` is an outcome of one call only; programs with it are excluded, because the unwinding that follows is not modelled.
- Transactions.Connection.Write: a write changes contents only; a write that fails and rolls the transaction back on its own is not modelled.
- User-issued BEGIN, COMMIT, ROLLBACK or SAVEPOINT text inside a scope.
- CacheRuns.CacheIsTransparent: a schema change that makes a cached text compile differently is not modelled, nor the persistence flag given to SQLite.
- `LruCache` is a library: it is the recency list its documentation describes, not its linked hash map.
- `mem::forget` of `Rows` or of a handle.
- RowsIteration.Statement.ExecuteWithBoundParameters: the check under the `extra_check` feature is off.
- Conversion of values, column access, the parameter index cache and `bind_parameters_named`.
- RetryLoops.Sqlite.Step: without the `unlock_notify` feature the loop is a single call.
- UnlockNotify.NoUseAfterWait: poisoned mutexes and a panic inside `fired` are not modelled.
- Memory order, thread scheduling fairness and real time; sleeps and progress callbacks in backups.
- Batches.SegmentsCover: text is bytes; that a tail falls on a UTF-8 boundary is taken from SQLite.
- ClientData.RunsAreSafe: a first registration without memory is excluded; `CallIsSafe` shows what it does.
- Opening connections, pragmas other than the printer, sessions, serialization, hooks, tracing, virtual tables, blobs, collations, limits, configuration and extension loading: thin wrappers over calls whose behaviour is SQLite's.
