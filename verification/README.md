# Model of the Netezza driver

A Dafny model of the parts of the driver where order, framing and arithmetic have to be
exactly right, with proofs about them. `dafny verify dfyconfig.toml` checks everything.

| part | files |
|---|---|
| threaded connection pool | `Phases`, `SyncPool`, `SyncPoolRuns`, `SyncPoolSafety`, `SyncPoolShutdown`, `SyncPoolExamples`, `SyncPoolHistory`, `SyncPoolCalls` |
| asyncio connection pool | `Phases`, `NzPool`, `NzPoolRuns`, `NzPoolSafety`, `NzPoolShutdown`, `NzPoolExamples`, `NzPoolHistory`, `NzPoolCalls` |
| receive buffer | `Stream` |
| result reader, batch fast path, fetching, iterating | `Messages`, `ResultItems`, `RowBatch`, `FrameReads`, `ResultReader`, `Fetch`, `Answers`, `Iterate` |
| drain of an orphaned response | `DrainAgrees`, `Drain` |
| row layout and field decoding, Rust and Python | `Layout`, `Numbers`, `Calendar`, `Temporal`, `RowDecode`, `FieldStorage`, `RowStorage` |
| bulk load | `DelimitedText`, `Decimals`, `Infer`, `Rendering`, `LoadedValues`, `Extab` |
| query parameters, identifier paths | `Params`, `Syntax`, `Relexing`, `IdentPath` |
| shared helpers | `Options`, `Wire`, `Division`, `Queues`, `Tally` |

**Pools.** The class holds the bookkeeping fields, with one method for each lock region (or
each stretch between two awaits), proved against a function on a snapshot of the fields and
against what it takes from the pool and gives to it (`Exchange`). The step systems interleave
any number of threads or tasks over these functions. In between, a connect goes through its
phases (dialling, handshake, session set-up, hook); each phase, and each ping, rollback and
close, may work, fail with an exception, or be cut short: in the asyncio pool by a
cancellation, in the threaded pool by an interrupt of the waiting thread, which cancels the
coroutine it waits for. `Held` and `Places` say who owns a connection; the invariant is that
every live connection is in exactly one place, of which "lost" is one, and that the counters
say what the places say. `SyncPoolHistory` and `NzPoolHistory` tell from outside the steps how
a connection that is lent or idle got there; `SyncPoolCalls` and `NzPoolCalls` give the whole
state after each call that nobody interrupts.

**Reader.** The peer's bytes are a sequence of which the transport delivers any non-empty part
at a time, or fails. `Items` is what a result means read one message at a time, for arbitrary
row decoders. The class `ResultReader` works on the receive buffer, with or without the batch
path, and delivers the same. `DrainAgrees` prints responses; `Answers` says, by the codes and
payloads of the printed messages alone, what is fetched from them.

**Decoders.** `LaidOut` says what a well laid out row is, using the pointer walk of the old
decoder for the varying fields. Both validators accept exactly these rows. Reading outside the
row would not verify, so the decoders index only bytes of the row. `FieldStorage` and
`RowStorage` print values and rows from the storage format, and both decoders read them back.

**Bulk load.** The reader is written from the format description in the module docstring of
`nzpy_extended/_bulk.py`, the printer from the code. `LoadedValues` speaks of the values the
caller passed and of what the reader finds in their place.

Where the obvious statement is false, the model keeps the code as it is and proves the exact
condition:

- The asyncio pool leaves a connection open with no owner when its opening is cancelled outside
  the handshake, and also, with no cancellation at all, when a query of the session set-up is
  refused (`LostExactlyWhenLeftOpen`).
- The threaded pool loses nothing unless a thread is interrupted while it waits. An interrupt
  can leave a connection open with no owner; in a `release` it also takes a permit, and in its
  rollback a counted place, out of the pool for good (`LostExactlyWhenInterrupted`,
  `WasteShrinksThePool`). The counting argument of `_checkout` holds all the same.
- The drain loses step when a row message is followed by exactly one padding block that is
  already buffered (`ParsersAgreeExactly`, `BufferedDrainExactly`); two or more are harmless.
- Iteration over a cursor stops at CommandComplete, before a pending value error is raised
  (`IterationRaisesExactly`); `fetchall` raises it.
- The NULL marker is ambiguous for some delimiters and escape characters that
  `build_options` accepts (`RoundTripExactly`).
- `Decimal.normalize()` rounds to 28 digits (`DenotesExactly`), and an integer of more than 28
  nines is refused by the type inferred from it (`InferenceSound`, `UnsoundColumns`).
- The number zero is refused by a NUMERIC column without integer digits, which could hold it
  (`NumericAcceptedExactly`).
- A literal `$1`, or a question mark followed by a digit, is misread by the second parameter
  pass (`SecondPassReadsFirst`, `PrepareExactly`). A negative number behind a minus sign opens a
  comment, and a text in front of or behind a text literal runs into it (`InStepExactly`).
- An unload that loses its connection between two blocks ends as if it were complete, with the
  stream closed (`ReceiveBlocks`).
- A bare identifier that ends in a line feed loses it, because `$` in the pattern matches
  before a final line feed (`PathRoundTripExactly`).
- The comment at `nzpy_extended/pool.py:595-596` names the sweep only; a pre-create can be the
  reason as well (`EmptyAndFullMeansUpkeep`, `PreCreateAloneFillsThePool`).
- The comment at `rust/src/temporal.rs:44-45` says that a timestamp has no parts before year 1;
  the code refuses only what lies before Julian day 0, in 4714 BC (`TimestampLossless`).

## Model

| member | source | states |
|---|---|---|
| SyncPools.SyncPool.constructor | nzpy_extended/pool.py:415-447 | a new pool has every permit free, nothing open, nothing lent |
| SyncPools.SyncPool.Uncount | nzpy_extended/pool.py:467-470 | gives one counted place back, clamped at zero, and changes nothing else |
| SyncPools.SyncPool.LookForOne | nzpy_extended/pool.py:578-587 | the lock region of `_checkout`: closed, head of the idle queue, a newly counted place, or nothing |
| SyncPools.SyncPool.AdoptValidated | nzpy_extended/pool.py:610-619 | registers a validated connection as checked out, unless the pool was closed meanwhile |
| SyncPools.SyncPool.AdoptConnected | nzpy_extended/pool.py:632-642 | registers a new connection, or uncounts it when the pool was closed while connecting |
| SyncPools.SyncPool.ReserveFill | nzpy_extended/pool.py:475-479 | counts a place for a pre-create only while open and below `min_size` |
| SyncPools.SyncPool.PublishFill | nzpy_extended/pool.py:491-500 | appends a pre-created connection to the idle queue, or uncounts it after close |
| SyncPools.SyncPool.TakeForSweep | nzpy_extended/pool.py:535-538 | takes the head of the idle queue out of the queue for testing |
| SyncPools.SyncPool.ReturnFromSweep | nzpy_extended/pool.py:541-548 | puts a tested connection back unless the pool was closed |
| SyncPools.SyncPool.TakeForRelease | nzpy_extended/pool.py:645-654 | refuses a connection that is not checked out, else removes it from the table |
| SyncPools.SyncPool.PutAfterRelease | nzpy_extended/pool.py:679-690 | keeps a reusable connection in an open pool, else uncounts it |
| SyncPools.SyncPool.ReleaseSlot | nzpy_extended/pool.py:570-573 | a permit goes back after a release or a failed acquire |
| SyncPools.SyncPool.CloseAll | nzpy_extended/pool.py:712-731 | forgets all bookkeeping, releases `max_size` permits and hands the caller every idle and lent connection |
| SyncPoolRuns.StepCustody | nzpy_extended/pool.py:558-690 | every step moves each connection from exactly one place to exactly one place, or opens, closes or loses it |
| SyncPoolRuns.StepCounts | nzpy_extended/pool.py:467-500 | before close every step changes `_created` and the permits by what its own thread takes, gives or wastes |
| SyncPoolRuns.StepKeepsCustody | nzpy_extended/pool.py:558-690 | single custody of every live connection is kept by any step of any thread |
| SyncPoolRuns.StepKeepsCounts | nzpy_extended/pool.py:525-548 | the counter and permit equations are kept by any step of any thread |
| SyncPoolSafety.RunKeepsInv | nzpy_extended/pool.py:558-690 | any interleaving of any number of threads keeps the whole invariant |
| SyncPoolSafety.CountersAreExact | nzpy_extended/pool.py:558-602 | in every reachable open state `_created` = idle + checked out + thread-owned + wasted places, at most `max_size`; permits + slot holders + checked out + wasted permits = `max_size`; no more places than permits are wasted |
| SyncPoolSafety.OneOwner | nzpy_extended/pool.py:604-690 | no connection is in two of: idle queue, checked-out table, a thread; and none is listed twice |
| SyncPoolSafety.StepWastes | nzpy_extended/sync.py:325-380 | what one step wastes: nothing unless its thread is interrupted while it waits; then the connection it opens (outside the handshake), rolls back or has not begun to close, and the place and permit of an unfinished release |
| SyncPoolSafety.LostExactlyWhenInterrupted | nzpy_extended/pool.py:558-731 | the open connections without an owner, the places and the permits that are gone are exactly those that interrupts wasted |
| SyncPoolSafety.NothingLostWithoutInterrupt | nzpy_extended/pool.py:558-731 | without an interrupt nothing is ever lost, whatever fails |
| SyncPoolSafety.LostForGood | nzpy_extended/pool.py:645-690 | what is lost stays lost and open in every run |
| SyncPoolSafety.WasteShrinksThePool | nzpy_extended/pool.py:672-690 | each wasted permit is one connection less on loan or on its way, in every later state before close |
| SyncPoolExamples.InterruptedConnectLeavesItOpen | nzpy_extended/_runner.py:52-60 | such a run: the cancelled connect coroutine is past no handler that closes it, and the connection stays open unowned |
| SyncPoolExamples.InterruptedRollbackEndsAPoolOfOne | nzpy_extended/pool.py:661-690 | such a run: after one release interrupted in its rollback a pool of one has no permit and no place left |
| SyncPoolSafety.NoOtherConnectionIsLost | nzpy_extended/pool.py:604-690 | every other open connection is in a queue or owned by a thread |
| SyncPoolSafety.ClampNeverFires | nzpy_extended/pool.py:467-496 | before close `max(0, _created - 1)` always subtracts one |
| SyncPoolSafety.EmptyAndFullMeansUpkeep | nzpy_extended/pool.py:588-602 | a thread that finds the queue empty and the pool full can rely on a sweep or a pre-create that owns a counted place |
| SyncPoolExamples.PreCreateAloneFillsThePool | nzpy_extended/pool.py:595-596 | a run in which only a pre-create, and no sweep, makes a thread wait there: the comment names one cause of two |
| SyncPoolShutdown.NoAcquireSucceedsAfterClose | nzpy_extended/pool.py:604-643 | after close no run brings an acquire to the point of returning a connection, unless it had registered it before |
| SyncPoolShutdown.ClosedConnectionsStayClosed | nzpy_extended/pool.py:624-643 | connection numbers are not reused: what is closed stays closed in every run |
| SyncPoolShutdown.OwnerClosesIt | nzpy_extended/pool.py:604-690 | after close an owned connection is closed within the stated number of its owner's next steps, whatever fails and whatever the others do, unless an interrupt wastes it |
| SyncPoolShutdown.EveryConnectionGetsClosed | nzpy_extended/pool.py:712-731 | at close every open connection that is not lost (mid-connect, mid-validation, mid-sweep, mid-release, idle or lent) has an owner whose steps close it |
| SyncPoolHistory.NothingWithoutSuccess | nzpy_extended/pool.py:558-643 | a thread for which no operation works is never about to return a connection |
| SyncPoolHistory.HandedOutWasValidated | nzpy_extended/pool.py:604-622 | a connection that was there before and is handed out was taken from the head of the idle queue by that thread and held under validation until its ping worked |
| SyncPoolHistory.HealthyIsHandedOut | nzpy_extended/pool.py:604-622 | in a pool that stays open a connection whose ping works is registered and handed out by the thread's next step, whatever happens in between |
| SyncPoolHistory.EntersIdle | nzpy_extended/pool.py:491-548 | a connection becomes idle only in an open pool, and only after a sweep test, after a pre-create, or by a release whose rollback worked |
| SyncPoolHistory.BeforeSweepTested | nzpy_extended/pool.py:535-548 | a sweep comes to put a connection back only by a ping of that connection that worked |
| SyncPoolHistory.HealthyGoesBack | nzpy_extended/pool.py:538-548 | in a pool that stays open a healthy connection goes back to the end of the idle queue |
| SyncPoolHistory.BeforeBuilding | nzpy_extended/pool.py:624-643 | a connection being opened got through its phases one by one, each of which worked, from a new socket on |
| SyncPoolHistory.FailureIsFinal | nzpy_extended/pool.py:525-690 | a connection whose ping, opening or rollback fails or is interrupted is never idle or lent again, in any run |
| SyncPoolCalls.AcquireIdle | nzpy_extended/pool.py:558-622 | the whole state after an acquire that validates an idle connection: head of the queue to the table, one permit less |
| SyncPoolCalls.AcquireStale | nzpy_extended/pool.py:604-622 | the whole state after a validation that fails: the connection closed, its place free, the permit kept, and the thread looks again |
| SyncPoolCalls.AcquireNew | nzpy_extended/pool.py:575-643 | the whole state after an acquire that opens a connection: in the table, counted, on a permit |
| SyncPoolCalls.AcquireFails | nzpy_extended/pool.py:558-573 | an acquire whose connect fails leaves queue, table, counter and permits as they were |
| SyncPoolCalls.AcquireInVain | nzpy_extended/pool.py:588-602 | an acquire that finds the pool empty and full looks again, or leaves everything as it was at its deadline |
| SyncPoolCalls.ReleaseUsable | nzpy_extended/pool.py:645-690 | the whole state after a release that keeps the connection: last in the idle queue, one permit more |
| SyncPoolCalls.ReleaseUnusable | nzpy_extended/pool.py:645-690 | the whole state after a release that drops it: closed, uncounted, one permit more |
| SyncPoolCalls.FillsOne | nzpy_extended/pool.py:473-500 | the whole state after one pre-create |
| SyncPoolCalls.SweepDrops | nzpy_extended/pool.py:525-548 | the whole state after a sweep test that fails, and that the sweep goes on |
| SyncPoolCalls.CloseAllCloses | nzpy_extended/pool.py:712-731 | the whole state after `close_all` ran to its end: every idle and every lent connection closed |
| NzPools.NzPool.constructor | nzpy_extended/pool.py:61-95 | a new pool has nothing open, nothing lent and nothing reserved |
| NzPools.NzPool.AbandonSlot | nzpy_extended/pool.py:168-171 | gives one counted place back, clamped at zero |
| NzPools.NzPool.DropOwnedSlot | nzpy_extended/pool.py:173-180 | removes the reservation and the counted place of a connection the task owns |
| NzPools.NzPool.LookForOne | nzpy_extended/pool.py:302-309 | the region under the condition: reserves the idle head, or counts a new place, or waits |
| NzPools.NzPool.AdoptConnected | nzpy_extended/pool.py:189-196 | registers a new connection, or uncounts it after close |
| NzPools.NzPool.CheckOutIdle | nzpy_extended/pool.py:277-287 | moves a validated connection from reserved to checked out, or drops it after close |
| NzPools.NzPool.ReserveFill | nzpy_extended/pool.py:200-201 | counts a place for a pre-create only while open and below `min_size` |
| NzPools.NzPool.PublishFill | nzpy_extended/pool.py:211-216 | appends a pre-created connection to the idle queue, or uncounts it after close |
| NzPools.NzPool.TakeForSweep | nzpy_extended/pool.py:247-251 | takes the idle head and reserves it |
| NzPools.NzPool.FinishSweepTest | nzpy_extended/pool.py:254-261 | returns a healthy connection to the queue, drops any other |
| NzPools.NzPool.PutBack | nzpy_extended/pool.py:354-373 | refuses a connection that is not checked out, drops an unusable one, keeps the rest |
| NzPools.NzPool.CloseAll | nzpy_extended/pool.py:394-405 | forgets idle and lent connections and hands them to the closer |
| NzPoolRuns.StepCustody | nzpy_extended/pool.py:182-380 | every step between awaits moves each connection from one place to one place, or opens, closes or loses it |
| NzPoolRuns.StepBooks | nzpy_extended/pool.py:150-217 | every step keeps `_reserving` and `_created` in line with what its own task holds |
| NzPoolRuns.StepKeepsInv | nzpy_extended/pool.py:150-154 | plain writes between awaits are enough: any step of any task keeps the invariant |
| NzPoolSafety.RunKeepsInv | nzpy_extended/pool.py:150-154 | any interleaving with failures and cancellations at every await keeps the invariant |
| NzPoolSafety.CountersAreExact | nzpy_extended/pool.py:168-217 | in every reachable open state `_created` = idle + checked out + reserved + being opened, at most `max_size` |
| NzPoolSafety.ReservingIsExact | nzpy_extended/pool.py:236-287 | `_reserving` holds exactly the connections some task is validating, once each |
| NzPoolSafety.OneOwner | nzpy_extended/pool.py:236-380 | no connection is idle, lent, reserved or task-owned twice or in two of these ways at once |
| NzPoolSafety.ClampNeverFires | nzpy_extended/pool.py:168-217 | before close `max(0, _created - 1)` always subtracts one |
| NzPoolSafety.StepLoses | nzpy_extended/core.py:300-454 | a step drops the last reference to an open connection exactly when its opening is cancelled outside the handshake, or fails while dialling or in the session set-up with an exception nothing there closes it for |
| NzPoolSafety.LostExactlyWhenLeftOpen | nzpy_extended/pool.py:96-118 | the open connections without an owner after a run are exactly those whose opening ended so |
| NzPoolSafety.LostForGood | nzpy_extended/pool.py:96-118 | a lost connection stays lost and open in every run |
| NzPoolExamples.LeavesAConnectionOpen | nzpy_extended/pool.py:96-118 | each such way happens: with a hook cancelled, or with no cancellation and a set-up query refused, the acquire fails and the connection stays open unowned |
| NzPoolSafety.NoOtherConnectionIsLost | nzpy_extended/pool.py:182-380 | every other open connection is in a queue or owned by a task |
| NzPoolShutdown.NothingCheckedOutAfterClose | nzpy_extended/pool.py:189-196 | once closed, no acquire in flight checks anything out, in any run |
| NzPoolShutdown.ClosedConnectionsStayClosed | nzpy_extended/pool.py:182-196 | what is closed stays closed in every run |
| NzPoolShutdown.OwnerClosesIt | nzpy_extended/pool.py:253-287 | after close an owned connection is closed within the stated number of its task's steps, unless its opening ends in one of these ways |
| NzPoolShutdown.EveryConnectionGetsClosed | nzpy_extended/pool.py:390-405 | at close every open connection that is not lost has an owner whose steps close it |
| NzPoolHistory.EntersOut | nzpy_extended/pool.py:182-287 | a connection is checked out only in an open pool, and only by a ping that worked or an opening that worked to the end of its hook |
| NzPoolHistory.LentWasValidated | nzpy_extended/pool.py:271-309 | an idle connection that comes to be lent was taken from the head of the queue by one task, held under validation until its ping worked, and is in the table since |
| NzPoolHistory.HealthyIsHandedOut | nzpy_extended/pool.py:277-287 | in an open pool a connection whose ping works moves from reserved to checked out at once |
| NzPoolHistory.EntersIdle | nzpy_extended/pool.py:211-261 | a connection becomes idle only in an open pool, by a sweep test, a pre-create or a release that worked |
| NzPoolHistory.FailureIsFinal | nzpy_extended/pool.py:236-373 | a connection whose ping or opening fails or is cancelled, or that is found unusable at its release, is never idle or lent again |
| NzPoolCalls.AcquireIdle | nzpy_extended/pool.py:289-330 | the whole state after an acquire that validates an idle connection |
| NzPoolCalls.AcquireStale | nzpy_extended/pool.py:271-287 | the whole state after a validation that fails: closed, uncounted, no longer reserved, and the task starts over |
| NzPoolCalls.AcquireNew | nzpy_extended/pool.py:182-196 | the whole state after an acquire that opens a connection through all its phases |
| NzPoolCalls.PhaseFails | nzpy_extended/pool.py:182-196 | the whole state after an opening phase that fails: the place goes back, and the connection is closed or lost as the phase is guarded |
| NzPoolCalls.AcquireInVain | nzpy_extended/pool.py:302-330 | an acquire that finds the pool empty and full waits, then starts over or leaves everything as it was |
| NzPoolCalls.ReleaseUsable | nzpy_extended/pool.py:332-380 | the whole state after a release that keeps the connection |
| NzPoolCalls.ReleaseUnusable | nzpy_extended/pool.py:332-380 | the whole state after a release that drops it |
| NzPoolCalls.FillsOne | nzpy_extended/pool.py:198-217 | the whole state after one pre-create |
| NzPoolCalls.SweepKeeps | nzpy_extended/pool.py:236-261 | the whole state after a sweep test that works |
| NzPoolCalls.SweepDrops | nzpy_extended/pool.py:236-261 | the whole state after one that fails, and that the sweep goes on |
| NzPoolCalls.CloseAllCloses | nzpy_extended/pool.py:390-405 | the whole state after `close_all` ran to its end; what is being validated stays with its task |
| Streams.NzBufferedStream.RotateBuffer | nzpy_extended/buffered_stream.py:304-312 | moving the unread bytes to the front changes no byte of the queue |
| Streams.NzBufferedStream.FillBuffer | nzpy_extended/buffered_stream.py:242-248 | receiving more changes no byte of the queue; an empty receive on an empty buffer means the end of the stream |
| Streams.NzBufferedStream.ReadViewSync | nzpy_extended/buffered_stream.py:56-67 | hands out the front of the queue, or nothing and consumes nothing; refuses invalid lengths |
| Streams.NzBufferedStream.Collect | nzpy_extended/buffered_stream.py:139-163 | collects exactly the next bytes over any number of refills; a failure marks the stream if and only if it consumed something |
| Streams.NzBufferedStream.Refill | nzpy_extended/buffered_stream.py:154-161 | is called on an empty buffer only, so no bytes received means end of file |
| Streams.NzBufferedStream.ReadView | nzpy_extended/buffered_stream.py:117-163 | returns the next bytes of the queue, in order, or an error with its cause; an unmarked failure consumed nothing |
| Streams.NzBufferedStream.Read | nzpy_extended/buffered_stream.py:165-240 | the same for `read`, including the path that receives straight into a large result |
| Streams.NzBufferedStream.ReadLarge | nzpy_extended/buffered_stream.py:165-205 | buffered bytes first, then received bytes, without loss or repeat |
| Streams.NzBufferedStream.ReadAvailableView | nzpy_extended/buffered_stream.py:69-76 | shows exactly the buffered prefix of the queue |
| Streams.NzBufferedStream.AdvanceHead | nzpy_extended/buffered_stream.py:101-102 | consumes exactly the bytes looked at |
| Streams.NzBufferedStream.DiscardBufferedLeadingNulls | nzpy_extended/buffered_stream.py:93-99 | removes NUL bytes only, up to the first other buffered byte |
| Streams.Session | nzpy_extended/buffered_stream.py:56-248 | any mix of reads over any arrival of bytes hands out the received bytes in order; a failure that left `partial_read` false lost none |
| RowBatches.FrameIsRow | rust/src/frames.rs:7-18 | a complete buffered row frame is what the one-message reader would take next, whatever follows the buffer |
| RowBatches.BatchRows | rust/src/lib.rs:184-200 | the decoded rows are the next messages and the consumed bytes are theirs; it stops in front of a value that does not decode, and a layout fault makes the result unreadable |
| ResultReaders.ResultReader.DeferDecodeError | nzpy_extended/core.py:781-787 | only the first value error is kept |
| ResultReaders.ResultReader.TakeDeferredDecodeError | nzpy_extended/core.py:789-796 | pops the deferred error; a server error takes precedence |
| ResultReaders.ResultReader.TakeHeader | nzpy_extended/_protocol.py:491-502 | takes the header read ahead or five bytes; a failure that consumed nothing leaves the stream at a message boundary with the frame flag off |
| FrameReads.ReadFrame | nzpy_extended/_protocol.py:503-733 | reads each message body to exactly the byte its framing says, over any arrival of bytes |
| FrameReads.ReadRowPayload | nzpy_extended/_protocol.py:602-609 | eight bytes, then as many as their last word says |
| FrameReads.ReadUnload | nzpy_extended/_extab.py:92-141 | the unload loop stops exactly where its status words say |
| FrameReads.ReadLogFile | nzpy_extended/_protocol.py:695-711 | a log file message is read to its empty block |
| FrameReads.ReadLoadRequest | nzpy_extended/_extab.py:157-181 | the request of a load: lead, non-empty name, three words |
| ResultReaders.ResultReader.TakeMessage | nzpy_extended/_protocol.py:491-733 | one message is delivered as its meaning, or the wire is malformed or a receive failed |
| ResultReaders.ResultReader.TakeBatch | nzpy_extended/_protocol.py:616-634 | the batch path delivers rows that one-message reading would deliver next, and consumes their bytes |
| ResultReaders.ResultReader.AfterRow | nzpy_extended/_protocol.py:616-638 | behind a row: buffered rows, then a header read ahead with the frame flag off |
| ResultReaders.ResultReader.NextState | nzpy_extended/_protocol.py:602-649 | what is read up to the next yielded state is a run of messages, and the state announces what they hold |
| ResultItems.ItemsAfter | nzpy_extended/_protocol.py:482-733 | reading part of a result and then the rest is reading the result |
| ResultItems.ItemsEndAtResultEnd | nzpy_extended/_protocol.py:526-540 | the meaning of a result ends at the byte where its framing ends |
| Fetching.ReadAll | nzpy_extended/core.py:770-779 | for every wire content and every fragmentation, with or without the native batch path: the rows, the first value error, the last server error and the final position of reading one message at a time |
| Fetching.FetchAll | nzpy_extended/cursor.py:255-299 | `fetchall` raises the first server error after draining, if no description of another result is in front of it, else the first value error, else returns every row of the result, but for the rows of empty queries behind the last row message, which stay in the cache; at a new description it returns the rows before it |
| Fetching.FailAfterDrain | nzpy_extended/cursor.py:288-295 | an error state drains to ReadyForQuery before the error is raised |
| Answers.ItemsTell | nzpy_extended/_protocol.py:482-733 | a printed response is read if and only if none of its messages has a fault, and then each message is read as what its own code and payload say under the last descriptors and the transaction state in front of it |
| Answers.FetchResponse | nzpy_extended/cursor.py:255-299 | in front of a printed response, however it arrives: the error is that of the first error message or failed tag, if no description is in front of it; else at the first description the rows in front of it; else the first value error; else the decoded payloads in order |
| Answers.OneAnswer | nzpy_extended/cursor.py:255-299 | the messages of a response call for one answer only |
| Answers.ReadResponse | nzpy_extended/core.py:770-779 | the generator run to its end holds the rows, the first value error and the last server error of the printed messages, and stands behind ReadyForQuery |
| Iterating.Turned | nzpy_extended/cursor.py:344-375 | one step of iteration: the next row, or one of the ends, with what was read |
| Iterating.Iterate | nzpy_extended/cursor.py:344-375 | iteration ends at the first CommandComplete with every row before it and the value error still pending |
| Iterating.IterationRaisesExactly | nzpy_extended/cursor.py:358-365 | in a result without server error or empty query, iteration raises the pending value error if and only if no CommandComplete is sent |
| DrainAgrees.ResultConsumesAll | nzpy_extended/_protocol.py:482-733 | the result parser consumes every well-formed response up to its ReadyForQuery |
| DrainAgrees.DrainStep | nzpy_extended/_protocol.py:775-894 | what the drain can do at a message: after a row it may or may not skip padding, after others it does |
| DrainAgrees.DrainConsumesAll | nzpy_extended/_protocol.py:762-894 | without a lone padding block behind a row the drain ends at the same byte, however the bytes arrive |
| DrainAgrees.TwoPadsRealign | nzpy_extended/_protocol.py:818-830 | two padding blocks taken as a header bring the drain back in step |
| DrainAgrees.OnePadDerails | nzpy_extended/_protocol.py:818-830 | one padding block taken as a header makes the drain fail |
| DrainAgrees.BufferedDrainExactly | nzpy_extended/_protocol.py:818-830 | with the whole response buffered the drain ends where the result parser does if no row is followed by exactly one padding block, and fails otherwise |
| DrainAgrees.ParsersAgreeExactly | nzpy_extended/_protocol.py:762-894 | the two parsers agree for every arrival of the bytes if and only if no row message is followed by exactly one padding block |
| FrameReads.ReadDrainFrame | nzpy_extended/_protocol.py:794-888 | the drain reads each body to exactly the byte its own framing says |
| Draining.DrainRows | nzpy_extended/_protocol.py:809-837 | the inner row loop keeps the header that is not a row's |
| Draining.DrainSocket | nzpy_extended/_protocol.py:735-905 | the loop ends in a way the drain relation allows; every failure closes the connection |
| Draining.DrainResponse | nzpy_extended/_protocol.py:735-905 | on a well-formed response without a lone padding block behind a row it stops where the result parser stops, or a read failed |
| Draining.DrainBufferedResponse | nzpy_extended/_protocol.py:735-905 | on a fully buffered response it succeeds if and only if no row is followed by exactly one padding block, unless its deadline passes |
| Calendar.J2DateList | nzpy_extended/types.py:481-498 | the updates of the Python locals compute the same date as the Rust expression |
| Calendar.J2DateIsDate | rust/src/temporal.rs:13-25 | every integer is the day number of a valid proleptic Gregorian date, and that date's number is the integer |
| Calendar.DateRoundTrip | nzpy_extended/types.py:475-498 | every valid date is the date of its day number |
| Calendar.J2DateNext | rust/src/temporal.rs:13-25 | the next day number is the next day of the calendar |
| Calendar.NextDayNumber | nzpy_extended/types.py:475-478 | `date2j` of the next day is one more |
| Calendar.Epochs | rust/src/temporal.rs:9-15 | day 2451545 is 1 January 2000, and day 0 is 24 November 4714 BC |
| Temporal.TruncatedQuotient | nzpy_extended/types.py:501-515 | for operands below 2^53 `int(a / b)` is the exact truncated quotient, for every way to round |
| Temporal.Time2Struct | nzpy_extended/types.py:501-515 | agrees with the Rust split below 2^53; above it the hour is out of range |
| Temporal.TimeIsClock | rust/src/temporal.rs:34-42 | a time of day splits into a clock that says exactly the count |
| Temporal.ClockIsTime | rust/src/temporal.rs:34-42 | every clock is the split of its count |
| Temporal.NegativeTime | rust/src/temporal.rs:32-42 | a negative time is recovered from its parts if and only if it is a whole number of hours |
| Temporal.Timestamp2Struct | nzpy_extended/types.py:528-558 | the Python split gives the Rust parts, or False where Rust gives none |
| Temporal.TimestampLossless | rust/src/temporal.rs:44-62 | every accepted count is a valid date and clock that say exactly the count; refused are exactly those before Julian day 0 |
| Temporal.TimestampOnto | rust/src/temporal.rs:44-62 | every date from Julian day 0 on, with every clock, is the reading of its count |
| Numbers.ReadSignedRight | rust/src/fields.rs:168-181 | the shifts give the two's complement value for every width from 0 to 8 bytes, and of the first eight of more |
| Numbers.RustCoefficient | rust/src/numeric.rs:8-30 | for 1 to 4 words the 128-bit arithmetic gives the two's complement value without overflow |
| Numbers.PythonCoefficient | nzpy_extended/_dbos.py:495-515 | the unbounded Python form gives the same value |
| Layouts.WalkIsPointerWalk | nzpy_extended/_dbos.py:556-567 | the offsets of the varying fields are where the pointer walk finds them, and exactly a broken chain is refused |
| Layouts.ResolveRight | rust/src/layout.rs:43-109 | the checks accept starts if and only if the row is laid out so: bitmap, chain, NULL bits, starts and extents |
| Layouts.LayoutsAgree | nzpy_extended/_dbos.py:291-362 | Rust and Python accept the same rows with the same starts; for headers without negative numbers also with the same reason |
| Layouts.RustCheckSpan | rust/src/layout.rs:128-193 | the span check in 64-bit arithmetic never overflows and is the span rule |
| Layouts.RustVaryingOffsets | rust/src/layout.rs:65-84 | the loop over varying fields never overflows and finds the offsets |
| Layouts.RustResolveStarts | rust/src/layout.rs:43-109 | the whole check in 64-bit arithmetic, against the common rule |
| Layouts.PythonVaryingOffsets | nzpy_extended/_dbos.py:325-340 | the Python loop finds the same offsets |
| Layouts.PythonCheckSpan | nzpy_extended/_dbos.py:228-289 | the Python branches are the same span rule |
| Layouts.PythonValidate | nzpy_extended/_dbos.py:291-362 | the whole Python check, against the common rule |
| RowDecoding.RustPad | rust/src/fields.rs:149-166 | returning the argument unchanged is still strip and pad |
| RowDecoding.PythonField | nzpy_extended/_dbos.py:376-516 | every field type decodes to the value of the Rust form, and indexes only bytes of the row |
| RowDecoding.RustRow | rust/src/lib.rs:130-143 | a validated row decodes to its values or to the first column that does not |
| RowDecoding.PythonRow | nzpy_extended/_dbos.py:366-527 | the same for the Python decoder |
| RowDecoding.BothDecoders | nzpy_extended/_dbos.py:189-213 | run on the same row, the two decoders give the same values, or the same bad column, or both a layout fault |
| FieldStorage.FieldBack | rust/src/fields.rs:195-330 | what the server stores for a value of any type (two's complement by width, length word, coefficient words, clock before zone) is read back as that value wherever it stands in a row |
| FieldStorage.SignedBack | rust/src/fields.rs:168-181 | the little-endian two's complement bytes of a number in range are read as the number |
| FieldStorage.CoefficientBack | rust/src/numeric.rs:8-30 | a NUMERIC coefficient stored most significant word first is read back |
| RowStorage.NullBitIs | rust/src/layout.rs:95-109 | in a printed row the bit of a column, the first column in the lowest bit, is set if and only if the column is NULL |
| RowStorage.WalkFinds | nzpy_extended/_dbos.py:556-567 | in a printed row the pointer walk finds the varying columns one behind the other |
| RowStorage.RowBack | rust/src/lib.rs:130-143 | a row printed from optional values (header, NULL bitmap, fixed columns at their offsets, varying columns padded to even lengths) passes both layout checks and means these values |
| RowStorage.DecodeStored | nzpy_extended/_dbos.py:366-527 | both decoders, run on a printed row, give its values back |
| DelimitedText.BuildsExactly | nzpy_extended/_bulk.py:133-147 | which delimiter and escape character `build_options` accepts |
| DelimitedText.TextFront | nzpy_extended/_bulk.py:755-774 | an escaped text is read back whole and never breaks its field or line |
| DelimitedText.NeverMarker | nzpy_extended/_bulk.py:709-710 | no accepted text is rendered as the NULL marker |
| DelimitedText.RoundTrip | nzpy_extended/_bulk.py:13-15 | the reader of the documented format recovers every text and NULL of a table of accepted cells |
| DelimitedText.RoundTripExactly | nzpy_extended/_bulk.py:133-147 | with accepted options every table comes back if and only if the delimiter is neither a backslash nor `N` and the escape is not `N` |
| Decimals.NormalizeExactly | nzpy_extended/_bulk.py:592-592 | `normalize()` keeps the value if and only if at most 28 digits are left without trailing zeros |
| Decimals.NormalTextExactly | nzpy_extended/_bulk.py:592-598 | the rendered text denotes the number under the same condition |
| Decimals.FixedTextRead | nzpy_extended/_bulk.py:598-598 | `format(d, "f")` denotes the number, digit for digit and with its sign |
| Decimals.WholeShape | nzpy_extended/_bulk.py:240-249 | a normalised integer has its own number of digits, one more if rounding carries |
| Inference.InferInt | nzpy_extended/_bulk.py:212-219 | the inferred integer range holds every cell and no smaller integer type does, and refusal means a cell beyond 64 bits |
| Inference.InferNumeric | nzpy_extended/_bulk.py:331-345 | the inferred precision and scale hold every number and are needed by some cell |
| Inference.InferColumnType | nzpy_extended/_bulk.py:317-356 | the type inferred for a column of None, bool, int and Decimal is of the kind of its cells, fits every cell, and is needed by one of them; a refusal comes with a cell beyond 64 bits, a precision above 38 that cells need, a special number, or a text too long |
| Inference.InferenceSound | nzpy_extended/_bulk.py:510-600 | a cell is accepted by the type inferred from its column if and only if it is not an integer whose rounding carries beyond the column, or a special number among truth values |
| Inference.DenotesExactly | nzpy_extended/_bulk.py:567-600 | an accepted text denotes its cell if and only if the number was not rounded |
| Inference.InferenceSoundTo28Digits | nzpy_extended/_bulk.py:317-345 | with at most 28 digits everywhere every cell is accepted and denotes its value |
| Inference.UnsoundColumns | nzpy_extended/_bulk.py:331-345 | columns whose own inferred type refuses a cell: one number beside more than 28 nines, and NaN beside a truth value; the inference does return that type |
| Rendering.Line | nzpy_extended/_bulk.py:833-849 | a row is rendered as its fields joined, or reported with its number and the first bad column |
| Rendering.Render | nzpy_extended/_bulk.py:792-797 | a batch is rendered as its table, or reported with the first error |
| Rendering.RenderedJoin | nzpy_extended/_bulk.py:799-806 | rendering two parts with consecutive numbers is rendering the whole, errors included |
| Rendering.LoadRoundTrip | nzpy_extended/_bulk.py:777-849 | whatever rows were accepted, the reader gets back exactly their converted texts and NULLs |
| LoadedValues.PickedRight | nzpy_extended/_bulk.py:808-831 | exactly the rows that match the columns are taken, and each column gets its own value: by position in a list, under its first name that is a key in a dictionary |
| LoadedValues.LoadArrives | nzpy_extended/_bulk.py:777-849 | end to end on the caller's values: what the reader finds at a row and column is NULL for None, the string itself in a text column, a text that denotes the number or truth value; NULL for nothing else if the other converters never answer NULL |
| LoadedValues.StringAcceptedExactly | nzpy_extended/_bulk.py:684-727 | a string is refused by a text column if and only if it cannot be encoded, is longer than the column, is the NULL marker where that is ambiguous, or has a special character that nothing escapes |
| LoadedValues.LoadAcceptedExactly | nzpy_extended/_bulk.py:792-849 | a load is rendered if and only if every row matches the columns and each of its values has a cell |
| LoadedValues.FirstErrorNamed | nzpy_extended/_bulk.py:833-849 | an error names the first row that is not rendered, and the first column in it whose value has no cell |
| LoadedValues.NumericAcceptedExactly | nzpy_extended/_bulk.py:567-600 | a number of at most 28 significant digits is accepted by NUMERIC(p, s) if and only if it is a number of units of the last place with at most p digits, except that zero is refused when p = s |
| ExternalTables.BlocksReceived | nzpy_extended/_extab.py:102-126 | the receiver loop reassembles a sequence of blocks if and only if each can be read in one piece |
| ExternalTables.ReceiveBlocks | nzpy_extended/_extab.py:92-141 | the receiver loop over any arrival of bytes yields the data and how the transfer ended; an end of the stream between two blocks returns the data so far, as if done, with the stream closed |
| ExternalTables.SendChunk | nzpy_extended/_extab.py:191-205 | a chunk is cut into frames whose blocks are not empty, not above the block size, and are the chunk |
| ExternalTables.SendBytes | nzpy_extended/_extab.py:211-214 | in-memory bytes, sent in pieces, are sent whole |
| ExternalTables.SendRows | nzpy_extended/_bulk.py:852-867 | lazy batches send all rows, or whole batches in front of the first error, which carries its global row number |
| ExternalTables.TransferRows | nzpy_extended/_extab.py:189-264 | every block is within the block size; the receiver reassembles one rendering of the rows sent, then done if no row had an error and else the shortened report, if and only if it can read each block in one piece |
| ExternalTables.TransferBytes | nzpy_extended/_extab.py:207-243 | the receiver reassembles the in-memory source, for every block size |
| Params.ConvertQmark | nzpy_extended/utils.py:83-213 | the first pass prints a numbered marker for each question mark outside and copies the rest |
| Params.RenderPrepared | nzpy_extended/utils.py:281-362 | the second pass fills the markers it reads with literals, or fails at the first that has none |
| Params.SecondPassReadsFirst | nzpy_extended/utils.py:318-331 | the second pass reads the pieces the first meant if and only if no `$` stands before a digit outside and no question mark is followed by a digit |
| Params.TwoPassesSubstitute | nzpy_extended/utils.py:83-362 | on such queries the two passes are direct substitution and return the number of marks |
| Params.Prepare | nzpy_extended/core.py:755-768 | on such queries it succeeds if and only if there is one value for each mark |
| Params.PrepareExactly | nzpy_extended/core.py:755-768 | it is direct substitution for every choice of values if and only if the query is such |
| Syntax.LineComment | nzpy_extended/utils.py:198-201 | a line comment ends at its line feed: what stands in it is copied, and the text behind it is read from outside |
| Syntax.BlockComment | nzpy_extended/utils.py:83-213 | the same for a block comment and its first `*/` |
| Syntax.QuotedName | nzpy_extended/utils.py:83-213 | the same for a quoted name and its closing quote |
| Syntax.TextLiteral | nzpy_extended/utils.py:83-213 | the same for a text literal with its apostrophes doubled, when no apostrophe follows |
| Syntax.OneCharacter | nzpy_extended/utils.py:83-213 | and for a single character that opens nothing |
| Syntax.OutsideAgain | nzpy_extended/utils.py:83-213 | a query built of such parts is read part by part |
| Syntax.OpenEndIsText | nzpy_extended/utils.py:83-213 | behind an opening that is never closed nothing is a mark |
| Syntax.PreparePlaces | nzpy_extended/core.py:755-768 | on a query built of such parts and marks the i-th value stands at the i-th mark, and the two passes succeed if and only if there is one value for each mark |
| Syntax.MarkBelowAComment | nzpy_extended/utils.py:347-350 | a mark in the line below a comment is filled |
| Relexing.TextLiteralRead | nzpy_extended/utils.py:75-80 | a text parameter is read back as one literal with its value, whatever it contains, if and only if no apostrophe follows |
| Relexing.InStepExactly | nzpy_extended/utils.py:281-362 | read again, the substituted query is in step with the query, and each literal stands alone, if and only if no literal sticks to a neighbouring character |
| Relexing.InStepToTheEnd | nzpy_extended/utils.py:281-362 | it then ends outside, in a text, a name or a comment exactly as the query does |
| Relexing.QuotedSeams | nzpy_extended/utils.py:75-80 | a text literal sticks exactly to apostrophes |
| Relexing.NumberSeams | nzpy_extended/utils.py:250-251 | an integer sticks exactly to a minus sign in front of it, when it is negative |
| Relexing.LiteralsThatStick | nzpy_extended/utils.py:239-251 | `5-?` with -1 opens a comment, and a text in front of a text literal runs into it |
| IdentifierPaths.PathCut | nzpy_extended/_ddl.py:514-537 | the first loop cuts a path where the names were joined |
| IdentifierPaths.NameRead | nzpy_extended/_ddl.py:538-558 | a quoted name is read back; only a bare name with a line feed behind it loses that |
| IdentifierPaths.PathRoundTripExactly | nzpy_extended/_ddl.py:108-121 | the names come back if and only if there are one to three, only the middle one of three is empty, and none is a bare name ending in a line feed |
| IdentifierPaths.PathsDiffer | nzpy_extended/_ddl.py:501-501 | lists of names with the same path are the same names, but for such line feeds |
| IdentifierPaths.QuotedWhenRequired | nzpy_extended/_ddl.py:108-121 | the database, which folds bare words to upper case and has reserved words, reads a printed name as that name, but for such a line feed; and a name it reads bare is not quoted |
| IdentifierPaths.SplitIdentifierPath | nzpy_extended/_ddl.py:514-562 | the loops compute the specified split, error cases included |

## Left out

- Sockets, TLS, timers, logging, files and the event loop: their results are inputs of a step, or failures that may come at any receive. The look at undecrypted TLS bytes is not modelled.
- Liveness and fairness: nothing says that a waiting acquire is ever woken.
- Validation of pooled connections is a result that may come out either way; use counts and timestamps are not kept. The two tables of checked-out connections of the threaded pool are one table here, and connections are numbers that are never reused, where the code uses object identities.
- An interrupt of a thread is modelled where the thread waits (for a permit, a connect, a ping, a rollback, a close, a sleep), not between two statements of the bookkeeping and not while it waits for `_lock`, which is held for a few statements only.
- Finalisers are not modelled: `Connection.__del__` (`nzpy_extended/core.py:159-180`) and `SyncConnection.__del__` (`nzpy_extended/sync.py:297-310`) close the socket of an object that nobody refers to, whenever it is collected. "Lost" means that no code of the pool closes the connection. What a connect hook does to its connection is not modelled either.
- What the message handlers do is left to arbitrary functions: row decoders, column descriptions, transaction state, notices. The error a failed external-table file leaves on the connection is not modelled, nor are the row counters and `has_rows`.
- Draining.DrainSocket: does not model that an unload inside the drain swallows its exceptions; here such a failure ends the drain.
- FrameReads.ReadUnload: does not model that a failed read of a status word ends the loop without an error.
- Streams.NzBufferedStream.Read: does not model a `close()` by another task while the read waits; the code then returns a result filled up with zeros (`nzpy_extended/buffered_stream.py:186-188`, `nzpy_extended/buffered_stream.py:223-225`).
- Text codecs are arbitrary functions. Bulk-load text is a sequence of characters, each with its own encoding, so encodings with state across characters are not covered.
- The datetime constructors are modelled by their ranges: years 1 to 9999, hours below 24. Intervals and zoned times stop at the two numbers that are passed on.
- RowDecoding.RustRow: rows of 2^62 bytes or more, which no read delivers, are excluded so that lengths fit machine words; header numbers are 32-bit as on the wire.
- Type inference of string, float, date and time columns, and their converters: string inference accepts exponent forms and unchecked times that the converters refuse, so no such theorem holds. Those converters are arbitrary functions that never print the NULL marker. Decimal contexts other than the default, and exponents beyond its limits, are not covered.
- ExternalTables.TransferRows: sources that raise while they are read, and files on disk, are not modelled.
- Parameter styles other than qmark, the mapping of values to SQL literals beyond quoted text and integers, and arrays. Digits outside ASCII are an arbitrary function.
- The reserved words of identifiers are a parameter: the theorems hold for any set of them.
- The contents of the handshake, option negotiation, catalog SQL, DDL text, error classification, null pools, synchronous wrappers and the web integration are not modelled.
