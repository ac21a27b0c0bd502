# Verified model of a reactor web server

The server runs one event loop per I/O thread. Each loop owns a timer queue, a queue of tasks with a
wakeup descriptor, a pool of connections and a list of idle ones; requests are parsed
incrementally from a growable buffer; log records travel through a double-buffered asynchronous
log; computation is handed to a pool of worker threads. This project models those hand-written
state machines and proves what they promise over every run.

Each component has the same build:

* a specification module of values and functions (`TimerSpec`, `AsyncLogSpec`, `ThreadPoolSpec`,
  `LoopTaskSpec`, `TcpSpec`, `PoolSpec`, `HttpSpec`). A failed assertion, a use of a freed or
  moved-from object, a double free or a lookup through an invalid iterator is an explicit `Fault`.
  Where other threads, callbacks or the allocator take part, the component is a state machine:
  `Enabled` says what the environment may do, `Legal` and `Exec` run any sequence of events;
* a proof module with the invariants of single steps and the theorems over all runs;
* a class with the source's fields and methods, updated in place. Its methods are proved to
  perform the steps of the specification, so the theorems hold of sequences of calls. Where
  there is a state machine, `Valid()` says that the object has been reached by a legal run.

| files | component |
|---|---|
| `TimerSpec`, `TimerInvariant`, `TimerTheorems`, `TimerBatch`, `TimerLife`, `TimerArming`, `TimerQueue` | timer queue with re-entrant callbacks and a reusing allocator |
| `AsyncLogSpec`, `AsyncLogProofs`, `AsyncLogBuffers`, `AsyncLogExit`, `AsyncLogging`, `Decimal`, `LogStream` | asynchronous log, record formatting, integer printing |
| `LoopTaskSpec`, `LoopTaskProofs`, `LoopTasks` | task queue and wakeup of the event loop |
| `TaskRing`, `ThreadPoolSpec`, `ThreadPoolProofs`, `ThreadPoolTasks` | bounded ring and the worker threads around it |
| `TcpSpec`, `TcpProofs`, `TcpWrites`, `TcpShutdown`, `TcpConnection`, `PoolSpec`, `PoolProofs`, `PoolRuns`, `PoolHistory`, `ConnectionPool` | connection state, connection pool, idle list |
| `ByteBuffer`, `HttpSpec`, `HttpProofs`, `HttpLimits`, `HttpAccepts`, `HttpData` | byte buffer and request parser |
| `Outcomes` | shared option and outcome types |

`dafny verify dfyconfig.toml` checks everything.

## Where the code departs from its intent

The model follows the code. Each of these has a lemma with the exact condition:

* `Timer::interval_` is an `int`: a fractional period is cut, and a period below one second is re-armed
  for the current instant (`PeriodKeptIffWhole`, `RearmedStrictlyLater`).
* `sendInLoop` counts the remaining bytes from 0: a message sent while bytes are queued, or whose direct
  write fails or would block, is silently dropped (`MessageTakenIff`).
* `Buffer::append` copies with `strncpy`: bytes behind a NUL become NULs (`StrncpyFaithfulIff`).
* `HEAD` is stored as `kDelete`, and `clearAllContent` keeps the previous query (`RoundTripExactIff`).
* `parseRequest` never returns when entered in `kExpectBody` or `kGotAll` (`OtherStagesDiverge`).
* A batch of more than 25 log buffers keeps only the first two, and bytes accepted after the back end took its last
  batch are never written. The file is complete at exit iff neither cost a byte (`CompleteAtExitIff`, and
  `ShortCompleteAtExitIff` for records shorter than a buffer; `StopCanLoseRecords` is a run that loses one).
* `ThreadPool::stop` abandons queued tasks: the n-th can still be taken iff n workers are inside `take()`
  (`StopAbandonsIff`).
* `ThreadPool::stop` does not wake producers waiting for room: one can still be woken iff some worker is inside
  `take()` (`StrandedIff`; `StopStrandsProducer` is a run that strands one). Capacity 0 is fatal
  (`FaultsIffZeroCapacity`), although the header's comment suggests that it means "unbounded".
* A functor queued on the loop thread before `loop()` causes no wakeup. It is the only kind that can be left in a poll,
  in the first one, iff nobody quits or queues from another thread (`NeverStranded`, `EarlyTaskWaitsIff`, `EarlyTaskWaits`).
* Quitting abandons what is pending, unless the loop is in poll or handling events at that moment (`QuitAbandonsIff`,
  `PendingCanRunIff`; `QuitAbandonsTask` is a run that abandons one).
* The sweep of idle connections tests for freed ones by a null next pointer, which the last one of the free
  chain has as well. The test is never reached with a freed connection (`SweepIsFullScan`).
* `shutdown()` called on another thread queues its second half for the loop thread. While the connection stays open,
  SHUT_WR is issued twice iff bytes were queued at the call and have been written when the second half comes
  (`ShutTwiceIff`, `DrainedBetweenHalves`). In any state, that of a recycled connection included, the second half is safe
  iff the connection is closed, has bytes queued, or is disconnecting and has not been shut
  (`LateShutdownIff`, and over whole runs `AlwaysShutOnceIff`; in `RecycledBetweenHalves` the next user's bytes follow SHUT_WR).
* The headers end at the first line without a colon, not only at an empty one, although section 3.2 of RFC 7230 asks for
  a colon in each. A header block is read to its end iff every line of it has one; otherwise the rest stays unread in
  front of the next request (`HeadersReadIff`, `RequestReadIff`; `HeaderLeftUnread` is such a request).
* `assert(method_ == kInvalid)` (webserver/HttpData.h:54) fails when a request line that has failed is parsed once more,
  iff that line began with a known method and a space (`SecondParseAssertsIff`). As long as nobody parses after a
  failure it never fails (`AssertionHolds`). NDEBUG compiles it out, and the parser is modelled without it.

All other asserts are taken as written, as a `Fault` or as a proved precondition, except `assert(n == one)`
(webserver/EventLoop.cc:309), which compares 8 with 1 and is compiled out as well.

## Model

| member | source | states |
|---|---|---|
| `TimerInvariant.NoFaultFromStart` | webserver/TimerQueue.cc:51-178 | from an empty queue every run of adds, cancels and batches, callbacks re-entering at will and the allocator reusing addresses, fails no assertion, frees nothing twice, touches nothing freed, and keeps both indexes on the same live timers under their current expirations |
| `TimerInvariant.RunKeepsInv` | webserver/TimerQueue.cc:51-178 | the same from any state satisfying the invariant |
| `TimerInvariant.StepKeepsInv` | webserver/TimerQueue.cc:51-178 | each step succeeds and keeps the invariant |
| `TimerInvariant.InsertKeepsOrder` | webserver/TimerQueue.cc:155-178 | inserting a new entry keeps the set ordered, adds exactly it, and makes it first iff it precedes the earliest |
| `TimerInvariant.EraseKeepsOrder` | webserver/TimerQueue.cc:66-85 | erasing a present entry removes exactly it, one element |
| `TimerInvariant.GetExpiredIndexed` | webserver/TimerQueue.cc:134-153 | extraction erases exactly one active element per expired timer and leaves both indexes equal |
| `TimerInvariant.CancelIndexed` | webserver/TimerQueue.cc:66-85 | cancelling an indexed timer takes it out of both indexes and frees it |
| `TimerInvariant.ResetAllIndexed` | webserver/TimerQueue.cc:87-103 | re-arming a batch re-indexes or frees each of its timers without a fault |
| `TimerTheorems.EndDisposes` | webserver/TimerQueue.cc:87-114 | at the end of a batch a timer survives, restarted, iff it repeats and was not cancelled; no other timer changes |
| `TimerTheorems.DeadForever` | webserver/TimerQueue.cc:66-132 | a timer whose sequence number belongs to no allocated timer never runs again |
| `TimerTheorems.CancelledNeverRuns` | webserver/TimerQueue.cc:66-85 | cancelling an indexed timer, inside or outside a batch: it never runs again in any continuation |
| `TimerTheorems.CancelledInBatch` | webserver/TimerQueue.cc:80-103 | cancelling a timer of the running batch: at most one more run, none if its turn is over, and gone after the batch |
| `TimerTheorems.SimilarRun` | webserver/TimerQueue.cc:66-132 | runs that differ only in deferred cancellations of dead timers stay equal in everything else |
| `TimerTheorems.StaleCancelHarmless` | webserver/TimerQueue.cc:66-85 | cancelling through a stale handle changes nothing observable in any continuation, even when the address was reused |
| `TimerBatch.DueExactly` | webserver/TimerQueue.cc:134-143 | the extracted prefix is exactly the live timers at or before now, each once, in expiration order |
| `TimerBatch.HandleReadBatch` | webserver/TimerQueue.cc:116-132 | every complete batch runs exactly the timers that were due, once each in order, none its callbacks added, and leaves older survivors strictly later unless their period is zero |
| `TimerBatch.RearmedStrictlyLater` | webserver/Timer.cc:5-13 | a repeating timer is re-armed strictly later iff its period is at least a second |
| `TimerBatch.PeriodKeptIffWhole` | webserver/Timer.h:10-17 | the period requested is the period kept iff it is a whole number of seconds |
| `TimerBatch.RunKeepsFd` | webserver/TimerQueue.cc:51-132 | the deadline condition on the descriptor is kept by every run |
| `TimerBatch.DescriptorArmedInTime` | webserver/TimerQueue.cc:104-201 | outside a batch with a timer waiting, the descriptor has fired unread or fires by the earliest expiration or 100 microseconds after arming; past that it is readable |
| `TimerLife.OneShotRunsOnce` | webserver/Timer.h:10-17 | a timer added without a positive interval runs at most once in any continuation |
| `TimerLife.FreshNeverRan` | webserver/TimerQueue.cc:116-132 | in every run from the start a sequence number not yet given out has never run |
| `TimerLife.RepeatingSurvives` | webserver/TimerQueue.cc:87-103 | a timer added with a positive interval and never cancelled is there for ever, is indexed whenever no batch is being run, and keeps the whole seconds of its interval |
| `TimerLife.RearmedAfterBatch` | webserver/Timer.cc:5-13 | a complete batch in which it is due re-arms it for exactly those seconds after the batch began |
| `TimerLife.RunsWhenDue` | webserver/TimerQueue.cc:116-143 | an added timer that is not cancelled waits, unrun, through every batch that begins before the time it was added for, and runs exactly once in the first complete one that begins at or after it |
| `TimerArming.EndNotEarly` | webserver/TimerQueue.cc:104-113 | the end of any batch leaves the descriptor firing no earlier than the earliest timer |
| `TimerArming.RunNotEarly` | webserver/TimerQueue.cc:51-113 | it stays so until a timer is cancelled outside a batch |
| `TimerArming.NeverFiresEarly` | webserver/TimerQueue.cc:51-113 | so with cancellations in callbacks only the descriptor is never readable before the earliest expiration |
| `TimerArming.QuietAfterLast` | webserver/TimerQueue.cc:104-121 | handleRead takes the expiration in; a batch that adds nothing and leaves no timer leaves the descriptor disarmed |
| `TimerQueueImpl.TimerQueue.constructor` | webserver/TimerQueue.cc:20-30 | starts as the empty queue |
| `TimerQueueImpl.TimerQueue.ResetTimerfd` | webserver/TimerQueue.cc:190-227 | arms for the expiration, at least 100 microseconds ahead |
| `TimerQueueImpl.TimerQueue.Insert` | webserver/TimerQueue.cc:155-178 | performs the specified insertion and says whether the earliest changed |
| `TimerQueueImpl.TimerQueue.AddTimerInLoop` | webserver/TimerQueue.cc:51-59 | inserts and re-arms iff the new timer is the earliest |
| `TimerQueueImpl.TimerQueue.NewTimerAt` | webserver/Timer.h:10-17 | takes the next number of the counter and cuts the period to an integer |
| `TimerQueueImpl.TimerQueue.Pass` | webserver/Timer.h:39-45 | time passes, and timer queues of other loops take any numbers of the shared counter |
| `TimerQueueImpl.TimerQueue.AddTimer` | webserver/TimerQueue.cc:43-49 | one Add step at whatever free address the allocator picks, with a handle carrying the fresh sequence number |
| `TimerQueueImpl.TimerQueue.CancelInLoop` | webserver/TimerQueue.cc:66-85 | one Cancel step: erased and freed, deferred, or ignored |
| `TimerQueueImpl.TimerQueue.GetExpired` | webserver/TimerQueue.cc:134-153 | returns and removes exactly the specified prefix |
| `TimerQueueImpl.TimerQueue.ResetOne` | webserver/TimerQueue.cc:93-102 | restarts and re-inserts, or frees, one expired timer |
| `TimerQueueImpl.TimerQueue.Reset` | webserver/TimerQueue.cc:87-114 | disposes of the whole batch and re-arms for the earliest timer |
| `TimerQueueImpl.TimerQueue.RunCallback` | webserver/TimerQueue.cc:125-128 | a callback extends the run by its adds, cancels and time only |
| `TimerQueueImpl.TimerQueue.ReadTimerfd` | webserver/TimerQueue.cc:203-212 | consumes an expiration that has happened |
| `TimerQueueImpl.TimerQueue.HandleRead` | webserver/TimerQueue.cc:116-132 | whatever the callbacks do, the call is one complete batch with the guarantees of HandleReadBatch |
| `AsyncLogProofs.StepKeepsInv` | webserver/base/AsyncLogging.cc:28-113 | every front-end append and back-end step succeeds and keeps the invariant |
| `AsyncLogProofs.RunKeepsInv` | webserver/base/AsyncLogging.cc:28-113 | no interleaving fails an assertion or uses a moved-from buffer |
| `AsyncLogProofs.WholeRun` | webserver/base/AsyncLogging.cc:28-113 | in every interleaving: accepted bytes are the batches taken, then buffers_, then currentBuffer_; the file holds what was kept of each batch; no buffer has two owners; each round starts with both spares present and empty |
| `AsyncLogProofs.AppendPending` | webserver/base/AsyncLogging.cc:28-44 | an append adds its record behind everything pending, across a buffer change too |
| `AsyncLogProofs.RecordStoredIff` | webserver/base/AsyncLogging.cc:28-44 | a record is stored whole iff it is shorter than a buffer |
| `AsyncLogProofs.FileIsPrefix` | webserver/base/AsyncLogging.cc:79-89 | with no oversized batch the file is at every moment a prefix of what was accepted |
| `AsyncLogBuffers.AppendOwners` | webserver/base/AsyncLogging.cc:28-44 | an append gives no buffer up and allocates one iff the current one is full and there is no spare |
| `AsyncLogBuffers.TakeOwners` | webserver/base/AsyncLogging.cc:62-75 | the critical section only moves buffers between owners |
| `AsyncLogBuffers.WaitsIffNoneFull` | webserver/base/AsyncLogging.cc:62-67 | the back end waits iff no buffer is full |
| `AsyncLogExit.DroppedCounts` | webserver/base/AsyncLogging.cc:79-83 | accepted batch bytes are those kept plus those discarded from oversized batches |
| `AsyncLogExit.DroppedIff` | webserver/base/AsyncLogging.cc:79-83 | no byte of the batches is discarded iff those of more than 25 buffers had all their bytes in the first two |
| `AsyncLogExit.PendingIff` | webserver/base/AsyncLogging.cc:28-75 | in every run something is pending iff a byte was accepted since the last batch was taken |
| `AsyncLogExit.CompleteAtExitIff` | webserver/base/AsyncLogging.cc:56-116 | in every run that ends with the back end gone, the file is complete iff every batch of more than 25 buffers had all its bytes in the first two, and no byte was accepted after the last batch was taken |
| `AsyncLogExit.ShortCompleteAtExitIff` | webserver/base/AsyncLogging.cc:56-116 | with every record shorter than a buffer, the file is complete iff no batch had more than 25 buffers and no byte was accepted after the last batch was taken |
| `AsyncLogExit.StopCanLoseRecords` | webserver/base/AsyncLogging.h:29-34 | a record appended before stop() that the file never receives |
| `AsyncLoggingImpl.AsyncLogging.AppendLocked` | webserver/base/AsyncLogging.cc:31-43 | the critical section performs the specified append |
| `AsyncLoggingImpl.AsyncLogging.Append` | webserver/base/AsyncLogging.cc:28-44 | adds the record behind what is pending, or drops one longer than a buffer |
| `AsyncLoggingImpl.AsyncLogging.TakeBuffers` | webserver/base/AsyncLogging.cc:68-74 | moves the pending buffers into the batch and installs the spares |
| `AsyncLoggingImpl.AsyncLogging.LockAndTake` | webserver/base/AsyncLogging.cc:58-75 | the assertions at the top hold, and after the wait the batch is taken |
| `AsyncLoggingImpl.AsyncLogging.TrimBatch` | webserver/base/AsyncLogging.cc:77-83 | the batch is not empty and keeps two buffers when it has more than 25 |
| `AsyncLoggingImpl.AsyncLogging.WriteBatch` | webserver/base/AsyncLogging.cc:85-89 | the file grows by exactly the batch, whatever is appended and whether or not stop() is called meanwhile |
| `AsyncLoggingImpl.AsyncLogging.RecycleBuffers` | webserver/base/AsyncLogging.cc:91-113 | both spares are ready again |
| `AsyncLoggingImpl.AsyncLogging.Round` | webserver/base/AsyncLogging.cc:56-115 | a whole round writes what is kept of its batch and restores the spares |
| `AsyncLoggingImpl.AsyncLogging.ThreadFunc` | webserver/base/AsyncLogging.cc:45-116 | with appends and stop() arriving during the waits and before the writes of any round, at exit the file is complete iff no batch lost bytes and none was accepted after the last batch was taken |
| `AsyncLoggingImpl.AsyncLogging.Stop` | webserver/base/AsyncLogging.h:29-34 | clears running_ and nothing else |
| `Decimal.TextReadsBack` | webserver/base/LogStream.cc:14-35 | the text of a value reads back to it, with no leading zero but for 0 and a minus exactly for negative values |
| `Decimal.NatTextLength` | webserver/base/LogStream.cc:20-25 | the digits are at most k iff the value is below ten to the k |
| `Decimal.TextFits` | webserver/base/LogStream.cc:43-48 | any 64-bit integer takes at most 20 characters |
| `Decimal.DigitStep` | webserver/base/LogStream.cc:22-24 | truncating division and the mirrored digit table give the digit of the absolute value, for either sign |
| `Decimal.BackwardsReversed` | webserver/base/LogStream.cc:20-32 | digits written backwards and reversed are the decimal text |
| `Decimal.WriteDigits` | webserver/base/LogStream.cc:17-25 | the loop writes the digits backwards and nothing else |
| `Decimal.Reverse` | webserver/base/LogStream.cc:32 | reverses the range in place and leaves the rest |
| `Decimal.Convert` | webserver/base/LogStream.cc:15-35 | writes the decimal text and the terminator behind what the buffer holds |
| `LogStreamImpl.FixedBuffer.Append` | webserver/base/LogStream.h:24-31 | copies text that leaves a byte free, else nothing |
| `LogStreamImpl.FixedBuffer.Add` | webserver/base/LogStream.h:38 | takes in bytes written behind the contents |
| `LogStreamImpl.FixedBuffer.Reset` | webserver/base/LogStream.h:40 | empties the buffer |
| `LogStreamImpl.LogStream.FormatInteger` | webserver/base/LogStream.cc:41-49 | the 32-byte guard always leaves room for the number and its terminator |
| `LogStreamImpl.LogStream.FormatReal` | webserver/base/LogStream.cc:99-117 | the same guard for the text snprintf makes of a floating-point value |
| `LogStreamImpl.LogStream.Print` | webserver/base/LogStream.h:54-101 | each item of text, integer or floating point is appended whole or not at all |
| `LogStreamImpl.LogStream.PrintAll` | webserver/base/LogStream.h:50-113 | a record of any items is the specified text and stays shorter than a log buffer |
| `LogStreamImpl.RecordShort` | webserver/base/LogStream.h:24-38 | every record of text and numbers is shorter than kLargeBuffer |
| `LogStreamImpl.NoRecordDropped` | webserver/base/AsyncLogging.cc:28-44 | so the asynchronous log stores every printed record whole, in order |
| `LogStreamImpl.RecordComplete` | webserver/base/LogStream.h:54-101 | while room remains a record is the concatenation of its items |
| `LogStreamImpl.PrintedIff` | webserver/base/LogStream.h:54-101 | in literals: what each kind of item adds to a record of a given length, and with how much room |
| `LoopTaskProofs.NeverStranded` | webserver/EventLoop.cc:221-339 | in every interleaving: a loop in poll that is told to quit, or has work pending and has ever begun a batch or been given a functor by another thread, has a nonzero counter or a thread about to make it so; what was executed is a prefix of what was enqueued |
| `LoopTaskProofs.StepKeepsInv` | webserver/EventLoop.cc:294-339 | each step keeps the invariant, and the wakeup condition from the first batch or push of another thread on |
| `LoopTaskProofs.RunKeepsInv` | webserver/EventLoop.cc:221-339 | so does every run |
| `LoopTaskProofs.RunKeepsOrder` | webserver/EventLoop.cc:294-339 | executed, batch rest and pending always concatenate to the enqueue order |
| `LoopTaskProofs.PendingWorkRuns` | webserver/EventLoop.cc:294-339 | from any poll with a wakeup there or coming there is a run without timeout or outside event that executes all that is pending |
| `LoopTaskProofs.EarlyTaskWaitsIff` | webserver/EventLoop.cc:294-304 | in every other run, a loop in poll is in its first one, with only what was queued on the loop thread before loop(), and is about to be woken iff it has been told to quit |
| `LoopTaskProofs.EarlyTaskWaits` | webserver/EventLoop.cc:294-304 | a run that leaves a functor waiting in the first poll |
| `LoopTaskProofs.QuitAbandonsIff` | webserver/EventLoop.cc:221-259 | in every run to the exit of a loop told to quit, what was pending at a moment has been executed iff the loop was then in poll or handling events; otherwise none of it has |
| `LoopTaskProofs.PendingCanRunIff` | webserver/EventLoop.cc:221-259 | with quit_ set some continuation executes a pending functor iff the loop is in poll or handling events |
| `LoopTaskProofs.NextBatchRuns` | webserver/EventLoop.cc:226-248 | from there some run, a timeout allowed, executes everything pending |
| `LoopTaskProofs.ExitCovers` | webserver/EventLoop.cc:221-250 | a loop that is left has executed what was in its batch, and what was pending if it was in poll or handling events |
| `LoopTaskProofs.NoFurtherBatch` | webserver/EventLoop.cc:221-250 | with quit_ set and in any other phase only the rest of the batch is ever executed |
| `LoopTaskProofs.QuitAbandonsTask` | webserver/EventLoop.cc:221-259 | a run that leaves the loop with a functor still pending |
| `LoopTasksImpl.EventLoop.QueueInLoop` | webserver/EventLoop.cc:294-304 | appends, and leaves the counter nonzero when called from another thread or during a batch |
| `LoopTasksImpl.EventLoop.Wakeup` | webserver/EventLoop.cc:305-314 | the counter is nonzero afterwards |
| `LoopTasksImpl.EventLoop.Quit` | webserver/EventLoop.cc:252-259 | sets the flag, and from another thread leaves the counter nonzero |
| `LoopTasksImpl.EventLoop.HandleRead` | webserver/EventLoop.cc:316-324 | resets the counter |
| `LoopTasksImpl.EventLoop.RunBatch` | webserver/EventLoop.cc:334-337 | executes the batch in order and leaves what it queues pending with a wakeup |
| `LoopTasksImpl.EventLoop.DoPendingFunctors` | webserver/EventLoop.cc:326-339 | executes exactly what was pending, in order |
| `LoopTasksImpl.EventLoop.Turn` | webserver/EventLoop.cc:226-248 | with calls from other threads while it polls and from any thread while it handles events, one turn executes everything pending by then |
| `LoopTasksImpl.EventLoop.Loop` | webserver/EventLoop.cc:221-250 | for any calls in any turns, a quit among them: on exit enqueued is executed followed by pending |
| `TaskRing.FullEmptyExact` | webserver/base/ThreadPool.cc:113-121 | the full and empty tests on head, tail and size are exact |
| `TaskRing.PushAppends` | webserver/base/ThreadPool.cc:82-84 | storing at the tail appends to the queue and keeps the ring well formed |
| `TaskRing.PopTakesFirst` | webserver/base/ThreadPool.cc:101-103 | taking from the head removes the oldest |
| `TaskRing.EmptyRing` | webserver/base/ThreadPool.cc:24-31 | a new ring is well formed iff its capacity is positive |
| `TaskRing.ZeroCapacity` | webserver/base/ThreadPool.cc:113-121 | with capacity 0 neither test ever holds and both accesses are out of range |
| `TaskRing.TaskQueue.IsFullWithLock` | webserver/base/ThreadPool.cc:113-116 | full iff the queue holds as many as the capacity |
| `TaskRing.TaskQueue.IsEmptyWithLock` | webserver/base/ThreadPool.cc:118-121 | empty iff the queue is |
| `TaskRing.TaskQueue.Put` | webserver/base/ThreadPool.cc:75-86 | appends unless full |
| `TaskRing.TaskQueue.Get` | webserver/base/ThreadPool.cc:91-110 | removes the oldest unless empty |
| `ThreadPoolProofs.WholeRun` | webserver/base/ThreadPool.cc:43-136 | in every interleaving from a start with positive capacity nothing faults; submitted is taken followed by queued; a sleeping worker implies queued <= woken workers, a sleeping producer implies free slots <= woken producers; no worker leaves while the pool runs, and after stop() none sleeps |
| `ThreadPoolProofs.RunKeepsInv` | webserver/base/ThreadPool.cc:43-136 | the same from any state satisfying the invariant |
| `ThreadPoolProofs.StepKeepsInv` | webserver/base/ThreadPool.cc:43-136 | each critical section and each wakeup keeps it |
| `ThreadPoolProofs.QueuedTaskHasTaker` | webserver/base/ThreadPool.cc:89-111 | while something is queued some worker is awake, and in a running pool has not left |
| `ThreadPoolTasks.RunsUntilStop` | webserver/base/ThreadPool.cc:43-53 | running_ is true until the first stop() |
| `ThreadPoolTasks.NoneLeavesRunning` | webserver/base/ThreadPool.cc:123-136 | no worker leaves before stop() |
| `ThreadPoolTasks.AwakeTakes` | webserver/base/ThreadPool.cc:89-136 | a worker of a running pool that is not asleep, whatever it is doing, can come round and take the oldest task |
| `ThreadPoolTasks.QueuedAllTaken` | webserver/base/ThreadPool.cc:89-136 | from every reached state of a running pool with workers some run takes everything that is queued, in order |
| `ThreadPoolTasks.EveryTaskAccounted` | webserver/base/ThreadPool.cc:67-136 | in every run each task brought to run() was executed on the spot, waits with its producer, or was stored; what was stored is taken in order or still queued; what was taken has been executed or is being executed, all as many times as it was brought |
| `ThreadPoolTasks.InlinedInOrder` | webserver/base/ThreadPool.cc:67-72 | without workers every task is executed on the spot, in order |
| `ThreadPoolProofs.StoppedWorkerCanMove` | webserver/base/ThreadPool.cc:43-59 | after stop() every worker that has not left can move |
| `ThreadPoolProofs.StoppedWorkerLeaves` | webserver/base/ThreadPool.cc:123-136 | each move brings it closer to its exit and no other step sets it back |
| `ThreadPoolProofs.AtMostThreeMoves` | webserver/base/ThreadPool.cc:43-59 | so each worker makes at most three moves after stop() |
| `ThreadPoolProofs.StoppedRunTakes` | webserver/base/ThreadPool.cc:43-111 | after stop() no run takes more tasks than there are workers inside take() |
| `ThreadPoolProofs.TakersTake` | webserver/base/ThreadPool.cc:89-111 | and some run takes as many, while that many are queued |
| `ThreadPoolProofs.StopAbandonsIff` | webserver/base/ThreadPool.cc:43-111 | so the n-th queued task can still be taken iff n workers are inside take(); the others are abandoned |
| `ThreadPoolProofs.StrandedForever` | webserver/base/ThreadPool.cc:76-79 | after stop(), with no worker inside take(), a producer waiting for room waits for ever, barring spurious wakeups |
| `ThreadPoolProofs.StrandedIff` | webserver/base/ThreadPool.cc:43-111 | after stop() some run without a spurious wakeup of it wakes a waiting producer iff some worker is inside take(), the ring empty or not |
| `ThreadPoolProofs.StopStrandsProducer` | webserver/base/ThreadPool.cc:43-59 | a run that leads there |
| `ThreadPoolProofs.FaultsIffZeroCapacity` | webserver/base/ThreadPool.cc:67-121 | a pool with workers has a run that faults iff its capacity is 0 |
| `ThreadPoolProofs.ZeroCapacityTakeFaults` | webserver/base/ThreadPool.cc:89-111 | with capacity 0 the first take faults |
| `ThreadPoolProofs.ZeroCapacityRunFaults` | webserver/base/ThreadPool.cc:67-87 | and so does the first submission |
| `TcpProofs.RunKeepsConn` | webserver/TcpConnection.cc:28-242 | in every run, shutdown() made on any thread and its queued half included: watching for writability iff bytes are queued; SHUT_WR only with nothing queued; free connections hold nothing |
| `TcpProofs.StepKeepsConn` | webserver/TcpConnection.cc:28-242 | each handler keeps it |
| `TcpProofs.RunKeepsOrder` | webserver/TcpConnection.cc:45-226 | with NUL-free messages the socket bytes followed by the queue are the in-order concatenation of the messages taken over |
| `TcpProofs.SendDelivers` | webserver/TcpConnection.cc:45-90 | a successful direct write puts the message on the socket and the queue together |
| `TcpProofs.MessageTakenIff` | webserver/TcpConnection.cc:45-90 | a message is taken over whole iff connected, nothing queued, the direct write did not fail, and the rest has only NULs behind a NUL |
| `TcpWrites.WritesDrain` | webserver/TcpConnection.cc:194-226 | in either active state any writable events, failed writes included, put exactly the bytes they take from the front of the queue on the socket; interest is off iff the queue is empty |
| `TcpWrites.MessageArrives` | webserver/TcpConnection.cc:45-90 | a message taken over in part is whole on the socket once the rest has been written |
| `TcpWrites.ForceCloseStops` | webserver/TcpConnection.cc:167-184 | after forceClose() no message is taken over until the connection is used again |
| `TcpProofs.FreeIgnores` | webserver/TcpConnection.cc:185-193 | no late event changes a free connection; a queued half of shutdown() is only used up |
| `TcpProofs.ShutdownShutsIff` | webserver/TcpConnection.cc:149-165 | shutdown() shuts at once iff nothing is queued |
| `TcpProofs.DrainingShutsIff` | webserver/TcpConnection.cc:194-226 | otherwise the write that empties the queue of a disconnecting connection does |
| `TcpShutdown.StepKeepsShut` | webserver/TcpConnection.cc:28-242 | no step but a queued half of shutdown() makes SHUT_WR come twice or be followed by a byte |
| `TcpShutdown.LateShutdownIff` | webserver/TcpConnection.cc:158-165 | in any state, a recycled connection included, a queued half is safe iff the connection is closed, has bytes queued, or is disconnecting and not shut |
| `TcpShutdown.AlwaysShutOnceIff` | webserver/TcpConnection.cc:28-242 | at every moment of a run SHUT_WR is at most once per incarnation and last iff every queued half was safe when it came |
| `TcpShutdown.LoopThreadShutsOnce` | webserver/TcpConnection.cc:149-226 | so it always is when shutdown() is called on the loop thread only |
| `TcpShutdown.ShutTwiceIff` | webserver/TcpConnection.cc:149-165 | whatever happens between the halves of a shutdown() short of a close, SHUT_WR is issued twice iff bytes were queued at the call and none is when the second half comes |
| `TcpShutdown.DrainedBetweenHalves` | webserver/TcpConnection.cc:194-226 | a run from a new connection that issues SHUT_WR twice |
| `TcpShutdown.RecycledBetweenHalves` | webserver/TcpConnection.cc:149-165 | a run from a new connection in which the next user's byte follows SHUT_WR |
| `TcpConnectionImpl.TcpConnection.constructor` | webserver/TcpConnection.cc:8-22 | starts unconnected, unlinked and empty |
| `TcpConnectionImpl.TcpConnection.SetStateKConnected` | webserver/TcpConnection.h:56-59 | opens a new incarnation |
| `TcpConnectionImpl.TcpConnection.Send` | webserver/TcpConnection.cc:28-43 | performs the specified send |
| `TcpConnectionImpl.TcpConnection.SendInLoop` | webserver/TcpConnection.cc:45-90 | with its counters from zero, performs exactly the specified send |
| `TcpConnectionImpl.TcpConnection.HandleWrite` | webserver/TcpConnection.cc:194-226 | performs the specified write |
| `TcpConnectionImpl.TcpConnection.Shutdown` | webserver/TcpConnection.cc:149-156 | performs both halves on the loop thread; on another it changes the state and queues the second |
| `TcpConnectionImpl.TcpConnection.RunQueuedShutdown` | webserver/TcpConnection.cc:154-165 | performs a queued second half on whatever the connection has become |
| `TcpConnectionImpl.TcpConnection.ShutdownInLoop` | webserver/TcpConnection.cc:158-165 | SHUT_WR unless watching for writability or closed |
| `TcpConnectionImpl.TcpConnection.ForceClose` | webserver/TcpConnection.cc:167-184 | disconnecting, if it was active |
| `TcpConnectionImpl.TcpConnection.CloseAndReset` | webserver/TcpConnection.cc:228-237 | back to the initial state, nothing queued, not watched |
| `TcpConnectionImpl.TcpConnection.Reset` | webserver/TcpConnection.h:84-89 | initial state, nothing queued |
| `PoolProofs.AcceptKeeps` | webserver/EventLoop.cc:101-120 | taking a connection keeps chain, vector, states and idle list consistent |
| `PoolProofs.CloseKeeps` | webserver/TcpConnection.cc:228-242 | so does closing one; neither lookup can miss |
| `PoolProofs.TouchKeeps` | webserver/EventLoop.cc:146-153 | so does moving one behind the idle list |
| `PoolProofs.AcceptSize` | webserver/EventLoop.cc:101-120 | a connection is made iff the chain is empty |
| `PoolRuns.StepKeepsPool` | webserver/EventLoop.cc:101-199 | every step of the pool succeeds and keeps the invariant |
| `PoolRuns.RunKeepsPool` | webserver/EventLoop.cc:101-199 | in every run of accepts, reads, sends, writes, shutdowns, closes, late forced closes and sweeps: each connection is in exactly one of chain and vector, active iff KConnected or KDisconnecting, and the idle list is the active connections ordered by last receive time |
| `PoolRuns.WholeRun` | webserver/EventLoop.cc:88-199 | the same from initConnectionPool on |
| `PoolRuns.SweepFromScans` | webserver/EventLoop.cc:162-197 | with its early exit, the walk from any position equals a walk over all of the rest |
| `PoolRuns.SweepIsFullScan` | webserver/EventLoop.cc:154-199 | with a monotone clock the sweep equals a full scan; the freed and time-jump branches are not taken |
| `PoolRuns.SweepShutsIff` | webserver/EventLoop.cc:170-178 | a connection leaves KConnected in a sweep iff it was silent too long; nothing else changes; its writing side is shut iff nothing was queued |
| `PoolHistory.HeardInOrder` | webserver/EventLoop.cc:136-153 | in every run each active connection carries the time of its last accept or read event, and stands in the idle list behind exactly those whose last such event was earlier |
| `PoolHistory.SweptIffSilent` | webserver/EventLoop.cc:154-199 | in every run that goes on with a sweep, a connected connection is shut down by it iff more than idleSeconds seconds have passed since its last accept or read event |
| `PoolHistory.NoIdlingNoSweep` | webserver/EventLoop.cc:154-157 | with idling off a sweep touches nothing |
| `PoolRuns.AsManyAsNeeded` | webserver/EventLoop.cc:101-134 | in every run there are as many connections as at first, or as were ever active at once, whichever is more |
| `PoolRuns.AcceptIsClean` | webserver/TcpConnection.h:84-89 | a recycled connection starts connected, with nothing queued, watched or shut; only queued halves of shutdown() survive |
| `PoolRuns.LateForceCloseIff` | webserver/TcpConnection.cc:185-193 | a late forced close changes nothing iff the connection is free |
| `PoolRuns.SweptGoesBack` | webserver/EventLoop.cc:170-178 | a swept connection whose forced close comes is first in the free chain and in no other list |
| `PoolRuns.RunKeepsAllInOrder` | webserver/TcpConnection.cc:45-242 | through all recycling, each active connection with NUL-free messages has on its socket and in its queue exactly what it took over |
| `PoolRuns.RunKeepsAllShut` | webserver/TcpConnection.cc:149-242 | through all recycling, if every queued half of shutdown() was safe when it came, SHUT_WR is at most once per incarnation and no byte follows it |
| `ConnectionPoolImpl.EventLoop.constructor` | webserver/EventLoop.cc:88-99 | 512 connections linked behind the sentinel, null at the end |
| `ConnectionPoolImpl.EventLoop.UnlinkFree` | webserver/EventLoop.cc:104-109 | through the pointers, takes the first of the chain out |
| `ConnectionPoolImpl.EventLoop.LinkFree` | webserver/EventLoop.cc:122-125 | through the pointers, puts a connection first |
| `ConnectionPoolImpl.EventLoop.Insert` | webserver/EventLoop.cc:136-144 | last in the idle list with the current time |
| `ConnectionPoolImpl.EventLoop.GetNextFreeConnection` | webserver/EventLoop.cc:101-120 | one accept step; the pointers still spell the chain, acyclic and ending in null |
| `ConnectionPoolImpl.EventLoop.ReturnBackConnection` | webserver/EventLoop.cc:122-134 | chain, vector and idle list each change by exactly that connection |
| `ConnectionPoolImpl.EventLoop.HandleClose` | webserver/TcpConnection.cc:228-242 | one close step of the pool |
| `ConnectionPoolImpl.EventLoop.ForceCloseInLoop` | webserver/TcpConnection.cc:185-193 | closes an active connection and leaves a free one alone |
| `ConnectionPoolImpl.EventLoop.UpdateIdleTimeList` | webserver/EventLoop.cc:146-153 | one touch step: the connection carries the current time and is last in the list |
| `ConnectionPoolImpl.EventLoop.HandleRead` | webserver/TcpConnection.cc:122-147 | touch, then echo, close or nothing, by what read returned |
| `ConnectionPoolImpl.EventLoop.SweepList` | webserver/EventLoop.cc:162-197 | the walk with all its branches, on any idle list, is the specified one |
| `ConnectionPoolImpl.EventLoop.RemoveExpiredConnection` | webserver/EventLoop.cc:154-199 | on a pool reached by any run it is a full scan |
| `ByteBuffer.FirstCrlf` | webserver/base/Buffer.h:52-56 | the first CR LF, or none |
| `ByteBuffer.StrncpyFaithfulIff` | webserver/base/Buffer.h:107-112 | the copy is faithful iff behind a NUL there are only NULs |
| `ByteBuffer.StrncpyBytes` | webserver/base/Buffer.h:107-112 | it is the bytes up to the first NUL and then NULs |
| `ByteBuffer.ReadIsAppend` | webserver/base/Buffer.cc:17-42 | a read split between the tail and the overflow array appends the bytes read, if the overflow is NUL-free |
| `ByteBuffer.Buffer.FindCRLF` | webserver/base/Buffer.h:52-56 | finds the first CR LF of the readable bytes |
| `ByteBuffer.Buffer.Retrieve` | webserver/base/Buffer.h:66-77 | removes exactly a prefix |
| `ByteBuffer.Buffer.RetrieveAll` | webserver/base/Buffer.h:79-83 | removes everything |
| `ByteBuffer.Buffer.MakeSpace` | webserver/base/Buffer.h:156-171 | growth keeps the readable bytes, makes exactly the room asked for and allocates as much again, at most 65536 bytes |
| `ByteBuffer.Buffer.EnsureWritableBytes` | webserver/base/Buffer.h:114-121 | there is room afterwards, and the same bytes |
| `ByteBuffer.Buffer.Append` | webserver/base/Buffer.h:107-112 | appends the copy of the data |
| `ByteBuffer.Buffer.ReadFd` | webserver/base/Buffer.cc:17-42 | appends what was read, the overflow through strncpy; a failed read changes nothing |
| `HttpProofs.ParseExtends` | webserver/HttpData.cc:65-121 | parsing what is there and then the rest is parsing everything |
| `HttpProofs.ChunkingIrrelevant` | webserver/HttpData.cc:65-121 | however a stream is cut, a CR LF pair split included, fields, unread bytes and failure are those of feeding it whole |
| `HttpProofs.OtherStagesDiverge` | webserver/HttpData.cc:69-119 | however many turns the loop has made it goes on, iff it is entered outside the first two stages |
| `HttpProofs.TurnsEnd` | webserver/HttpData.cc:69-119 | in the first two stages it ends with the specified result, one turn per unread byte and one more sufficing |
| `HttpLimits.HeadersEnd` | webserver/HttpData.cc:93-110 | the request counts as complete at the first line without a colon, and what is behind it stays unread |
| `HttpLimits.HeadersReadIff` | webserver/HttpData.cc:93-110 | a header block is read to its end iff every line has a colon (section 3.2 of RFC 7230) |
| `HttpLimits.RequestReadIff` | webserver/HttpData.cc:65-121 | the same for a whole request with a good request line |
| `HttpLimits.LineHidden` | webserver/HttpData.cc:93-110 | one line without a colon hides the header behind it |
| `HttpLimits.HeaderLeftUnread` | webserver/HttpData.cc:93-110 | a request whose second header line is left unread |
| `HttpLimits.SecondParseAssertsIff` | webserver/HttpData.h:52-82 | parsing a failed request line once more fails the assertion iff the line began with a known method and a space |
| `HttpLimits.AssertionHolds` | webserver/HttpData.h:52-82 | as long as nobody parses after a failure the assertion holds at every call, whatever arrives |
| `HttpAccepts.AcceptedIff` | webserver/HttpData.cc:26-92 | a request line is accepted iff it is one of five names, a target without spaces and one of two versions, with one space between; otherwise the call fails and every byte stays unread |
| `HttpAccepts.GoodIsAccepted` | webserver/HttpData.h:52-82 | the method and the version stored are those named, DELETE also for HEAD |
| `HttpAccepts.HeaderStored` | webserver/HttpData.h:116-132 | a header line stores, under the text before its first colon, the text behind it without the blanks at both ends |
| `HttpProofs.RoundTrip` | webserver/HttpData.cc:26-121 | parsing the text of a canonical request (sections 3.1.1 and 3.2 of RFC 7230) gives its method, path, query, version and headers and leaves the bytes behind it, but for HEAD and a left-over query |
| `HttpProofs.RoundTripExactIff` | webserver/HttpData.h:52-100 | the method comes back iff it is not HEAD, the query iff it has one or none is left over |
| `HttpProofs.CollectedDistinct` | webserver/HttpData.h:116-132 | with distinct names every field is found under its name |
| `HttpProofs.RequestInPieces` | webserver/HttpData.cc:26-121 | a request arriving in any pieces on a fresh connection is read back whole |
| `HttpDataImpl.HttpData.SetMethod` | webserver/HttpData.h:52-82 | performs the specified token match |
| `HttpDataImpl.HttpData.AddReqHeader` | webserver/HttpData.h:116-132 | the trimming loops store the trimmed value under the name |
| `HttpDataImpl.HttpData.ProcessRequestLine` | webserver/HttpData.cc:26-63 | performs the specified walk; fields set before a failure stay set |
| `HttpDataImpl.HttpData.ParseTurn` | webserver/HttpData.cc:69-119 | one turn of the loop |
| `HttpDataImpl.HttpData.ParseRequest` | webserver/HttpData.cc:65-121 | terminates in the first two stages with the specified result |
| `HttpDataImpl.HttpData.ParseStream` | webserver/HttpData.cc:65-121 | reading a stream with readFd in reads of any sizes and parsing after each equals one feed of what was received, which is the stream itself if the overflow parts hold no NUL |
| `HttpDataImpl.HttpData.ClearAllContent` | webserver/HttpData.h:210-219 | resets everything but path and query |

## Left out

- Sockets, epoll, eventfd and timerfd system calls, files, threads and clocks: they appear as a byte stream, a counter, an armed deadline, a result parameter, interleaved steps and a monotone microsecond clock.
- Epoller and Channel dispatch: events are assumed to reach active connections only, and writability interest is one flag. `handleClose` clears the descriptor before `removeChannel`, so the poller's map is not kept exact by its callers.
- Integer widths of timestamps, periods, sequence numbers and buffer sizes: unbounded, so overflow of a period times one million or of a size doubling is not modelled. The integers that are printed and the eventfd counter do have their ranges.
- TimerQueueImpl.TimerQueue.AddTimer: does not model calls from another thread, which read the sequence number after handing the timer over; timers are added as steps of the loop thread.
- Callbacks as code: a timer callback is any list of additions, cancellations and time spent; a queued functor is an identity and the list of functors it queues.
- TcpConnectionImpl.TcpConnection.Send: does not model calls from another thread, which hand over a borrowed pointer; sends are made on the loop thread.
- A delayed forced close that fires on a recycled connection is allowed in the runs (it closes the new user's connection); no theorem says that it does not happen.
- The pool's list iterators: an entry of `connectionTimeList_` is identified by its connection, which occurs in it at most once, so erasing or splicing at a stored position acts on that connection's entry; weak pointers are plain references.
- The connection's output queue as a `Buffer` object: it is a byte sequence appended to with `Strncpy`; the in-place buffer is proved separately (`ByteBuffer.Buffer`). The input buffer is seen by the pool only as the bytes a read leaves in it.
- `connectEstablished`, `connectDestroyed` and the connection callbacks: not on the pooled path.
- Log buffers inside `AsyncLoggingImpl.AsyncLogging`: owned values with an address, moved between fields; the in-place array behind them is `LogStreamImpl.FixedBuffer`. The back end's timed wait may end at any moment.
- AsyncLoggingImpl.AsyncLogging.ThreadFunc: is given what other threads do during each wait and before each write as a parameter, and nothing arrives at other points of a round; the order of steps within it is otherwise that of the one back-end thread.
- LoopTasksImpl.EventLoop.Turn: calls of other threads while a batch runs are not among its parameters, and of the active channels only the wakeup channel is handled; the state machine covers both.
- LoopTasksImpl.EventLoop.Loop: likewise, its turns being given as a parameter.
- TaskRing.TaskQueue.Put: is one pass of `run` with the mutex held; the loop around the wait is a sequence of steps of `ThreadPoolSpec`.
- TaskRing.TaskQueue.Get: is one pass of `take`, likewise.
- Liveness under a scheduler is stated as "some step is enabled" and a bound on the number of steps, not as fairness.
- ThreadPoolProofs.AtMostThreeMoves: says that `join()` returns only as far as the queued functors let it: each is assumed to finish and not to call `run()` on the pool it runs in, where it could wait for room itself.
- ConnectionPoolImpl.EventLoop.HandleRead: takes what read returned and the bytes then in the input buffer as parameters; the reading itself is `ByteBuffer.Buffer.ReadFd`.
- `HttpData::appendToBuffer`, `onRequest`, response headers, `receiveTime_` and the favicon: response templating.
- `Buffer::findCRLF(start)`, which ignores its argument, and the `retrieveReadable` wrapper.
- LogStreamImpl.LogStream.FormatReal: takes the text of a floating-point value as given, fewer than 32 characters.
- LogStreamImpl.LogStream.Print: takes the digits of a floating-point value from snprintf as given, fewer than 32 characters; the operator for pointers is declared but nowhere defined.
- `LogFile` rolling, `AppendFile`'s retry loop, log line prefixes and file names.
- Thread start-up and naming, EventLoopThread, EventLoopThreadPool and its round-robin choice, CountDownLatch, StringPiece, TcpServer and HttpServer start-up, WebBench, HTTPClient: thin or outside the core.
