# Verified models of the unixcommons core

Dafny 4.11 models of the hard parts of the unixcommons C++ library, with proofs about them.
`dafny verify dfyconfig.toml` checks the whole project. One module per component:

| module | component | main results |
|---|---|---|
| `HttpPolicy`, `HttpPool`, `HttpClosing` | the HTTP client's pool policies and the lock discipline around them | over every interleaving of requests, removals and timers: only empty entities are on the way out, closing is final, both limits hold, no assertion of the statistics fails, the lists of policy, servers and threads agree, a record goes exactly with its last link; one connection of a server waits to close at a time, and timers alone close all connections of an idle server |
| `Planner` | the timed message queue and its worker | no oversleep although the lock is released before the wait; every message is in exactly one place, delivered at most once, never early by the clock, in order; exactly the due messages are taken |
| `TaskRunner`, `TaskRunnerFlow` | the worker pool with a bounded queue | no task lost, no stranded task or producer, no sleep after the termination broadcast, an exact count of unused threads that never underflows, one thread-adder at a time, growth only where tasks outnumber unused threads; exactly when `clear()` strands a producer, which step strands a task during termination, and when a second activation is safe |
| `ThreadRunner` | the semaphore turnstile of `start()` | no job before all threads exist, none after a failure, the gate closes again without blocking, every job of a successful start runs; exactly when a job can run too early and when a thread can stay unjoined |
| `BoundedMap`, `BoundedMapHistory` | the least-recently-used map with hash table, list and running total | the class refines a plain list of entries over every run of calls; `update_` is all-or-nothing with the shortest eviction; data, size, time and order of the entries told from the calls, what each counter counts, and exactly when a key is kept |
| `CompressedSet` | the interval map over integers | the class refines a plain set of integers over every run of calls, memo included |
| `LineListener` | line reassembly in a fixed buffer | deliveries depend on the byte stream alone, not on how `read()` cuts it |
| `HashAggregator` | word-at-a-time hashing | the hash does not depend on how the input is cut into `add()` calls, for any mixer |
| `Calendar`, `TimeFormat`, `TimeText` | closed-form calendar, printer and parser of times | the calendar functions invert each other and are Gregorian exactly before March 2100; printed times parse back, with the exact condition for every format of names and numbers under strict parsing; the texts character by character, and exactly which texts set_ft accepts |

Objects and loops of the source are classes and methods proved against functions on values.
Concurrent protocols are state machines: one step per section that a lock or an atomic
operation makes indivisible, and statements over all runs.

## Where code and documentation disagree

The models follow the code.

- `BoundedMapStat` (src/Generics/BoundedMap.hpp:28-32) says that `removed_outdated` is always less than `inserted_new`. Both are 0 at first, and `statistics(true)` resets both, after which an eviction can overtake the insertions (`ResetBreaksTheComment`, and `AnyResetMayBreakTheComment` for every map of positive total). For every run the law holds exactly if fewer entries were held at the last reset than are held or went otherwise since; after a reset of an empty map, once something is inserted (`RunAccounted`).
- `CompressedSet::remove(low, high)` is documented as removal of [low, high]. When `high` is the maximum of the type and that maximum is an element whose predecessor is not, the maximum stays (`RemoveIsDifferenceExactly`, and `LoneMaximumStays` for a run of three calls). `remove(set)` called with the object itself changes nothing.
- `%b`, `%h` and `%a` print short names, but the parser prefers a full name and reads too far where the text goes on like one (`ShortNameReadsBack`); "%buary" in January prints "January" and does not parse (`ShortNameFails`). Such a format never parses (`TooFarFails`).
- `%e` prints a day below 10 with a leading space. A strict parser refuses it (`PaddedDayExactly`); one that is not strict skips the padding with white space that precedes the directive in the format, and then reads the day back; where no digit follows the day, the parse succeeds in no other case (`LooseRoundTrip`). A digit that follows is read as part of the day, and a later directive may happen to repair the field (`LuckyDay`).
- The calendar takes every fourth year as a leap year, 2100 included (`MarchOf2100`). Both conversions follow the Gregorian calendar exactly before March 2100 (`GregorianExactly`, `GregorianDateExactly`).
- `ThreadRunner::start` whose first creation fails leaves the semaphore open for the next cycle (`EmptyCycleOpensTheGate`). The next cycle can run a job too early exactly if some cycle so far created no thread and there are two jobs or more (`GateFailsExactly`). `start_one` between the last join of `wait_for_completion` and its acquire creates a thread that nobody joins; from a call that joined all its threads this is possible exactly if fewer threads run than there are jobs (`UnjoinedExactly`), and without it all are joined (`AllJoined`).
- `TaskRunnerJob::started` does not set the count of unused threads again, so a second activation may fail its assertion (`SecondActivationFails`), and is safe exactly if the count still covers its threads (`ReactivationNeedsCounter`); `add_thread_i_` does not undo the count of a thread it then declines to start, so the count keeps phantoms (`CounterStep`); `clear()` makes room without waking producers (`ClearStrandsProducers`), and some later course of events without another `clear()` strands one exactly if more sleep than are being woken and those awake cannot fill the queue (`ClearStrandsExactly`); between the termination flag and its broadcast a task may wait behind sleeping workers (`TerminationWindow`), exactly because the last worker awake left (`StrandedExactly`).

## Model

| member | source | states |
|---|---|---|
| `HttpPolicy.CloseEntity` | src/HTTP/HttpAsyncPolicies.cpp:56-215 | an empty active entity closes at once if and only if the delay is 0, or one is to spare and another already waits; one that waits goes on exactly as long as somebody is active or awaited; loaded entities are left alone |
| `HttpPolicy.ScanOthers` | src/HTTP/HttpAsyncPolicies.cpp:131-187 | the early-exit scan finds exactly whether another entity is spare and another one already waits to close, in any scan order |
| `HttpPolicy.ScanAlive` | src/HTTP/HttpAsyncPolicies.cpp:189-215 | true if and only if some entity of the group is active or awaited |
| `HttpPolicy.ClosingOrder` | src/HTTP/HttpAsyncPolicies.cpp:56-215 | a timer moves only empty entities towards closing, leaves CLOSING and ACTIVE_AWAITING alone, and answers 0 when it starts to close |
| `HttpPolicy.Policy.ChooseThread` | src/HTTP/HttpAsyncPolicies.cpp:833-867 | a thread that does not close and has room, marked as awaiting; none only if every thread closes or is full, and full ones are marked |
| `HttpPolicy.Policy.LeastLoaded` | src/HTTP/HttpAsyncPolicies.cpp:877-903 | the scan yields a least loaded connection among those not closing, or finds there is none |
| `HttpPolicy.Policy.ChooseConnection` | src/HTTP/HttpAsyncPolicies.cpp:869-928 | a least loaded connection among those not closing that is idle or has no room for another beside it; otherwise a new one is due; nothing but its status changes |
| `HttpPolicy.Policy.WhenCloseThread` | src/HTTP/HttpAsyncPolicies.cpp:955-980 | the same among all threads, where a spare one is one not full, with the waiting time answered and nothing else changed |
| `HttpPolicy.Policy.WhenCloseConnection` | src/HTTP/HttpAsyncPolicies.cpp:1015-1058 | the same among the connections of the same server; unknown records and released servers change nothing |
| `HttpPolicy.TwoTimers` | src/HTTP/HttpAsyncPolicies.cpp:189-215 | two timers in a row close a waiting connection when none of its server's connections is active or awaited, answering the delay and then 0 |
| `HttpPool.StepKeepsInv` | src/HTTP/HttpAsyncPool.cpp:970-1033 | every step of every caller keeps the record, link, ownership and count invariants and meets only assertions that hold |
| `HttpPool.RunKeepsInv` | src/HTTP/HttpAsyncPolicies.cpp:411-671 | the invariants hold in every state of every run |
| `HttpPool.AssertionsHold` | src/HTTP/HttpAsyncPolicies.cpp:443-671 | in every reachable state no enabled step fails an assertion on server links, thread links or items_count, or the checks that a chosen connection or thread is known; servers and threads release what they hold by their own account |
| `HttpPool.LinksAgree` | src/HTTP/HttpAsyncPool.cpp:654-669 | in every reachable state the connections linked to a thread are those the thread itself has |
| `HttpPool.ListsAgree` | src/HTTP/HttpAsyncPool.cpp:970-1098 | in every reachable state the policy's list of a server is that server's own map of connections, and its threads are those of the pool |
| `HttpPool.Limits` | src/HTTP/HttpAsyncPolicies.cpp:834-928 | in every reachable state items_count of a thread is the number of connections linked to it and at most max(1, limit); usable connections of a server are at most max(1, limit) |
| `HttpPool.OnlyTheEmptyLeave` | src/HTTP/HttpAsyncPolicies.cpp:56-215 | in every reachable state a connection on the way out has no outstanding request, a thread on the way out no connection |
| `HttpPool.ClosingIsFinal` | src/HTTP/HttpAsyncPool.cpp:970-1033 | once CLOSING, at every later point of a run the connection is still CLOSING or gone, and carries no request |
| `HttpPool.ThreadClosingIsFinal` | src/HTTP/HttpAsyncPool.cpp:755-809 | once CLOSING, at every later point of a run the thread is still CLOSING or gone, and no connection is linked to it |
| `HttpPool.ErasedWithLastLink` | src/HTTP/HttpAsyncPolicies.cpp:442-604 | a step erases a connection record if and only if it releases one link while the other is already gone |
| `HttpPool.EitherOrder` | src/HTTP/HttpAsyncPolicies.cpp:442-604 | server and thread may release in either order: same statistics, record gone |
| `HttpPool.ConnectionStepsKeepLinks` | src/HTTP/HttpAsyncPool.cpp:970-1033 | choosing, adding, counting and closing connections never links one to a thread |
| `HttpClosing.AwaitedIsHeld` | src/HTTP/HttpAsyncPool.cpp:970-1033 | in every reachable state a connection is ACTIVE_AWAITING if and only if its server's mutex is held for it |
| `HttpClosing.ThreadAwaitedExactly` | src/HTTP/HttpAsyncPool.cpp:755-809 | a thread is ACTIVE_AWAITING exactly while the pool's mutex is held for it, and of all steps only a placement that fails after the choice breaks that |
| `HttpClosing.FullIsFull` | src/HTTP/HttpAsyncPolicies.cpp:833-867 | in every reachable state a thread marked as full has as many connections as the limit |
| `HttpClosing.MovesOfARun` | src/HTTP/HttpAsyncPolicies.cpp:56-215 | every step of a run that moves a connection or a thread to CLOSURE_AWAITING, CLOSURE_ON_NEXT_TRY or CLOSING finds its peers as the rules demand, nobody alive for the second |
| `HttpClosing.OneWaitsAtATime` | src/HTTP/HttpAsyncPolicies.cpp:131-187 | in every reachable state at most one connection of a server is CLOSURE_AWAITING, and at most one thread if threads may have connections |
| `HttpClosing.IdleServerCloses` | src/HTTP/HttpAsyncPolicies.cpp:56-215 | from every run that ends with a server idle, timers alone bring exactly its connections to CLOSING |
| `HttpClosing.IdleThreadsClose` | src/HTTP/HttpAsyncPolicies.cpp:56-215 | from every run that ends with all threads idle, timers alone bring them all to CLOSING |
| `HttpClosing.ServersGoOn` | src/HTTP/HttpAsyncPool.cpp:970-1033 | in every reachable state a free server can choose a connection or a new one, and a locked one can go on |
| `HttpClosing.PoolGoesOn` | src/HTTP/HttpAsyncPool.cpp:755-809 | in every reachable state a locked thread pool can go on |
| `Planner.PlannerJob.Schedule` | src/Generics/Scheduler.cpp:40-104 | the backward search inserts before equal times, and signals if and only if the message becomes the head |
| `Planner.PlannerJob.Unschedule` | src/Generics/Scheduler.cpp:106-131 | exactly the messages of the goal are removed, in order, and counted |
| `Planner.PlannerJob.Pump` | src/Generics/Scheduler.cpp:161-185 | the due prefix becomes pending and the deadline is the adjusted time of the new head |
| `Planner.InsertedKeepsOrder` | src/Generics/Scheduler.cpp:70-94 | insertion keeps the list sorted by time |
| `Planner.InsertedIsAdded` | src/Generics/Scheduler.cpp:70-94 | insertion adds exactly one message |
| `Planner.GoalSplit` | src/Generics/Scheduler.cpp:106-131 | what unschedule keeps and what it removes make up the list; nothing of the goal is kept |
| `Planner.WakeStep` | src/Generics/Scheduler.cpp:144-258 | every step keeps: sorted list, and a deciding, waiting or sleeping worker whose deadline is not after any queued message unless the new-events flag is up |
| `Planner.ConservedStep` | src/Generics/Scheduler.cpp:70-286 | every step keeps the count of each message over queue, pending, delivered, unscheduled and cleared |
| `Planner.PunctualStep` | src/Generics/Scheduler.cpp:162-286 | every step keeps: deliveries are not before their adjusted time and ordered within a batch |
| `Planner.NoOversleep` | src/Generics/Scheduler.cpp:144-258 | a worker asleep with the flag down sleeps past no message and was not asked to terminate; with the flag up a signal is still owed |
| `Planner.DeliveriesOfARun` | src/Generics/Scheduler.cpp:162-286 | two deliveries of a run are of different messages, on time, and in time order within a batch |
| `Planner.NeverEarly` | src/Generics/Scheduler.cpp:162-185 | without adjustment every delivery has its time at or before the clock reading, with adjustment at most the shift after it |
| `Planner.SleepsNotPast` | src/Generics/Scheduler.cpp:144-258 | a sleeper without a flagged event has a deadline of some message, not after the time of any queued one, and before it by the shift; no deadline only for an empty queue |
| `Planner.PumpTakesTheDue` | src/Generics/Scheduler.cpp:161-185 | the pumping section of a reachable state takes exactly the messages due by its clock reading, in order, and else waits for the head's time brought forward by the shift |
| `Planner.HalfTheDelay` | src/Generics/Scheduler.cpp:243-258 | a wakeup after the deadline makes half of the delay the shift, and nothing else changes it |
| `Planner.GoneOnlyIfAsked` | src/Generics/Scheduler.cpp:144-230 | in every reachable state the worker has left only if it was asked to |
| `Planner.ScheduledAsAsked` | src/Generics/Scheduler.cpp:40-104 | the queued message is the one asked for, not before the epoch, and is announced if and only if it is the first |
| `Planner.FlagLowered` | src/Generics/Scheduler.cpp:205-240 | the new-events flag is lowered if and only if the worker turns to look at the queue again, which it does with the flag up before a wait or after one that did not time out |
| `Planner.Wakeups` | src/Generics/Scheduler.cpp:32-104 | terminate and signal get a sleeping worker up; a new activation starts over |
| `Planner.WorkerCanLeave` | src/Generics/Scheduler.cpp:144-286 | from every run in which the worker was asked to terminate, its own steps bring it out with all it has pumped delivered |
| `Planner.ExactlyOnePlace` | src/Generics/Scheduler.cpp:70-286 | in every reachable state each scheduled message is in exactly one place |
| `Planner.NothingPendingWhenGone` | src/Generics/Scheduler.cpp:134-286 | a worker that left keeps no pending message |
| `TaskRunner.StrandStep` | src/Generics/TaskRunner.cpp:144-218 | every step keeps: waiting_threads_ is exact, and with a sleeper each task is announced by an owed signal, a woken worker or one holding the lock |
| `TaskRunner.AdderStep` | src/Generics/TaskRunner.cpp:102-118 | every step keeps: adding_thread_ counts the callers past the try-lock and at most one is inside |
| `TaskRunner.CounterStep` | src/Generics/TaskRunner.cpp:155-256 | every step keeps the unused counter exact: threads that do not execute, reserved and unstarted ones, and phantoms, of which only a declined addition makes one |
| `TaskRunner.RoomStep` | src/Generics/TaskRunner.cpp:65-86 | every step keeps the queue within its limit, whatever wakes the producers |
| `TaskRunner.ShortStep` | src/Generics/TaskRunner.cpp:39-86 | only clear() can leave more producers asleep than are being woken beside room that those awake cannot fill, and it does so exactly under ClearLeavesShort |
| `TaskRunner.NoStrandedTask` | src/Generics/TaskRunner.cpp:47-218 | no reachable state has a task, live workers all asleep and nobody owing a signal, except while terminate() is between flag and broadcast |
| `TaskRunner.NoSleepAfterBroadcast` | src/Generics/TaskRunner.cpp:259-263 | after the broadcast no worker is asleep in any later state |
| `TaskRunner.CountersNeverUnderflow` | src/Generics/TaskRunner.cpp:155-256 | in every reachable state the counters are non-negative and every decrement the next step makes, on leaving, waking, taking a task, failing to start and releasing, starts above 0 |
| `TaskRunner.OneAdderAtATime` | src/Generics/TaskRunner.cpp:102-118 | two callers in add_thread_i_ are the same caller |
| `TaskRunner.NoStrandedProducer` | src/Generics/TaskRunner.cpp:65-86 | a producer sleeps beside room with no wakeup coming only after a clear() that left producers short, and the shortage has lasted since |
| `TaskRunner.ClearStrandsExactly` | src/Generics/TaskRunner.cpp:39-44 | from any state, some path without another clear() strands a producer after clear() if and only if more sleep than are owed a wakeup and those owed or retrying are fewer than the limit |
| `TaskRunner.ClearStrandsProducers` | src/Generics/TaskRunner.cpp:39-44 | a run in which clear() leaves a producer asleep beside an empty queue with no wakeup coming |
| `TaskRunner.TerminationWindow` | src/Generics/TaskRunner.cpp:144-218 | a run showing that the exception in NoStrandedTask is needed |
| `TaskRunner.StrandedExactly` | src/Generics/TaskRunner.cpp:144-218 | a step from a state without a stranded task strands one if and only if the only worker awake leaves for termination, owing nothing, with a task queued; this needs the flag set and no broadcast yet |
| `TaskRunner.ReactivationNeedsCounter` | src/Generics/TaskRunner.cpp:14-37 | after an activation has ended, no run of the next one meets the failing assertion if and only if the counter covers the threads to be created and the reserved one |
| `TaskRunner.SecondActivationFails` | src/Generics/TaskRunner.cpp:14-37 | a run of two activations after which the assertion before the decrement fails |
| `TaskRunnerFlow.FlowStep` | src/Generics/TaskRunner.cpp:47-256 | over every step: a task is taken in, handed to one worker, or all are cleared; a producer goes on to add a thread, enters add_thread_i_ and counts a thread exactly under the tests of the source; signals are owed exactly; a worker leaves if and only if it takes the lock after the flag |
| `TaskRunnerFlow.TasksConserved` | src/Generics/TaskRunner.cpp:39-218 | over every run, tasks accepted are queued, begun or cleared |
| `TaskRunnerFlow.GrowthWasNeeded` | src/Generics/TaskRunner.cpp:221-256 | every thread beyond those of start() was decided on when tasks outnumbered the threads counted unused |
| `TaskRunnerFlow.ProducersCounted` | src/Generics/TaskRunner.cpp:65-86 | a producer is kept only by a full queue, and leaves by giving up or by finding room |
| `TaskRunnerFlow.NobodyLeavesEarly` | src/Generics/TaskRunner.cpp:144-218 | in every reachable state without the termination flag no worker has left |
| `TaskRunnerFlow.AllCanLeave` | src/Generics/TaskRunner.cpp:144-263 | from every state after the broadcast the workers alone can all leave, beginning no task |
| `ThreadRunner.ThreadStep` | src/Generics/ThreadRunner.cpp:116-135 | every turnstile step of a created thread keeps the gate invariant |
| `ThreadRunner.OwnerStep` | src/Generics/ThreadRunner.cpp:145-239 | every step of start, start_one and wait_for_completion keeps the gate invariant, start_one after the last join included |
| `ThreadRunner.StartGate` | src/Generics/ThreadRunner.cpp:116-226 | if no earlier cycle was empty, no thread is past the gate before all are created, and none ever works after a failed creation |
| `ThreadRunner.CloseNeverBlocks` | src/Generics/ThreadRunner.cpp:157-183 | the waiter can take the semaphore back at once unless late threads hold every permit, and then one of them can release it |
| `ThreadRunner.GateClosedExactly` | src/Generics/ThreadRunner.cpp:157-226 | between cycles the permits, with those that late threads hold, are as many as the cycles that created no thread; the gate is closed if and only if there are none |
| `ThreadRunner.GateFailsExactly` | src/Generics/ThreadRunner.cpp:185-226 | from every run that ends between cycles, the next cycle can run a job before all threads exist if and only if some cycle created no thread and there are at least two jobs |
| `ThreadRunner.OpenGateLetsThrough` | src/Generics/ThreadRunner.cpp:116-135 | with the gate released, some thread step is possible until all are done |
| `ThreadRunner.EmptyCycleOpensTheGate` | src/Generics/ThreadRunner.cpp:185-226 | a run in which a job works before all threads exist, after a cycle whose first creation failed |
| `ThreadRunner.AllJoined` | src/Generics/ThreadRunner.cpp:157-183 | in every reachable state without a late thread, every thread of the cycles so far is done when wait_for_completion has returned |
| `ThreadRunner.UnjoinedExactly` | src/Generics/ThreadRunner.cpp:157-239 | from every run that ends between the last join and the acquire, the same wait_for_completion can return with a thread not done if and only if fewer threads run than there are jobs |
| `ThreadRunner.LateMeansLate` | src/Generics/ThreadRunner.cpp:157-239 | the late threads of a run are those created between the last join and the acquire |
| `ThreadRunner.OneJobPerThread` | src/Generics/ThreadRunner.cpp:145-155 | in every reachable state no more threads run than there are jobs, so the slot of a new thread exists |
| `ThreadRunner.StartCreates` | src/Generics/ThreadRunner.cpp:185-226 | a start(n) that did not fail has created n threads when it returns, one for every job if n is 0 or too large |
| `ThreadRunner.EveryJobRuns` | src/Generics/ThreadRunner.cpp:116-226 | when all threads of a start(n) that did not fail are joined and none came late, each of them has run its job |
| `ThreadRunner.NeverStuck` | src/Generics/ThreadRunner.cpp:116-239 | in every reachable state with the owner not idle somebody can go on; start() fails only with a thread missing and opens the gate exactly with none missing |
| `BoundedMap.Evicted` | src/Generics/BoundedMap.hpp:1088-1103 | every dropped entry was outdated and dropped while the new one did not fit; stops when it fits or at a fresh entry |
| `BoundedMap.ScanFindsShortest` | src/Generics/BoundedMap.hpp:1254-1271 | the first phase of update_ finds the shortest outdated prefix that suffices, or proves that none does |
| `BoundedMap.UpdateAllOrNothing` | src/Generics/BoundedMap.hpp:1234-1291 | update_ keeps the key and drops the shortest sufficient prefix without it, or drops the key alone, the latter if and only if no prefix suffices |
| `BoundedMap.RunAccounted` | src/Generics/BoundedMap.hpp:28-32 | over every run, resets included: inserted_new plus what was held at the last reset is what is held plus everything removed since; the insert calls since are the three counters; each inequality of the comment holds exactly under a stated condition on what was held |
| `BoundedMap.ResetBreaksTheComment` | src/Generics/BoundedMap.hpp:28-32 | a run with a reset after which removed_outdated is not less than inserted_new |
| `BoundedMap.AnyResetMayBreakTheComment` | src/Generics/BoundedMap.hpp:1405-1419 | after a reset of any map of positive total, a late insertion of a new key makes removed_outdated at least inserted_new |
| `BoundedMap.InsertNewFits` | src/Generics/BoundedMap.hpp:1078-1125 | a successful insert ends within the bound even if it was lowered before |
| `BoundedMap.UpdateAtFits` | src/Generics/BoundedMap.hpp:1234-1291 | an update that keeps its key ends within the bound even if it was lowered before |
| `BoundedMap.InsertOrUpdateFits` | src/Generics/BoundedMap.hpp:1180-1200 | a successful replacement ends within the bound even if it was lowered before |
| `BoundedMap.RunFits` | src/Generics/BoundedMap.hpp:1025-1360 | a run stays within the bound in every state if and only if no call lowers the bound below what is held |
| `BoundedMap.RunSorted` | src/Generics/BoundedMap.hpp:1025-1151 | if the clock never goes back, the queue is sorted by last use |
| `BoundedMap.RefusedInsertLeavesFresh` | src/Generics/BoundedMap.hpp:1078-1125 | if the clock never goes back, a refused insert that would fit the bound leaves a non-empty map of fresh entries only |
| `BoundedMapHistory.EntriesFromCalls` | src/Generics/BoundedMap.hpp:1025-1360 | after any run of calls, data, size and time of use of every entry are those of the last calls for its key, and entries stand in the order of their last use |
| `BoundedMapHistory.StoredData` | src/Generics/BoundedMap.hpp:1134-1200 | the data held for a key is that of an insert which found it absent or of an insert_or_update, with no such call after it |
| `BoundedMapHistory.CountersOfARun` | src/Generics/BoundedMap.hpp:28-32 | over any run each counter is the number of calls since the reset that did what it is named for, told from who is held before and after them |
| `BoundedMapHistory.InsertedExactly` | src/Generics/BoundedMap.hpp:1078-1125 | if the clock never goes back, insert_ succeeds if and only if the size fits the bound beside the entries used within the timeout |
| `BoundedMapHistory.UpdatedExactly` | src/Generics/BoundedMap.hpp:1234-1291 | if the clock never goes back, update_ keeps the key if and only if its size fits the bound beside the other entries used within the timeout |
| `BoundedMapHistory.InsertEvicts` | src/Generics/BoundedMap.hpp:1078-1125 | insert_ drops entries from the front only, each unused for the timeout and only while there is no room |
| `BoundedMap.OrderIsIndex` | src/Generics/BoundedMap.hpp:1025-1037 | the list position stored with a key is the position of that key among the entries |
| `BoundedMap.DropNode` | src/Generics/BoundedMap.hpp:1323-1337 | erasing a node and its key keeps table and list in agreement and removes that entry |
| `BoundedMap.AddNode` | src/Generics/BoundedMap.hpp:1105-1117 | appending a node with a new key keeps table and list in agreement and appends that entry |
| `BoundedMap.SpliceNode` | src/Generics/BoundedMap.hpp:1025-1037 | moving a node to the back keeps table and list in agreement and makes the entry most recent |
| `BoundedMap.BoundedMap.Touch_` | src/Generics/BoundedMap.hpp:1025-1037 | find_ finds exactly the held keys and makes the entry most recent |
| `BoundedMap.BoundedMap.Find_` | src/Generics/BoundedMap.hpp:1039-1068 | find answers the data held for the key, nothing if and only if it is not held, and makes the entry most recent |
| `BoundedMap.BoundedMap.MakeRoom` | src/Generics/BoundedMap.hpp:1088-1103 | the eviction loop drops what Evicted says; its end() test is never met |
| `BoundedMap.BoundedMap.Insert_` | src/Generics/BoundedMap.hpp:1134-1151 | refines insertion on the plain list; true if and only if something was inserted |
| `BoundedMap.BoundedMap.InsertAbsent` | src/Generics/BoundedMap.hpp:1078-1125 | refines insertion of an absent key, with all three outcomes |
| `BoundedMap.BoundedMap.FindCut` | src/Generics/BoundedMap.hpp:1254-1271 | the first loop of update_ computes the cut and the total it leaves |
| `BoundedMap.BoundedMap.EvictBefore` | src/Generics/BoundedMap.hpp:1273-1285 | the second loop of update_ erases the prefix except the updated node, and counts it |
| `BoundedMap.BoundedMap.Update_` | src/Generics/BoundedMap.hpp:1234-1291 | refines update on the plain list; true if and only if the key was kept |
| `BoundedMap.BoundedMap.UpdateHeld` | src/Generics/BoundedMap.hpp:1297-1308 | update of a key that may be absent refines the plain list |
| `BoundedMap.BoundedMap.InsertOrUpdate_` | src/Generics/BoundedMap.hpp:1180-1200 | refines insert-or-update on the plain list |
| `BoundedMap.BoundedMap.Erase_` | src/Generics/BoundedMap.hpp:1323-1337 | refines erasure on the plain list |
| `BoundedMap.BoundedMap.Clear` | src/Generics/BoundedMap.hpp:1353-1360 | empties the map and keeps its statistics |
| `BoundedMap.Replay` | src/Generics/BoundedMap.hpp:1025-1360 | after any run of calls the class, its table, list and total, stands for the plain list after the same run |
| `CompressedSet.CanonicalFormIsUnique` | src/Generics/CompressedSet.hpp:13-21 | two canonical interval lists with the same integers are equal |
| `CompressedSet.RemoveIsDifferenceExactly` | src/Generics/CompressedSet.hpp:222-275 | remove is set difference if and only if it does not end at a lone element at the type's maximum |
| `CompressedSet.LoneMaximumStays` | src/Generics/CompressedSet.hpp:222-275 | adding the maximum, removing it and asking for it answers yes |
| `CompressedSet.AbsorbedIsUnion` | src/Generics/CompressedSet.hpp:180-194 | the absorbing loop ends in the canonical form of the union |
| `CompressedSet.SeedFresh` | src/Generics/CompressedSet.hpp:158-178 | inserting a new interval at its place and absorbing gives the union |
| `CompressedSet.SeedExtend` | src/Generics/CompressedSet.hpp:158-178 | extending the interval found and absorbing gives the union |
| `CompressedSet.CarvedIsRemoved` | src/Generics/CompressedSet.hpp:232-275 | the removing loop terminates although some turns do not advance, and ends in the canonical form of what remove leaves |
| `CompressedSet.PresenceIsExact` | src/Generics/CompressedSet.hpp:338-378 | ALL and NONE are answered exactly when all and none of [low, high] is present |
| `CompressedSet.OnlyNeighbour` | src/Generics/CompressedSet.hpp:311-334 | a value between two starts is present if and only if the left interval reaches it |
| `CompressedSet.CompressedSet.Add` | src/Generics/CompressedSet.hpp:148-194 | set union, canonical form kept, inverted range ignored |
| `CompressedSet.CompressedSet.Remove` | src/Generics/CompressedSet.hpp:222-275 | set difference except for the lone maximum, canonical form kept |
| `CompressedSet.CompressedSet.Carve` | src/Generics/CompressedSet.hpp:232-275 | the iterator loop computes the carving function |
| `CompressedSet.CompressedSet.AddSet` | src/Generics/CompressedSet.hpp:205-218 | union with another set, the object itself included |
| `CompressedSet.CompressedSet.RemoveSet` | src/Generics/CompressedSet.hpp:286-299 | difference with another set except for the lone maximum; nothing for the object itself |
| `CompressedSet.CompressedSet.Belongs` | src/Generics/CompressedSet.hpp:311-334 | plain membership, whatever the memo holds |
| `CompressedSet.CompressedSet.CheckPresence` | src/Generics/CompressedSet.hpp:338-378 | ALL, NONE or SOME exactly; NONE for an inverted range |
| `CompressedSet.Replay` | src/Generics/CompressedSet.hpp:148-378 | over any run of additions, removals, clears and queries the answers are those of a plain set of integers |
| `LineListener.SplitIsUnique` | src/Generics/Listener.cpp:568-600 | a byte sequence falls into lines and a rest in one way only |
| `LineListener.SplitContinues` | src/Generics/Listener.cpp:568-600 | splitting the rest together with later bytes continues the split of the whole |
| `LineListener.Greedy` | src/Generics/Listener.cpp:517-607 | the greedy cut, up to the first newline or a full buffer, is such a split |
| `LineListener.Listener.DeliverLines` | src/Generics/Listener.cpp:570-581 | the newline scan delivers the complete lines and leaves no newline behind |
| `LineListener.Listener.OnRead` | src/Generics/Listener.cpp:568-600 | after a read the buffered bytes are split into deliveries and rest |
| `LineListener.Listener.MoveDown` | src/Generics/Listener.cpp:593 | the rest is moved to the front although the regions may overlap |
| `LineListener.Listener.Read` | src/Generics/Listener.cpp:529-530 | there is always room, so a read of available bytes never returns 0 like end of file |
| `LineListener.Listener.HandleRead` | src/Generics/Listener.cpp:517-607 | one event loop call: interruptions, blocking, end and failure; bytes in are bytes delivered plus rest |
| `LineListener.Connection` | src/Generics/Listener.cpp:517-607 | for every way the stream is offered, the deliveries are the greedy cut of the stream, with the rest delivered at close |
| `LineListener.NothingLost` | src/Generics/Listener.cpp:517-607 | the deliveries are the stream in order, all of it at close, and otherwise up to fewer bytes than the buffer holds without a newline |
| `LineListener.KnownLines` | src/Generics/Listener.cpp:568-600 | two short streams with their lines written out |
| `HashAggregator.OrAbove` | src/Generics/Hash.hpp:247-266 | or-ing shifted bytes above the tail is concatenation |
| `HashAggregator.ShiftedRead` | src/Generics/Hash.hpp:252-254 | the unaligned word read, shifted and truncated, keeps exactly the bytes that complete the word |
| `HashAggregator.GetSafe` | src/Generics/Hash.hpp:210-220 | the byte loop reads the little-endian value of the first bytes |
| `HashAggregator.BlocksAreTheBytes` | src/Generics/Hash.hpp:233-280 | words and remainder determine the bytes, and their number is the division by the width |
| `HashAggregator.BlocksAppend` | src/Generics/Hash.hpp:233-280 | the words of a concatenation are those of the first part, then those of its remainder and the second part |
| `HashAggregator.Aggregator.FillTail` | src/Generics/Hash.hpp:247-266 | completes the begun word and mixes it, or extends the tail |
| `HashAggregator.Aggregator.MixWords` | src/Generics/Hash.hpp:268-273 | mixes exactly the whole words |
| `HashAggregator.Aggregator.Add` | src/Generics/Hash.hpp:233-280 | the state after s and then key is the state after their concatenation, size modulo the word width |
| `HashAggregator.HashChunks` | src/Generics/Hash.hpp:233-287 | every cut into add() calls gives the hash of the whole, for 4- and 8-byte words and any mixer |
| `HashAggregator.HashByPositions` | src/Generics/Hash.hpp:233-287 | the finalizer gets the state after the words of the bytes in order, the length modulo the width, the last bytes filled with zeros, and the length modulo 256 to the width |
| `Calendar.FillGm` | src/Generics/Time.cpp:94-137 | the step-by-step computation gives valid fields from the epoch on, and fields that gm_to_time takes back exactly after -1461 days |
| `Calendar.GmToTimeCounts` | src/Generics/Time.cpp:79-92 | the closed form counts the days of the years and months before, one by one |
| `Calendar.MonthOfDay` | src/Generics/Time.cpp:132-137 | the search in the month table finds the month of a day |
| `Calendar.DayRoundTrip` | src/Generics/Time.cpp:79-137 | days to date and back is the identity if and only if the day is after the first four years before the epoch |
| `Calendar.TimeRoundTrip` | src/Generics/Time.cpp:79-137 | seconds to fields and back is the identity if and only if the time is after -1461 days |
| `Calendar.TimeToGmIsValid` | src/Generics/Time.cpp:94-137 | from the epoch on all fields are in range and the date exists |
| `Calendar.GmRoundTrip` | src/Generics/Time.cpp:79-137 | every existing date and clock time from 1970 on is restored, with its day of the year |
| `Calendar.CompareAgrees` | src/Generics/Time.hpp:1014-1046 | field-wise comparison has the sign of the difference in seconds |
| `Calendar.GregorianExactly` | src/Generics/Time.cpp:79-92 | for every Gregorian date from 1970 on, gm_to_time counts the Gregorian seconds if and only if the date is before March 2100 |
| `Calendar.GregorianDateExactly` | src/Generics/Time.cpp:94-137 | time_to_gm gives the Gregorian date and time of a second if and only if the second is before March 2100 |
| `Calendar.MarchOf2100` | src/Generics/Time.cpp:79-92 | 1 March 2100 comes out a day late |
| `Calendar.WeekdayAdvances` | src/Generics/Time.cpp:94-105 | the epoch is a Thursday, and from then on the weekday advances by one each day |
| `Calendar.MonthLengths` | src/Generics/Time.cpp:73-77 | thirty days for April, June, September and November, 28 or 29 for February, 31 for the others |
| `Calendar.KnownTimes` | src/Generics/Time.cpp:79-137 | the epoch, a leap day and its neighbours, and one time with all its fields, in plain numbers |
| `TimeFormat.AddNum` | src/Generics/Time.cpp:208-224 | the backward loop writes the decimal digits, padded with zeros |
| `TimeFormat.ReadNumberLoop` | src/Generics/Time.cpp:162-183 | the loop computes what NumberRead describes |
| `TimeFormat.NumberRead` | src/Generics/Time.cpp:162-183 | the longest digit run up to the size and its value are read; not strict, one digit is enough; strict reading demands all of them |
| `TimeFormat.ReadsBack` | src/Generics/Time.cpp:162-224 | a printed number is read back whatever follows it |
| `TimeFormat.AddStr` | src/Generics/Time.cpp:185-197 | appends exactly if it fits and touches nothing before |
| `TimeFormat.ToStr` | src/Generics/Time.cpp:424-650 | for every format, writes the rendering if it fits the buffer and answers 0 otherwise, recursing for combined directives |
| `TimeFormat.ScanField` | src/Generics/Time.cpp:284-393 | reads one directive, a name or a number; what it accepts leaves all fields in range |
| `TimeFormat.ExtendedTime.FromStr` | src/Generics/Time.cpp:260-422 | for every format, the parsing loop refines the recursive parser, fields read so far kept on failure |
| `TimeFormat.FieldReadsBack` | src/Generics/Time.cpp:284-600 | what a directive prints, a number, a full or a short name, it reads back, setting that field alone, unless a short name goes on like its full name or the day is padded |
| `TimeFormat.PrintParseRoundTrip` | src/Generics/Time.cpp:260-650 | for every format of literals, spaces, zero-padded numbers and full names, parsing the rendering succeeds and restores exactly the fields named |
| `TimeFormat.StrictRoundTrip` | src/Generics/Time.cpp:260-650 | for every format that also has short names and "%e", strict parsing of the rendering restores exactly the fields named if every directive can be read back from the text, and fails otherwise |
| `TimeFormat.LooseRoundTrip` | src/Generics/Time.cpp:260-650 | the same for parsing that is not strict, where white space before "%e" takes its padding too; the failing half where no digit follows a padded day |
| `TimeFormat.LuckyDay` | src/Generics/Time.cpp:260-650 | a format that reads a padded day wrongly and still restores it by a later directive |
| `TimeFormat.PaddedDayExactly` | src/Generics/Time.cpp:492-502 | for every format without short names, strict parsing of the rendering restores the fields named if and only if the day has two digits or "%e" does not occur |
| `TimeFormat.ShortNameReadsBack` | src/Generics/Time.cpp:141-160 | a short name gives its index back, and is read to its own end if and only if the text does not go on like the full name |
| `TimeFormat.TooFarFails` | src/Generics/Time.cpp:284-320 | whatever follows in the format, a rendering whose short name goes on like its full name does not parse |
| `TimeFormat.AheadFails` | src/Generics/Time.cpp:260-422 | a parser that has read the rest of a name ahead of its format never recovers |
| `TimeFormat.ShortNameFails` | src/Generics/Time.cpp:141-160 | "%buary" in January prints "January", which does not parse |
| `TimeFormat.FullNameReadsBack` | src/Generics/Time.cpp:141-160 | a full name is read back whatever follows it |
| `TimeFormat.ScanName` | src/Generics/Time.cpp:284-320 | the loop over a table finds the first name, full before short, that the text starts with in any case |
| `TimeFormat.ParseKeepsRange` | src/Generics/Time.cpp:260-422 | a successful parse leaves every field in range |
| `TimeFormat.FtPrints` | src/Generics/Time.hpp:1282-1287 | "%F %T" always prints 19 characters, those of the format that set_ft parses |
| `TimeFormat.FtRoundTrip` | src/Generics/Time.hpp:1282-1303 | set_ft of gm_ft returns the time without its microseconds if and only if it lies in 1970..9999 |
| `TimeText.DirectivesPrint` | src/Generics/Time.cpp:424-650 | every directive prints its own field, digit by digit or as the English name |
| `TimeText.PlainNumbers` | src/Generics/Time.cpp:525-569 | "%k" is the hour and "%s" the seconds from the epoch, without padding |
| `TimeText.ZoneText` | src/Generics/Time.cpp:601-632 | "%z" is a sign, two digits of hours and two of minutes, and fails only with mktime() |
| `TimeText.UnknownDirectives` | src/Generics/Time.cpp:260-650 | a directive that is not known, or a sign at the end, is neither printed nor read |
| `TimeText.FtText` | src/Generics/Time.cpp:503-600 | "%F %T" is year, month, day, hour, minute and second in that order with their separators |
| `TimeText.SetFtExactly` | src/Generics/Time.hpp:1289-1303 | strict set_ft accepts a text if and only if it starts with such a date and time in range, and yields the seconds of its numbers; not strict, the same for every such text |
| `TimeText.KnownTexts` | src/Generics/Time.hpp:1282-1303 | the epoch and a leap day as they are printed and read |

## Left out

- libevent, evhttp, pipes, fork/exec and pthread calls, timers and their arming, exceptions such as bad_alloc: outcomes of calls are steps or parameters, the calls themselves are not modelled.
- HttpPool: state machine on values, one step per call of the policy under its mutex; threads of the program do not appear, and of the objects' own containers only the server's and the thread's connections and the pool's threads. An address stands for one object and is not given to another later.
- HttpPolicy: the order in which std::map is scanned is left open, so the contracts hold for every order; error messages of the policy are not modelled.
- Planner: a spurious wakeup and a timeout are the same step, the end of a wait; delivery itself and the goal objects are not modelled; the null goal error is left to the caller's type.
- TaskRunner, ThreadRunner: state machines on values rather than classes, because their methods run concurrently; tasks are counted, not distinguished; producers' timeouts may end at any time; wait_for_queue_exhausting is not modelled.
- ThreadRunner.OwnerStep: start_one does not run while start() creates threads; number_running_ is not synchronised there.
- BoundedMap.Replay: clock readings and answers of the size policy are parameters of each call; iterators, move semantics and the locking wrapper are left out; the clock is read before the lock is taken, so that readings do not go back is a hypothesis of RunSorted and RefusedInsertLeavesFresh.
- CompressedSet.Replay: the iterators and string output are left out; Integer is any range min..max.
- LineListener.Connection: the mode that delivers incomplete lines is left out; errors of read() other than EINTR and EAGAIN are one outcome.
- HashAggregator.HashChunks: the mixers (Murmur and CRC constants) are a parameter, bytes are in little-endian order, and misaligned access is not modelled.
- Calendar: the day of the week before the epoch is not stated; time_t is unbounded; localtime_r is left out.
- TimeFormat.LooseRoundTrip: says nothing of failure where a printed digit follows a padded day directly, because whether later directives repair the field depends on all of them (LuckyDay).
- TimeFormat.ToStr: a weekday or month outside its table of names is an unchecked array access in the source and a failure here; what mktime() answers for local times is a parameter.
- Decimal arithmetic, GeoIP, crypto, UUID, allocators, statistics sinks and signal queues: not modelled.
- Machine-word overflow of sizes, counters and seconds: integers are unbounded, except for the word width of the hash and the range of CompressedSet's integers.
