# Verified models of dsk

dsk is a C++ framework for asynchronous programming. This project models its small lock- or atomic-protected
protocols and its data codecs in Dafny, and proves what they keep in every run and for every input. Nothing of the
original program is executed here; run `dafny verify dfyconfig.toml` to check everything.

Most parts come in three layers. A *specification* gives one critical section, or one atomic operation, as a function
on values. *Objects* (classes and methods) follow the source's fields, loops and branches and are proved equal to the
specification. A *run machine* takes any number of threads and interleaves such steps freely, and the theorems are
about all its runs. What the specification answers is in turn pinned down without it: by conservation laws for queue,
pool and deques (`...Answers`), by places in the buffer and positional byte order for arrays (`PqWire`), by the meaning of
a tree for the reader (`JserAdmits`), and by the grammar of RFC 9110 for the Content-Type parser.

| files | part of dsk |
|---|---|
| `WaiterQueues`, `QueueSpec`, `ResQueue`, `QueueRuns`, `QueueAnswers`, `QueueTheorems` | the bounded queue `res_queue` |
| `PoolSpec`, `ResPool`, `PoolRuns`, `PoolAnswers`, `PoolTheorems` | the resource pool `res_pool` |
| `ThreadPool`, `ThreadRuns`, `ThreadAnswers`, `ThreadTheorems` | the work-stealing `simple_thread_pool_t` |
| `Cleanup`, `CleanupTheorems`, `CleanupObjects` | `lazy_async_op_group_stack`, and coroutine exit in `task` |
| `Until`, `UntilTheorems` | `until_if_op` behind `until_first_*` and `until_all_succeeded` |
| `OpGroup`, `TimedOp` | `async_op_group`, `timed_async_op` |
| `PqArray`, `PqWire` | binary PostgreSQL arrays |
| `Jser`, `JserFinder`, `JserObjects`, `JserAdmits`, `JserRoundTrip`, `JserNested`, `JserReader` | the schema-directed `jser` writer and reader, with the finder of the JSON backend |
| `ContentType`, `ContentTypeTheorems` | the Content-Type parser |
| `Base`, `Sequences` | shared types, and lemmas about sequences |

Atomics and critical sections are sequentially consistent steps. A stop request arrives either before an op checks
for one or after the op is queued. Resumers run a continuation later, once. Clocks, the order of callbacks, which
try-lock fails and which waiter a condition variable wakes are free choices of a run.

## What turned out not to hold

Where a promise fails, the code is modelled as it is, a lemma exhibits the failure on a concrete run or input, and
another one says exactly when the promise holds.

- `increase_capacity` and `set_capacity` wake nobody: ops may then wait although there is room, and later ones overtake
  them (`StrandedEnqueuer`, `StrandedAcquirer`). That nobody waits while there is room holds throughout a run exactly if
  no change of the capacity in it comes while someone waits and makes room, or for the pool is any change at all
  (`FullIff`, `ExhaustedIff`); the next op overtakes exactly after such a change (`GrowthOvertakesIff`,
  `SettingOvertakesIff`).
- `set_capacity(0)`, which an empty pool accepts, lets ops wait although nothing is held that could come back
  (`ZeroCapacityStrands`); with any other capacity that cannot be (`AllReturned`).
- `res_queue::clear` breaks the queue's own integrity assertion exactly if an entry of an enqueuer, cancelled or not, is
  in the deque (`ResQueue.Clear`).
- `until_all_succeeded` reports no error, although children failed, exactly when the parent's stop request came before
  the first failure (`AllSucceededIff`, `AllSucceededCounterexample`).
- A PostgreSQL array whose last element is empty is written but not read back, because the bound in `read_int32` is
  strict (`PqArray.RoundTripIff`, `OneEmptyString`).
- An engaged `joptional` around a value that is itself written as `null` reads back as empty (`HiddenNull`). In a schema
  whose objects hold at most one nested object each, everything else is restored (`LinearRoundTripIff`).
- Of two nested objects in one object, the second may not be read back: `read_jobj` ends with `skip_remains` on the
  finder it shares, after which only the fields met before are looked at again. The read fails (`SecondNotFound`), or
  what was written is lost without an error (`SecondLost`). For every schema and value the round trip holds exactly
  under `NullsTell` and `Seen`, which follow the keys the finder meets (`JserRoundTrip.RoundTripIff`); for two nested
  objects this comes down to the fields met before the second one (`SecondMeets`, `TwinRoundTripIff`).
- `write_jflds` counts a field that `joptional` or `jvariant_t` leaves out, and the count becomes the size of a msgpack
  map (`CountIff`, `CountTooLarge`).
- A quote inside a quoted Content-Type value, escaped or not, ends it, and blanks at its ends are lost
  (`QuotedRoundTripIff`, `ReadsCutShort`). Parsing then goes on inside the quoted text if there is a semicolon
  (`GoesOnInsideIff`), so that the value of one parameter can set another one (`FirstSetsCharset`, `BoundarySetsCharset`). All parameters of a
  message that have a value are read back exactly if no quoted value has a quote in it or a blank at its ends
  (`ContentTypeTheorems.RoundTripIff`).
- A stop request that reaches `timed_async_op` between its check and the wait on the timer does not cancel the timer
  (`StopMissesTimer`, `LoserAsked`).
- A worker may sleep while a job waits behind a busy one (`SleepsBesideWaitingJob`). It sleeps exactly as long as nothing
  happens to its own deque (`SleepsIff`); the owner of the deque in which a job waits is awake (`OwnerAwake`).

Where comments and code disagree the code is followed: `mark_end` (include/dsk/res_queue.hpp:357-360) is documented as
returning `end_reached` *until* all items are retrieved, but does so *after* that; and a missing range field is said to be
cleared (include/dsk/jser/dsl.hpp:213), which happens for plain members but not for fields that go through `jarr_of`
(`MissingRange`).

## Model

| member | source | states |
|---|---|---|
| WaiterQueues.WaiterQueue.Add | include/dsk/res_queue.hpp:197-202 | a new waiter goes to the end of the deque |
| WaiterQueues.WaiterQueue.TakeOldest | include/dsk/res_queue.hpp:204-221 | pops null entries until it finds the oldest live waiter, and leaves the deque empty when there is none |
| WaiterQueues.WaiterQueue.TakeAll | include/dsk/res_queue.hpp:224-228 | hands out the whole deque, null entries included |
| WaiterQueues.WaiterQueue.Erase | include/dsk/res_queue.hpp:230-247 | succeeds iff the op is still queued, and leaves a null entry, so that the deque keeps its length |
| WaiterQueues.TombstoneRemoves | include/dsk/res_queue.hpp:230-247 | nulling an entry removes exactly that op from the live ones and keeps the order of the others |
| ResQueues.EnqueueOp.Complete | include/dsk/res_queue.hpp:163-179 | sets the result of a waiting enqueuer and resumes it once |
| ResQueues.DequeueOp.Complete | include/dsk/res_queue.hpp:163-179 | sets the result of a waiting dequeuer and resumes it once |
| ResQueues.ResQueue.constructor | include/dsk/res_queue.hpp:327-331 | an empty, open queue that meets the joint waiter invariant |
| ResQueues.ResQueue.TryEnqueueNoLock | include/dsk/res_queue.hpp:273-297 | end mark first, then capacity, then the oldest dequeuer, else the item is queued; keeps the joint invariant on whole deques |
| ResQueues.ResQueue.TryDequeueNoLock | include/dsk/res_queue.hpp:299-324 | the front item goes out and the oldest enqueuer's item moves in; on an empty queue end mark and mere emptiness are told apart |
| ResQueues.ResQueue.TryEnqueue | include/dsk/res_queue.hpp:408-422 | a handed-over item completes exactly the dequeuer the critical section chose; the others are untouched |
| ResQueues.ResQueue.TryDequeue | include/dsk/res_queue.hpp:424-438 | the item, and completion of exactly the enqueuer whose item moved in |
| ResQueues.ResQueue.InitiateEnqueue | include/dsk/res_queue.hpp:65-97 | either the op has its result on return, and the dequeuer chosen for its item has received it and is resumed once, or it is queued last, and that only for lack of capacity; the other waiters are untouched |
| ResQueues.ResQueue.InitiateDequeue | include/dsk/res_queue.hpp:98-147 | either the op has its result on return, and the enqueuer whose item moved in is accepted and resumed once, or it is queued last, and that only on an empty open queue; the other waiters are untouched |
| ResQueues.ResQueue.StopEnqueue | include/dsk/res_queue.hpp:124-140 | a stop cancels the enqueuer iff it is still queued, and never touches a decided one |
| ResQueues.ResQueue.StopDequeue | include/dsk/res_queue.hpp:124-140 | the same for dequeuers |
| ResQueues.ResQueue.MarkEnd | include/dsk/res_queue.hpp:361-390 | the first call fails every waiting dequeuer, once each, and reports that it was the first |
| ResQueues.FailAll | include/dsk/res_queue.hpp:381-387 | the loop after unlock completes every op that is not a null entry exactly once |
| ResQueues.ResQueue.ClearEndMark | include/dsk/res_queue.hpp:392-396 | only the mark changes and the invariant stands |
| ResQueues.ResQueue.IncreaseCapacity | include/dsk/res_queue.hpp:344-349 | only the capacity changes: nobody is woken |
| ResQueues.ResQueue.Clear | include/dsk/res_queue.hpp:351-355 | drops the items and nothing else; the invariant, and with it the source's integrity assertion, stands iff no entry of an enqueuer, cancelled or not, is in the deque |
| ResQueues.ResQueue.ServeDequeuers | include/dsk/res_queue.hpp:463-474 | the loop pairs front items with the oldest dequeuers, as many as there are of both |
| ResQueues.ResQueue.ForceEnqueueLocked | include/dsk/res_queue.hpp:450-475 | all items come in, whatever the capacity, and waiting dequeuers are served in order |
| ResQueues.ResQueue.ForceEnqueueRange | include/dsk/res_queue.hpp:441-483 | empty range, end mark and the rest told apart; the k-th oldest dequeuer gets the k-th item |
| ResQueues.ResQueue.AdmitEnqueuers | include/dsk/res_queue.hpp:505-517 | the loop moves in the items of the oldest enqueuers up to the capacity |
| ResQueues.ResQueue.ForceDequeueLocked | include/dsk/res_queue.hpp:490-518 | every item goes out and the queue is refilled in order |
| ResQueues.ResQueue.ForceDequeueAll | include/dsk/res_queue.hpp:486-526 | all items, or the reason there are none; exactly the admitted enqueuers are completed |
| QueueRuns.ServeKeeps | include/dsk/res_queue.hpp:465-474 | one hand-off at a time, the loop does to items and waiters what the closed form says, and keeps all bookkeeping |
| QueueRuns.FillKeeps | include/dsk/res_queue.hpp:507-517 | the same for the refill loop |
| QueueRuns.CancelKeeps | include/dsk/res_queue.hpp:124-140 | a cancellation at any time keeps order, conservation and exactly-once bookkeeping |
| QueueRuns.StepKeeps | include/dsk/res_queue.hpp:265-526 | every event of every thread keeps the joint waiter invariant, conservation and exactly-once bookkeeping, and moves the queue as its sequential specification says |
| QueueAnswers.DequeueTakesFront | include/dsk/res_queue.hpp:299-324 | for every queue: the item given out is the front one and the others keep their order, the item of the oldest enqueuer comes in behind them and that enqueuer is named; without an item nothing changes, and the end mark is told apart from mere emptiness |
| QueueAnswers.EnqueueAppends | include/dsk/res_queue.hpp:273-297 | for every queue: an accepted item goes to the oldest dequeuer, which is named, or else behind the other items; else nothing changes, and a marked end is told before a full queue |
| QueueAnswers.MatchPairs | include/dsk/res_queue.hpp:463-474 | items and dequeuers are paired from the front of both until one is used up |
| QueueAnswers.RefillAdmits | include/dsk/res_queue.hpp:505-517 | the oldest enqueuers are admitted, in order and with their own items, until none is left or the queue is full |
| QueueAnswers.ForceEnqueueAnswers | include/dsk/res_queue.hpp:441-483 | all items come in, in order, for whatever capacity; an empty range is no error, and otherwise a marked end is `end_reached` |
| QueueAnswers.ForceDequeueAnswers | include/dsk/res_queue.hpp:486-526 | every item goes out, in order, and the queue is refilled within its capacity; with nothing to give the end is told if it is marked |
| QueueAnswers.MarkEndAnswers | include/dsk/res_queue.hpp:361-390 | the first mark names every waiting dequeuer, later ones nobody |
| QueueAnswers.InitDeqAnswer | include/dsk/res_queue.hpp:98-147 | in a run a new dequeuer gets that very item, waits, or is told the end, and the named enqueuer alone is accepted |
| QueueAnswers.TryDeqAnswer | include/dsk/res_queue.hpp:424-438 | in a run exactly that item goes out, and the named enqueuer alone is accepted |
| QueueAnswers.InitEnqAnswer | include/dsk/res_queue.hpp:65-97 | in a run a new enqueuer is accepted, waits or is turned down as specified, and the named dequeuer alone has its item |
| QueueAnswers.TryEnqAnswer | include/dsk/res_queue.hpp:408-422 | the same without an op |
| QueueAnswers.ForceEnqAnswer | include/dsk/res_queue.hpp:441-483 | in a run exactly the specified pairs are handed over, and every item is logged as come in |
| QueueAnswers.ForceDeqAnswer | include/dsk/res_queue.hpp:486-526 | in a run exactly these items go out, and exactly the specified enqueuers are accepted |
| QueueAnswers.MarkEndAnswer | include/dsk/res_queue.hpp:361-390 | in a run exactly the named dequeuers are told the end |
| QueueTheorems.Conservation | include/dsk/res_queue.hpp:273-324 | in every run the items admitted, in critical-section order, are the items handed out followed by those queued |
| QueueTheorems.ExactlyOnce | include/dsk/res_queue.hpp:65-180 | in every run an item is admitted once iff its enqueuer succeeded, taken once by a successful dequeuer, and a result is set at most once |
| QueueTheorems.NoStrandedWaiter | include/dsk/res_queue.hpp:204-247 | whoever waits is still queued; a dequeuer waits only on an empty open queue, an enqueuer only on a non-empty one |
| QueueTheorems.StepPersists | include/dsk/res_queue.hpp:163-179 | no event changes the outcome of an op that is decided |
| QueueTheorems.OutcomeStands | include/dsk/res_queue.hpp:65-180 | whichever of hand-off, end mark and cancellation decides an op first, its outcome stands for the rest of every run |
| QueueTheorems.FullIff | include/dsk/res_queue.hpp:284-349 | in every state of a run enqueuers wait only on a full queue, iff no growth of the capacity in the run comes while someone waits and makes room |
| QueueTheorems.GrowthOvertakesIff | include/dsk/res_queue.hpp:284-349 | after a growth of the capacity the next enqueuer is accepted ahead of those that go on waiting iff someone waits, the queue is open and the growth makes room |
| QueueTheorems.NobodyOvertakes | include/dsk/res_queue.hpp:284-296 | in a run without such a growth an enqueuer is accepted at once only if nobody waits |
| QueueTheorems.StrandedEnqueuer | include/dsk/res_queue.hpp:344-349 | a run in which one enqueuer waits beside free room and the next one is accepted |
| QueueTheorems.OvertakesIff | include/dsk/res_queue.hpp:284-296 | a new enqueuer is accepted ahead of those that wait, and go on waiting, iff the queue is open and has room |
| QueueTheorems.TakenFromFront | include/dsk/res_queue.hpp:204-221 | no event but a cancellation takes waiters from anywhere but the front |
| QueueTheorems.OldestFirst | include/dsk/res_queue.hpp:204-221 | of two ops waiting for the same thing the later is never decided first, except by its own cancellation |
| QueueTheorems.Drain | include/dsk/res_queue.hpp:299-324 | after the end mark n dequeues yield exactly the first n of the queued items and the waiting enqueuers' items, in that order, and nobody is left waiting |
| QueueTheorems.EndReachedIff | include/dsk/res_queue.hpp:305-311 | after the end mark a dequeuer is told so iff that backlog is used up, and never waits |
| ResPools.AcquireOp.Complete | include/dsk/res_pool.hpp:216-233 | sets the result of a waiting op and resumes it once |
| ResPools.ResPool.constructor | include/dsk/res_pool.hpp:345-350 | an empty pool that meets its invariant |
| ResPools.ResPool.TryAcquire | include/dsk/res_pool.hpp:448-472 | an unused resource first, a new one only if none is unused and there is room, else none; within capacity |
| ResPools.ResPool.InitiateAcquire | include/dsk/res_pool.hpp:166-200 | either the op has its result on return, or it is queued last because nothing could be handed out |
| ResPools.ResPool.Recycle | include/dsk/res_pool.hpp:285-330 | the resource goes to the oldest live waiter, past null entries, or back to the front of the unused ones |
| ResPools.ResPool.Cancel | include/dsk/res_pool.hpp:266-283 | cancels the op iff it is still queued |
| ResPools.ResPool.CreateAll | include/dsk/res_pool.hpp:436-446 | fills up to the capacity, newest first, and no further |
| ResPools.ResPool.ClearUnused | include/dsk/res_pool.hpp:430-434 | only unused resources go |
| ResPools.ResPool.SetCapacity | include/dsk/res_pool.hpp:398-403 | any capacity not below what exists is taken, 0 for an empty pool too; only the capacity changes: nobody is woken |
| ResPools.ResPool.DestructorHolds | include/dsk/res_pool.hpp:352-356 | with nothing in use, no entry, cancelled or not, is left in the deque, unless the capacity is 0 |
| PoolRuns.GiveBackKeeps | include/dsk/res_pool.hpp:285-330 | recycling keeps single ownership, whether it hands over or puts back |
| PoolRuns.AssignKeeps | include/dsk/res_pool.hpp:99-110 | move assignment gives back what the target held and moves the source's resource, with one holder throughout |
| PoolRuns.MoveRefKeeps | include/dsk/res_pool.hpp:87-97 | move construction hands the resource on and leaves the source invalid |
| PoolRuns.TakeResultKeeps | include/dsk/res_pool.hpp:208-224 | taking the result of an op moves its resource into a reference |
| PoolRuns.CreateAllStock | include/dsk/res_pool.hpp:436-446 | new resources are listed once, as unused |
| PoolRuns.StepKeeps | include/dsk/res_pool.hpp:76-472 | every event keeps: each resource ever created is unused, cleared, or in use by exactly one holder, and the deque names exactly the waiting ops |
| PoolAnswers.AcquireAnswers | include/dsk/res_pool.hpp:448-472 | for every pool: the first unused resource is taken, a new one is made only if none is unused and there is room, and nothing else changes |
| PoolAnswers.RecycleAnswers | include/dsk/res_pool.hpp:285-330 | for every pool: a recycled resource stays in use with the oldest waiting op, which is named, or is the first unused one |
| PoolAnswers.RecycledLastIn | include/dsk/res_pool.hpp:310-318 | with nobody waiting, what was recycled last is acquired first |
| PoolAnswers.CreateAllAnswers | include/dsk/res_pool.hpp:436-446 | for every pool: exactly as many resources are made as there is room for, all new, the newest first |
| PoolAnswers.AcquireAnswer | include/dsk/res_pool.hpp:166-200 | in a run the caller gets that very resource, in its reference or in its op; without one an op waits last in the queue |
| PoolAnswers.MoveAnswer | include/dsk/res_pool.hpp:87-97 | a moved reference hands its resource on and has none, and the pool does not notice |
| PoolAnswers.AssignAnswer | include/dsk/res_pool.hpp:99-110 | assignment gives back what the target held, to the oldest waiting op if there is one, and then moves; to itself it changes nothing |
| PoolTheorems.Ownership | include/dsk/res_pool.hpp:76-128 | in every run no resource is listed twice, the capacity holds, the resources in use are exactly those held by a reference or a pending result, and none has two holders |
| PoolTheorems.StepOnOp | include/dsk/res_pool.hpp:285-330 | an event other than its own cancellation ends a wait only by handing over, and only the oldest wait |
| PoolTheorems.OutcomeStands | include/dsk/res_pool.hpp:216-233 | whatever an op got first it keeps for the rest of every run |
| PoolTheorems.OldestFirst | include/dsk/res_pool.hpp:299-323 | a later waiting op is never served before an earlier one |
| PoolTheorems.RecycledToOldest | include/dsk/res_pool.hpp:321-329 | a recycled resource goes straight to the oldest waiting op and stays in use |
| PoolTheorems.RecycledToUnused | include/dsk/res_pool.hpp:304-319 | without waiters it is unused again, and next in line |
| PoolTheorems.ExhaustedIff | include/dsk/res_pool.hpp:398-472 | in every state of a run ops wait only on an exhausted pool, iff no change of the capacity in the run comes while someone waits |
| PoolTheorems.SettingOvertakesIff | include/dsk/res_pool.hpp:398-403 | after the capacity was set the next op gets a resource ahead of those that go on waiting iff someone waits and the capacity changed |
| PoolTheorems.NobodyOvertakes | include/dsk/res_pool.hpp:179-183 | in a run without such a change an op gets a resource at once only if nobody waits |
| PoolTheorems.StrandedAcquirer | include/dsk/res_pool.hpp:398-403 | a run in which one op waits beside free room and the next one gets a resource |
| PoolTheorems.ZeroCapacityStrands | include/dsk/res_pool.hpp:398-403 | a run after which an op waits on a pool of capacity 0 although nothing is held |
| PoolTheorems.OvertakesIff | include/dsk/res_pool.hpp:179-183 | a new op gets a resource ahead of those that wait, and go on waiting, iff one is unused or may be created |
| PoolTheorems.AllReturned | include/dsk/res_pool.hpp:352-356 | in a run where no change of the capacity strands anyone, once every reference and result is gone nothing is in use, and nobody waits unless the capacity is 0 |
| PoolTheorems.ClearedForGood | include/dsk/res_pool.hpp:430-434 | a resource that was cleared is never handed out again |
| ThreadStates.ThreadState.TryPop | include/dsk/simple_thread_pool.hpp:44-54 | takes the front job if the lock is free, stopped or not |
| ThreadStates.ThreadState.PopOnce | include/dsk/simple_thread_pool.hpp:56-74 | stop first, then a job, and only then sleep |
| ThreadStates.ThreadState.TryPush | include/dsk/simple_thread_pool.hpp:76-91 | appends the job iff the lock is free |
| ThreadStates.ThreadState.Push | include/dsk/simple_thread_pool.hpp:93-103 | although it notifies only when the deque was empty, the owner is awake afterwards |
| ThreadStates.ThreadState.Stop | include/dsk/simple_thread_pool.hpp:105-110 | the flag is set and the owner is awake |
| ThreadStates.Post | include/dsk/simple_thread_pool.hpp:207-222 | the job goes into exactly one deque, the first one from the index on whose lock is free or else the first one, and its owner is awake |
| ThreadStates.Probe | include/dsk/simple_thread_pool.hpp:181-186 | takes at most one job from one deque, and finds none only if every deque is locked or empty |
| ThreadStates.ReachesAll | include/dsk/simple_thread_pool.hpp:182-186 | going round from any index reaches every deque |
| ThreadAnswers.GoesRound | include/dsk/simple_thread_pool.hpp:181-186 | probing starts at one's own deque and goes on to the next one, round the pool |
| ThreadAnswers.TriesEachOnce | include/dsk/simple_thread_pool.hpp:181-193 | a worker tries each deque once before it blocks on its own |
| ThreadAnswers.PostsGoRound | include/dsk/simple_thread_pool.hpp:207-222 | posts start at one deque after the other until the counter wraps |
| ThreadAnswers.PopTakesFront | include/dsk/simple_thread_pool.hpp:56-74 | for every deque: `pop` gives out the front job and leaves the others in order, leaves on a stop whatever is there, and sleeps iff there is neither a stop nor a job |
| ThreadAnswers.TryPopTakesFront | include/dsk/simple_thread_pool.hpp:44-54 | for every deque: the front job, stop or no stop, and none iff there is none |
| ThreadAnswers.PushedThenPopped | include/dsk/simple_thread_pool.hpp:56-103 | jobs pushed on an empty deque are popped in the order they came |
| ThreadAnswers.PopAnswer | include/dsk/simple_thread_pool.hpp:175-199 | in a run the deque is what `pop` leaves, and the worker runs the very job that it gave out |
| ThreadAnswers.TryPopAnswer | include/dsk/simple_thread_pool.hpp:175-199 | the same for the deque a worker probes; without a job it goes on to the next one |
| ThreadRuns.StepKeeps | include/dsk/simple_thread_pool.hpp:44-222 | every step of any worker or poster keeps: no worker sleeps unnotified on a non-empty deque or a set stop flag, every job is in one place, deques are first in first out |
| ThreadTheorems.JobsAccounted | include/dsk/simple_thread_pool.hpp:175-222 | in every run a job is on its way, once in exactly one deque, or has been run exactly once |
| ThreadTheorems.RunAdvances | include/dsk/simple_thread_pool.hpp:175-222 | a job never goes back, and is finished by the worker that took it |
| ThreadTheorems.DequesAreFifo | include/dsk/simple_thread_pool.hpp:44-103 | what was pushed on a deque is what was taken from it, in that order, followed by what it holds |
| ThreadTheorems.WorkingDecreases | include/dsk/simple_thread_pool.hpp:175-222 | every step of a worker or poster uses up some of a bound |
| ThreadTheorems.Settles | include/dsk/simple_thread_pool.hpp:175-222 | without new posts the pool comes to rest within that bound, however steps interleave and try-locks fail |
| ThreadTheorems.RestIs | include/dsk/simple_thread_pool.hpp:175-222 | at rest every worker has left or sleeps over an empty deque, and no job is in hand |
| ThreadTheorems.AllRun | include/dsk/simple_thread_pool.hpp:175-222 | without a stop the pool does not come to rest before every job has been run |
| ThreadTheorems.JoinReturns | include/dsk/simple_thread_pool.hpp:225-253 | once all were told to stop, at rest every worker has left, and the jobs dropped are those still queued |
| ThreadTheorems.SleepsIff | include/dsk/simple_thread_pool.hpp:56-110 | in every run a worker sleeps iff it once found its own deque empty and since then no job came into its own deque and it was neither told to stop nor woken spuriously |
| ThreadTheorems.OwnerAwake | include/dsk/simple_thread_pool.hpp:76-103 | in every run the owner of the deque in which a job waits is awake, although pushes notify only an empty deque, and has left only if it was told to stop |
| ThreadTheorems.SleepsBesideWaitingJob | include/dsk/simple_thread_pool.hpp:175-222 | a run of two workers and three posts that leaves a job behind a busy worker while the other one sleeps |
| CleanupObjects.GroupStack.constructor | include/dsk/async_op_group.hpp:278-303 | a stack of groups of which nothing has run |
| CleanupObjects.GroupStack.PopUntilNonEmpty | include/dsk/async_op_group.hpp:307-313 | pops exactly the empty groups on top |
| CleanupObjects.GroupStack.Begin | include/dsk/async_op_group.hpp:371-388 | is pending iff some group has an op, and starts with the topmost of those |
| CleanupObjects.GroupStack.StartNext | include/dsk/async_op_group.hpp:235-241 | the start loop starts the ops of the group in order |
| CleanupObjects.GroupStack.ReportDone | include/dsk/async_op_group.hpp:192-199 | a failed op leaves its error with the group |
| CleanupObjects.GroupStack.SignalDone | include/dsk/async_op_group.hpp:201-205 | the last op to count, and only it, finishes the group |
| CleanupObjects.GroupStack.GroupFinished | include/dsk/async_op_group.hpp:390-410 | merges the error, pops the group and empty ones below, then goes on or fires |
| Cleanup.LastSignal | include/dsk/async_op_group.hpp:201-205 | the op that finds the counter at the size finds every op of its group started and counted |
| Cleanup.GroupDoneKeeps | include/dsk/async_op_group.hpp:390-410 | going on to the next group keeps what is known of started ops and of failures |
| Cleanup.RunKeeps | include/dsk/async_op_group.hpp:185-257 | every step keeps the invariant and brings the stack one step nearer its end |
| CleanupTheorems.EveryOpOnce | include/dsk/async_op_group.hpp:238-241 | the promised start order names every op of every group exactly once, the top group first and the ops of each in order |
| CleanupTheorems.CleanupRun | include/dsk/async_op_group.hpp:362-415 | for any stack, completion order and interleaving, ops start in that order, the continuation fires once, exactly when all have finished, and the error is set iff some op failed |
| CleanupTheorems.InnermostFirst | include/dsk/async_op_group.hpp:390-410 | once an op of a group has started, every op of the groups above has finished |
| CleanupTheorems.NotPoppedWhileStarting | include/dsk/async_op_group.hpp:235-241 | no group is popped while its start loop still has ops to start |
| CleanupTheorems.NeverStuck | include/dsk/async_op_group.hpp:362-415 | an unfinished stack always has a step to take |
| CleanupObjects.Coroutine.End | include/dsk/task.hpp:496-552 | throw, return and failed try alike set the result first and then begin cleanup |
| CleanupObjects.Coroutine.OpSignals | include/dsk/task.hpp:335-347 | the last cleanup op of all ends the coroutine |
| CleanupObjects.Coroutine.Finish | include/dsk/task.hpp:354-363 | a cleanup error replaces the result, the frame is destroyed, and the continuation is resumed |
| CleanupTheorems.CoroFollows | include/dsk/task.hpp:333-364 | while the stack runs nothing of the result is decided; when it fires everything is, once |
| CleanupTheorems.CoroutineExit | include/dsk/task.hpp:333-370 | every exit resumes the continuation exactly once, after all cleanup ops of all scopes and without the frame; the result is the original one unless some cleanup op failed |
| Until.UntilIfOp.ChildDone | include/dsk/until.hpp:248-267 | a child's callback is its three atomic steps |
| Until.UntilIfOp.SoleChildDone | include/dsk/until.hpp:207-238 | a single op decides the verdict alone |
| Until.UntilIfOp.TakeResult | include/dsk/until.hpp:297-359 | the error, or the value of the child that `_firstIdx` names with its index, or every child's value in order; the assertions on `_firstIdx` hold |
| Until.StepKeeps | include/dsk/until.hpp:198-283 | every step keeps: the counter counts the unfinished children, and stop state, pending write and `_firstIdx` name the same first child |
| UntilTheorems.FiresOnceAfterAll | include/dsk/until.hpp:198-283 | for one or more children finishing in any order, also inside the start loop, the continuation fires exactly once, exactly when all were started and have finished |
| UntilTheorems.WrittenOnce | include/dsk/until.hpp:250-256 | `_firstIdx` is written at most once |
| UntilTheorems.FirstIdxMeaning | include/dsk/until.hpp:250-279 | it names the first child that met the condition, and is unset at the end iff none did or the parent's stop came first |
| UntilTheorems.VerdictWithoutParentStop | include/dsk/until.hpp:176-194 | without a stop from outside: `not_found` iff no child met the condition, `failed` iff some child failed |
| UntilTheorems.VerdictByFirstMover | include/dsk/until.hpp:241-267 | with stops from outside the verdict depends exactly on who moved first |
| UntilTheorems.StopIsFirstMover | include/dsk/until.hpp:241-256 | the stop request that returned true is, for the rest of the run, that of the first to move: the parent, or a child that met the condition |
| UntilTheorems.ResultIs | include/dsk/until.hpp:297-359 | `until_first_*` yields the value and index of the first child to meet the condition, `until_all_succeeded` every child's value in order, each exactly if the schedule says so |
| UntilTheorems.AllSucceededIff | include/dsk/until.hpp:176-194 | no error implies no failed child exactly if the parent did not move first or no child failed |
| UntilTheorems.AllSucceededCounterexample | include/dsk/until.hpp:241-267 | a run with two failed children and no error |
| OpGroup.AsyncOpGroup.AddAndInitiate | include/dsk/async_op_group.hpp:65-106 | the op is listed before it is initiated |
| OpGroup.AsyncOpGroup.Complete | include/dsk/async_op_group.hpp:76-99 | only the op that empties the list of a group that is waited for calls the continuation |
| OpGroup.AsyncOpGroup.UntilAllDone | include/dsk/async_op_group.hpp:114-135 | waits iff an op is listed |
| OpGroup.StepKeeps | include/dsk/async_op_group.hpp:65-139 | the list holds exactly the unfinished ops, newest first, the error tells whether one failed, and the continuation has fired iff the wait is over |
| OpGroup.FiresOnceAfterAll | include/dsk/async_op_group.hpp:65-139 | in every run at most one wait waits, its continuation fires exactly once, when the last op is erased, and the error is set iff some op failed, also before the wait |
| OpGroup.AlreadyDoneIff | include/dsk/async_op_group.hpp:119-125 | a wait returns at once iff every op is done, and then changes nothing |
| TimedOp.TimedAsyncOp.Initiate | include/dsk/asio/timer.hpp:112-121 | with a stop requested nothing is started |
| TimedOp.TimedAsyncOp.OnTimer | include/dsk/asio/timer.hpp:134-153 | the timer's callback is its atomic steps: error before exchange, then stop the op, or clear the error and resume |
| TimedOp.TimedAsyncOp.OnOp | include/dsk/asio/timer.hpp:155-166 | the op's callback, likewise |
| TimedOp.TimedAsyncOp.OnParentStop | include/dsk/asio/timer.hpp:125-129 | cancels the wait if there is one, and asks the op to stop |
| TimedOp.ResumedBySecond | include/dsk/asio/timer.hpp:134-166 | in every interleaving only the second finisher calls the continuation, at most once |
| TimedOp.TimeoutIff | include/dsk/asio/timer.hpp:136-152 | the outcome is a timeout iff the timer expired without error and won the exchange |
| TimedOp.ReadIsFinal | include/dsk/asio/timer.hpp:148-152 | the error is not written any more once the continuation was called |
| TimedOp.LoserAsked | include/dsk/asio/timer.hpp:123-160 | the op is asked to stop iff the parent was or the timer expired first; the timer is cancelled iff the stop of the parent found it waited on already or the op finished first |
| TimedOp.StopMissesTimer | include/dsk/asio/timer.hpp:123-134 | a run in which the timer goes on after the parent's stop |
| TimedOp.AlwaysResumed | include/dsk/asio/timer.hpp:112-169 | every run is finite, and one that cannot go on has called the continuation |
| PqArray.LoadAfterStore | include/dsk/pq/data_types.hpp:176-180 | big-endian store and load of a signed integer of any width are inverse on its values |
| PqArray.StoreAfterLoad | include/dsk/pq/data_types.hpp:516-522 | and on its bytes |
| PqArray.PutHeader | include/dsk/pq/data_types.hpp:157-163 | the five header fields, in order |
| PqArray.PutElm | include/dsk/pq/data_types.hpp:165-171 | one element with its size, leaving everything before it |
| PqArray.Write | include/dsk/pq/data_types.hpp:139-174 | the buffer is sized first and then filled exactly with header and elements; each header field is stated by the bytes it stands in |
| PqArray.WireHeader | include/dsk/pq/data_types.hpp:157-163 | of every array written: one dimension, no null flag, the element oid, the count, and 1 as the first index, each read from its own four bytes |
| PqWire.BigEndian | include/dsk/pq/data_types.hpp:176-180 | a loaded value is the sum of each byte by its place, the most significant one first, less 256 to their number if the first is 128 or more |
| PqWire.WireElm | include/dsk/pq/data_types.hpp:165-171 | of every array written: element k stands behind four bytes with its size, after the header and the elements before it |
| PqWire.WireSize | include/dsk/pq/data_types.hpp:139-154 | and nothing follows the last one |
| PqArray.ReadElms | include/dsk/pq/data_types.hpp:589-653 | the pointer never leaves the buffer; sizes, elements and the end are checked in the source's order |
| PqArray.Read | include/dsk/pq/data_types.hpp:554-654 | on arbitrary bytes: type, length, header and fixed size are checked first, with the source's errors |
| PqArray.RoundTripIff | include/dsk/pq/data_types.hpp:139-174 | what was written reads back exactly when the last element is not empty, else `size_mismatch` |
| PqArray.SuccessMeansTiled | include/dsk/pq/data_types.hpp:554-654 | reading arbitrary bytes succeeds only if a valid header is followed by exactly the announced number of elements that tile the rest |
| PqWire.TiledMeansSuccess | include/dsk/pq/data_types.hpp:554-654 | and it does succeed on every such message, whatever its null flag and first index, iff the last element is not empty and a fixed size is met |
| PqWire.FirstFaultDecides | include/dsk/pq/data_types.hpp:589-653 | behind any number of good elements the first bad one decides the error: too short, a wrong size, or what the element's own reader says; bytes left over are `size_mismatch` |
| PqWire.HeaderFaults | include/dsk/pq/data_types.hpp:554-587 | what a message is turned down for by type, length, header and fixed size, in this order |
| PqWire.ReadsIntIff | include/dsk/pq/data_types.hpp:507-531 | on arbitrary bytes an integer is read iff they are as many as the oid says, are its big-endian form, and the target can hold it; else the error is told |
| PqWire.WidthIsLeast | include/dsk/pq/data_types.hpp:279-288 | each integer type is sent in the fewest of two, four and eight bytes that hold all its values |
| PqArray.TextArrayRoundTripIff | include/dsk/pq/data_types.hpp:538-547 | arrays of strings survive iff empty or with a non-empty last string |
| PqArray.OneEmptyString | include/dsk/pq/data_types.hpp:589-599 | one empty string does not survive |
| PqArray.IntArrayRoundTrip | include/dsk/pq/data_types.hpp:315-333 | integer arrays of every element type survive for all values |
| JserReader.WriteVal | include/dsk/jser/write.hpp:17-67 | writing a value follows its schema |
| JserReader.WriteArr | include/dsk/jser/write.hpp:144-158 | the element loop writes one tree for each element, in order |
| JserReader.WriteJFlds | include/dsk/jser/write.hpp:71-138 | empty optionals and variants are left out, nested objects are merged in, and the count is as reported |
| JserReader.ReadVal | include/dsk/jser/read.hpp:21-78 | reading a value follows its schema, with the reader's errors |
| JserReader.ReadArrOf | include/dsk/jser/read.hpp:199-221 | elements in order until one fails |
| JserReader.ReadTuple | include/dsk/jser/read.hpp:358-400 | parts in order; too few elements are an error, too many only if exact |
| JserFinder.LoopIter.NextField | include/dsk/jser/json/simdjson.hpp:421-450 | the next field of the loop: ahead of the last one, and round from the first one as far as fields were counted |
| JserFinder.LoopIter.SkipRemains | include/dsk/jser/json/simdjson.hpp:453-467 | goes to the end without counting |
| JserFinder.MeetsExactly | include/dsk/jser/json/simdjson.hpp:399-450 | a loop meets exactly the fields ahead and, from the first one on, as many as the count wants |
| JserFinder.MeetsInOrder | include/dsk/jser/json/simdjson.hpp:399-450 | and in this order: those ahead and then from the first one on, or round from where the finder is |
| JserFinder.WholeMeetsAll | include/dsk/jser/json/simdjson.hpp:408-450 | as long as nothing was skipped, every loop meets every field |
| JserFinder.SkippedMeets | include/dsk/jser/json/simdjson.hpp:453-467 | after `skip_remains` before the end was reached, a loop meets only the fields met so far |
| JserReader.ForeachFound | include/dsk/jser/json/simdjson.hpp:488-530 | each field the finder meets goes to the first field still waiting for its key, until none waits; the finder stays there |
| JserReader.FillMissing | include/dsk/jser/read.hpp:117-180 | what may be missing is cleared, anything else missing is an error |
| JserReader.ReadObject | include/dsk/jser/read.hpp:89-193 | found fields, then missing ones, then nested objects, then the remains are skipped, all with one finder |
| JserReader.ReadNestedObjs | include/dsk/jser/read.hpp:183-189 | nested objects are read in turn, each from where the one before left the finder |
| JserObjects.ReadObjIff | include/dsk/jser/read.hpp:89-193 | an object is read to given parts iff each part on its own reads so, from the first field of its key that the loop meets, or from none, and nested objects from where the finder is by then |
| JserObjects.ReadsTo | include/dsk/jser/read.hpp:89-193 | where a successful read leaves the finder depends on the keys alone |
| JserAdmits.MeansIff | include/dsk/jser/read.hpp:21-193 | for every schema and every tree, written or not: the reader returns a value iff the tree stands for it, which is said by kinds, alternatives, lengths, keys and what a missing part becomes |
| JserAdmits.ObjMeans | include/dsk/jser/read.hpp:89-193 | the same for objects, from wherever the finder is |
| JserAdmits.PlainObjMeans | include/dsk/jser/read.hpp:89-180 | without nested objects the first field of each key in the document counts |
| JserAdmits.AdmitsIff | include/dsk/jser/read.hpp:21-193 | for every schema and every tree: the reader succeeds iff the tree has the kinds, lengths, alternatives and fields the schema asks for |
| JserAdmits.ReadConforms | include/dsk/jser/read.hpp:21-193 | whatever is accepted becomes a value of the schema |
| JserAdmits.WriteAfterRead | include/dsk/jser/dsl.hpp:333-373 | in schemas that ignore nothing of a tree, writing what was read from any tree gives that tree back |
| JserAdmits.FailsWith | include/dsk/jser/read.hpp:21-193 | for every schema and every tree that is turned down: the error is that of the first thing that is wrong, fields met before fields missing before nested objects |
| JserRoundTrip.OrderIrrelevant | include/dsk/jser/read.hpp:106-115 | with at most one nested object in each object, and known keys that stand at most once, field order and unknown fields make no difference to what is read |
| JserRoundTrip.OnlyKnownKeys | include/dsk/jser/write.hpp:71-138 | only keys of the schema are written |
| JserRoundTrip.FoundWhereWritten | include/dsk/jser/dsl.hpp:77-93 | with unique flattened keys a field is found where its part was written, nested or not |
| JserRoundTrip.WrittenIffNotEmpty | include/dsk/jser/write.hpp:71-138 | a field is written iff its part is not an empty optional or variant, and then with the tree of that part |
| JserRoundTrip.RoundTripIff | include/dsk/jser/dsl.hpp:333-373 | for every schema and value, reading what was written restores the value iff no engaged optional holds something written as `null` and the finder meets every field that is needed |
| JserRoundTrip.LinearRoundTripIff | include/dsk/jser/dsl.hpp:68-126 | for every schema with at most one nested object in each object, the first condition alone decides |
| JserRoundTrip.ObjRoundTrip | include/dsk/jser/dsl.hpp:68-126 | the same for objects, from any document that says about each known key once what was written, and from wherever the finder is |
| JserNested.SecondMeets | include/dsk/jser/read.hpp:183-191 | the loop of a second nested object meets exactly as many fields, from the first one on, as were met before |
| JserNested.TwinRoundTripIff | include/dsk/jser/read.hpp:183-191 | with two nested objects a value is restored iff no `null` hides anything and every field of the second stands among those, or is what a missing one becomes |
| JserNested.SecondNotFound | include/dsk/jser/read.hpp:183-191 | three fields, two of them in nested objects: whatever their values, reading fails if the last one is required |
| JserNested.SecondLost | include/dsk/jser/read.hpp:183-191 | and if it is optional, its value is lost without an error |
| JserRoundTrip.HiddenNull | include/dsk/jser/dsl.hpp:333-367 | an engaged optional of an empty optional reads back as empty |
| JserRoundTrip.MissingRange | include/dsk/jser/read.hpp:117-178 | a missing range is cleared as a plain member, and an error through `jarr_of` |
| JserRoundTrip.CountIff | include/dsk/jser/write.hpp:81-129 | the reported number of fields is never too small, and exact iff no empty part goes through `joptional` or `jvariant_t` |
| JserRoundTrip.CountTooLarge | include/dsk/jser/write.hpp:81-85 | one empty `joptional`: one field reported, none written |
| ContentType.HttpContentType.ParseFields | include/dsk/http/content_type.hpp:35-43 | all values in order |
| ContentTypeTheorems.FieldsInTurn | include/dsk/http/content_type.hpp:35-43 | each value is parsed on top of what the ones before left |
| ContentType.HttpContentType.Parse | include/dsk/http/content_type.hpp:46-75 | the type is taken if acceptable, and only then the parameters |
| ContentType.HttpContentType.ParseParams | include/dsk/http/content_type.hpp:77-183 | the loop ends: it stands on a semicolon at every turn, further on each time; charset and boundary are taken in order |
| ContentTypeTheorems.ReadsItem | include/dsk/http/content_type.hpp:79-181 | one turn: of a printed parameter the name is read back, and its value iff it is a token or a quoted-string without a quote and without blanks at its ends, with or without blanks around it; then the turn ends at the next semicolon |
| ContentTypeTheorems.SkipsItem | include/dsk/http/content_type.hpp:82-118 | what has no value, be it empty, a bare name, or a name and an equals sign with blanks, is skipped, and the turn ends at the next semicolon |
| ContentTypeTheorems.ParsesAt | include/dsk/http/content_type.hpp:46-75 | behind blanks the type is taken up to the first blank, semicolon or parenthesis iff it is acceptable, and only then are the parameters heard |
| ContentTypeTheorems.AcceptableIff | include/dsk/http/content_type.hpp:60-61 | a type needs a slash with something on either side of the first one, and must not be two stars |
| ContentType.Value | include/dsk/http/content_type.hpp:120-168 | plain and quoted values |
| ContentType.CopyUnescaped | include/dsk/http/content_type.hpp:155-165 | the unescaping loop takes the whole text: its test for a quote never stops it |
| ContentTypeTheorems.UnescapesPairs | include/dsk/http/content_type.hpp:155-165 | every quoted-pair (section 5.6.4 of RFC 9110), of whatever character, becomes that character |
| ContentTypeTheorems.ReadsUnclosed | include/dsk/http/content_type.hpp:135-168 | a quoted-string that is not closed is read to the end of the text |
| ContentTypeTheorems.ReadsTrimmed | include/dsk/http/content_type.hpp:135-168 | a quoted value without a quote loses the blanks around it and nothing else |
| ContentTypeTheorems.ReadsCutShort | include/dsk/http/content_type.hpp:142-167 | one with a quote is cut there, the backslash before the quote is kept, and the next semicolon is looked for from the quote on |
| ContentTypeTheorems.GoesOnInsideIff | include/dsk/http/content_type.hpp:167 | parsing goes on inside the quoted text iff a semicolon follows the quote there |
| ContentTypeTheorems.ReadsInside | include/dsk/http/content_type.hpp:142-181 | any parameter printed behind a quote in a quoted value is read as a parameter of its own |
| ContentTypeTheorems.FirstSetsCharset | include/dsk/http/content_type.hpp:142-181 | in every printed value that starts with such a parameter, what stands in its quoted text sets the charset |
| ContentTypeTheorems.BoundarySetsCharset | include/dsk/http/content_type.hpp:142-181 | a correctly printed boundary that does so |
| ContentTypeTheorems.QuotedRoundTripIff | include/dsk/http/content_type.hpp:135-168 | a quoted-string (section 5.6.4 of RFC 9110) comes back iff it has no quote in it and no blank at its ends |
| ContentTypeTheorems.ReadsItemsIff | include/dsk/http/content_type.hpp:77-183 | whatever is in front, the parameters that have a value are read back one by one iff every quoted value among them survives; those without one make no difference |
| ContentTypeTheorems.FirstWins | include/dsk/http/content_type.hpp:171-179 | the first charset and boundary that have a value count, in whatever case their names are written |
| ContentTypeTheorems.RoundTripIff | include/dsk/http/content_type.hpp:46-184 | parsing a printed `type/subtype *( OWS ";" OWS [ parameter ] )` (sections 8.3.1 and 5.6.6 of RFC 9110), with empty parameters, bare names and blanks anywhere they may stand, gives the lower-cased type and the first charset and boundary heard, which are those that were meant iff every quoted value survives |

## Left out

- Stop callbacks that run inside the critical section which installs them: stop requests arrive before the check or
  after the waiter is queued.
- QueueRuns.StepKeeps: `clear` is a step of a run only while no live enqueuer waits, since the items are dropped without
  serving any; the entries of cancelled ones do not appear in runs (see `ResQueue.Clear`).
- `reserve` and `reserve_by`, which set the capacity as `set_capacity` does; `res_pool` of `void`, creators that add any
  number of resources but one, and `res_pool_map`, which is one pool for each key.
- Rates derived from the queue's counters, and counter overflow.
- Stop requests on the async context of a cleanup stack, which the coroutine's own stack does not have; generators,
  whose results are taken out between steps.
- `seq_until_if_op` and the `until_all_done_op` of `until.hpp`, whose counting is that of `until_if_op` without a winner;
  the early `canceled` of `until_if_op` when a stop was requested before it is initiated.
- `naive_thread_pool_t`, and starting a pool again after `join`.
- PqArray.ReadElms: floats are a parameter; booleans, characters and ranges of fixed-size elements of mixed width are not
  instantiated.
- JserReader.ReadVal: numbers are unbounded integers, and no range check is modelled; `jconv`, `jcheck`, `jexam`,
  `jmap_obj`, `jref`, `jnested_variant`, packed arrays and partial tuples are not part of the model, and a target that is
  left half filled by an error is not described.
- JserFinder.LoopIter.NextField: errors of the JSON parser itself, and the assertion that stops a debug build when a
  second loop starts over a document without fields.
- The finder of the msgpack backend, which after a nested object or a wrap is not where the JSON one is.
- Byte-level JSON and msgpack, escaping, and the asio, curl, grpc, mysql, redis, ICU and compression wrappers.
- Lifetimes, moves, allocation and memory order of C++.
