# potato thread pool, modelled in Dafny

This project models the core of the potato C library's thread pool
(`lib/threadPool.c` with the state declared in `lib/_threadPool.h` and
`lib/threadPool.h`). It also models two small pieces of arithmetic:
- the wait deadline and the try-lock code mapping in `lib/_pthreadWrap.h`;
- the hex string writer of `lib/randSequence.c`.

The pool is a fixed slab of task records and a fixed slab of worker
records. Several intrusive lists are linked through them:
- a singly linked stack of unused task records;
- the general FIFO queue of tasks (`tasks.front` .. `tasks.back`);
- one private FIFO queue per tract (`firstTask` .. `lastTask`);
- a singly linked stack of unused workers (workers with no thread);
- a doubly linked list of idle workers (`idleFront` = oldest, `idleBack` = youngest).

A tract is a user-owned record that serialises its tasks. While a
worker runs a task of the tract, the tract and the worker point at each
other, and further tasks of the tract wait in its private queue.

The model has these parts:
- `PoolRecords` (pool_records.dfy): the records, with pointers as slab
  indices and NULL as `-1`. Jobs (callback and data pointers) are opaque
  ids. It also holds the shapes the links spell out.
- `PoolState` (pool_state.dfy): the pool invariant. Every task record is
  in exactly one list. The list ends agree with the ghost lists. Workers
  are unused, idle, running or signalled. Tract bindings are two-way.
  Each tract's `taskCount` equals the number of its queued tasks, in its
  private queue and in the general queue. Idle workers exist only while
  the general queue is empty.
- `TaskSteps` and `WorkerSteps`: how each critical section keeps each
  side of the invariant.
- `PoolSteps`: each critical section as a function on the pool state,
  with a lemma saying that it keeps the invariant and how it changes
  every tract's queued tasks.
- `PoolOps`: the C functions that chain the steps. These are submission
  (`_poThreadPool_runTask`), `lookForWork`, a worker back from a
  callback or woken from the idle list (`workerPthreadCallback` with
  `lastWorkerSignalCleanup`), the idle-thread timeout, the tract finish
  check and the start of teardown. Each has its specification lemmas.
- `ThreadPool` (thread_pool.dfy): `class Pool`. Its fields are the
  arrays and list heads of `struct POThreadPool`. Its methods update them
  in place and are proved equal to the `PoolSteps`/`PoolOps` functions.
  The tail calls of `lookForWork` and the idle-drain loop of destroy are
  `while` loops.
- `PthreadWrap` and `RandSequence`.

Threads are replaced by explicit events. Each event is one method call
made under the pool mutex:
- `RunTask`: a submission;
- `FinishCallback`: a worker returns from a callback;
- `Wake`: a signalled worker wakes up;
- `CheckIdleThreadTimeout`, `CheckTractFinish`, `BeginDestroy`.

The clock is a parameter. All times are integer milliseconds.

## Model

| member | source | states |
|---|---|---|
| ThreadPool.Pool.constructor | lib/threadPool.c:19-77 | every task record is on the unused task stack, which links them in slab order 0..n-1, and every worker is on the unused worker stack in slab order; the general queue and the idle list are empty; numThreads is 0; every tract is zeroed |
| ThreadPool.LinkTasks | lib/threadPool.c:43-52 | the set-up loop links task i to i+1 and the last to NULL, so the slab is the single chain 0..n-1; jobs and tracts are untouched |
| ThreadPool.LinkWorkers | lib/threadPool.c:58-73 | the same loop over the workers makes the stack 0..m-1 and changes no other field |
| TaskSteps.TractQueueTask | lib/threadPool.c:342-374 | the task gets a NULL next and becomes its tract's lastTask; the tract keeps its worker and count; no other tract or task job/tract changes |
| TaskSteps.TractQueueTaskAppends | lib/threadPool.c:360-373 | after tractQueueTask the private queues are the old ones with the task appended to its own tract's queue |
| ThreadPool.Pool.TractQueueTask | lib/threadPool.c:342-374 | the in-place relinking leaves the task and tract arrays equal to TaskSteps.TractQueueTask of the old ones |
| ThreadPool.Pool.SpareToGeneral | lib/threadPool.c:907-949 | case 4 of runTask in place: the state after is PoolSteps.SpareToGeneral of the state before, and the slot used is the old top of the unused task stack |
| PoolSteps.SpareToGeneralKeeps | lib/threadPool.c:907-949 | queueing in the general queue keeps the invariant; the record holds the job, NULL next and the tract and goes to the back of the general queue; the task is appended to its tract's queued tasks and no other tract's tasks change |
| ThreadPool.Pool.SpareToTract | lib/threadPool.c:957-976 | case 5 of runTask in place equals PoolSteps.SpareToTract, using the old top of the unused stack |
| PoolSteps.SpareToTractKeeps | lib/threadPool.c:957-976 | queueing in a held tract's private queue keeps the invariant and appends the task to that tract's queued tasks only |
| ThreadPool.Pool.GeneralToTract | lib/threadPool.c:467-479 | moving the general queue's front to its tract's private queue in place equals PoolSteps.GeneralToTract |
| PoolSteps.GeneralToTractKeeps | lib/threadPool.c:467-479 | that move keeps the invariant, shortens the general queue by its front, touches no worker and changes no tract's queued tasks, so per-tract order is kept |
| PoolOps.GeneralToTractTasks | lib/threadPool.c:342-374 | the move changes no task's job or tract and no other tract's record, and keeps the held tract's worker |
| ThreadPool.Pool.TractToSpare | lib/threadPool.c:410-441 | step 2 of lookForWork in place equals PoolSteps.TractToSpare and returns the tract's old firstTask |
| PoolSteps.TractToSpareKeeps | lib/threadPool.c:410-441 | taking a tract's first task keeps the invariant, puts the record on top of the unused stack with its job kept, and removes exactly that task from the front of the tract's queued tasks |
| ThreadPool.Pool.GeneralTake | lib/threadPool.c:444-517 | taking a tract-less front of the general queue in place equals PoolSteps.GeneralTake and returns the old front |
| PoolSteps.GeneralTakeKeeps | lib/threadPool.c:444-517 | that keeps the invariant, recycles the record on top of the unused stack with its job, and leaves every tract's queued tasks as they were |
| ThreadPool.Pool.GeneralBind | lib/threadPool.c:481-516 | binding the worker to the front task's free tract in place equals PoolSteps.GeneralBind and returns the old front |
| PoolSteps.GeneralBindKeeps | lib/threadPool.c:481-509 | binding keeps the invariant, binds both ways and frees the worker's old tract, which had nothing queued |
| PoolSteps.GeneralBindQueued | lib/threadPool.c:481-509 | the bound task was the first queued task of its tract and no other tract's queued tasks change |
| ThreadPool.Pool.Unbind | lib/threadPool.c:523-540 | letting go of the tract in place equals PoolSteps.Unbind |
| PoolSteps.UnbindKeeps | lib/threadPool.c:523-540 | unbinding a worker whose tract has an empty queue keeps the invariant and leaves the worker holding no tract |
| ThreadPool.Pool.IdleYoungPop | lib/threadPool.c:270-330 | popping the back of the idle list, handing it the job and binding the tract in place equals PoolSteps.IdleYoungPop; returns the old idleBack |
| PoolSteps.IdleYoungPopKeeps | lib/threadPool.c:270-330 | the pop keeps the invariant; the idle list loses its last (youngest) worker, which is signalled with the job and the tract; no queued task changes |
| ThreadPool.Pool.IdleOldPop | lib/threadPool.c:99-130 | popping the front of the idle list in place equals PoolSteps.IdleOldPop; returns the old idleFront |
| PoolSteps.IdleOldPopKeeps | lib/threadPool.c:99-130 | the pop keeps the invariant; the idle list loses its first (oldest) worker, which becomes signalled; no other worker outside the idle list changes |
| ThreadPool.Pool.UnusedPop | lib/threadPool.c:785-821 | popping the unused worker stack, binding the tract and the new thread's start-up in place equal PoolSteps.UnusedPop; returns the old top |
| PoolSteps.UnusedPopKeeps | lib/threadPool.c:785-821 | that keeps the invariant; the worker runs bound to the tract; numThreads grows by one and stays at most maxNumThreads; no queued task changes |
| ThreadPool.Pool.IdlePush | lib/threadPool.c:667-687 | parking a worker in place equals PoolSteps.IdlePush |
| PoolSteps.IdlePushKeeps | lib/threadPool.c:662-687 | parking a running worker with no tract while the general queue is empty keeps the invariant, appends it as the youngest idle worker and records the time |
| ThreadPool.Pool.UnusedPush | lib/threadPool.c:714-721 | the thread exit in place equals PoolSteps.UnusedPush |
| PoolSteps.UnusedPushKeeps | lib/threadPool.c:714-721 | the exit keeps the invariant, pushes the worker on the unused stack and lowers numThreads by one |
| PoolSteps.ThreadsRunning | lib/_threadPool.h:184-185 | a worker that is not unused has a thread, so numThreads > 0 |
| ThreadPool.Pool.Resume | lib/threadPool.c:611-614 | the loop top clearing the handed-over job in place equals PoolSteps.Resume |
| PoolSteps.ResumeKeeps | lib/threadPool.c:611-617 | a signalled worker that takes its job over becomes running and the invariant holds |
| ThreadPool.Pool.TractHasRunningWorker | lib/threadPool.c:243-257 | true iff the tract is not NULL and has a worker; that worker is a worker of the pool and holds the tract back |
| ThreadPool.Pool.CheckIdleThreadTimeout | lib/threadPool.c:210-236 | the idle-thread check in place equals PoolOps.CheckIdle and keeps the invariant |
| PoolOps.CheckIdleSpec | lib/threadPool.c:210-236 | nothing changes and false with at most one thread; otherwise the oldest idle worker is signalled iff it has been idle longer than maxIdleTime; the answer is true iff at least two idle workers remain and the oldest of them has also been idle too long |
| PoolOps.CheckIdleKeeps | lib/threadPool.c:210-227 | the idle-thread check keeps the invariant and touches only the idle list and the worker it signals |
| PoolOps.IdleEnds | lib/_threadPool.h:151-158 | idleFront is the oldest idle worker and idleBack the youngest; they coincide exactly when one worker is idle |
| ThreadPool.WorkerLinks | lib/threadPool.c:280-290 | the idle list's ends do not link to themselves, the youngest idle worker holds no tract, the unused top holds no tract, and a running worker is not idleBack |
| ThreadPool.Pool.RunTask | lib/threadPool.c:828-983 | one submission in place equals PoolOps.RunTask and keeps the invariant |
| PoolOps.RunTaskChoice | lib/threadPool.c:836-913 | the choice of case: an idle worker iff one is idle and no worker holds the tract; else a new thread iff a worker is unused; else with no task record the call fails (without waitIfFull, nothing changes) or waits (taskWaitingToBeRun set); the private queue is used iff a worker holds the tract and the general queue is empty |
| PoolOps.RunTaskQueued | lib/threadPool.c:907-976 | a queued submission consumes the top unused task record, which holds the job with NULL next, and appends it to its tract's queued tasks only; case 4 appends it to the back of the general queue, and every other outcome leaves the general queue as it was, so tasks with or without a tract are taken from it first in, first out; other outcomes leave every queued task and the unused stack alone |
| PoolOps.RunTaskWorker | lib/threadPool.c:847-867 | a submission handed to a worker binds it to the tract both ways: the youngest idle worker is signalled holding the job; or the top unused worker runs with numThreads one higher, and the job is the first callback of its new thread |
| PoolOps.RunTaskToIdle | lib/threadPool.c:847-857 | case 1 (with the idle check it runs) hands the job and the tract to the old idleBack and signals it |
| PoolOps.RunTaskToNew | lib/threadPool.c:861-867 | case 2 binds the old top of the unused worker stack, which runs, and counts one more thread |
| PoolOps.RunTaskKeeps | lib/threadPool.c:828-983 | every submission keeps the invariant and the sizes of the slabs and tract table |
| PoolOps.CrossFacts | lib/threadPool.c:847-854 | whenever a worker is idle the general queue is empty, and the general queue holds tasks only once every worker has a thread |
| ThreadPool.Pool.LookForWork | lib/threadPool.c:382-544 | the search, its tail call a loop, equals PoolOps.LookForWork and keeps the invariant |
| PoolOps.LookForWorkKeeps | lib/threadPool.c:382-544 | lookForWork keeps the invariant and the worker's state and job |
| PoolOps.LookForWorkKeepsMoved | lib/threadPool.c:467-479 | the same after the front task is moved to a held tract's queue and the search repeats |
| PoolOps.LookForWorkFrame | lib/threadPool.c:382-544 | lookForWork leaves the worker lists, numThreads and the flags as they were |
| PoolOps.LookForWorkResult | lib/threadPool.c:400-543 | the handed-over job comes first and then nothing changes; a dequeued task's record goes on top of the unused stack and its job is returned; with no work the general queue is empty and the worker holds no tract |
| PoolOps.LookForWorkOwnQueue | lib/threadPool.c:405-441 | with no job handed over and tasks in its own tract's private queue, the worker takes that queue's first task before looking at the general queue: the general queue is unchanged, the private queue loses its front, the record goes on top of the unused stack, and the worker stays bound to its tract both ways |
| PoolOps.LookForWorkQueued | lib/threadPool.c:410-509 | each tract's queued tasks after are those before less the one taken, which was that tract's first |
| PoolOps.LookForWorkQueuedMoved | lib/threadPool.c:467-479 | the same when the front task is moved into a held tract's queue first |
| PoolOps.LookForWorkTakes | lib/threadPool.c:444-517 | with no job and an empty own queue, the worker takes the first general-queue task whose tract no other worker holds; the tasks before it leave the general queue; with no such task there is no work and the queue ends empty |
| PoolOps.LookForWorkTakesHeld | lib/threadPool.c:467-479 | the same when the front task is held up by another worker's tract |
| PoolOps.OwnTractFront | lib/threadPool.c:467-479 | a front task of the worker's own tract is moved to its queue and taken at once |
| PoolOps.HeldFront | lib/threadPool.c:467-479 | a held-up front task is moved away and the search is that over the rest of the queue |
| PoolOps.HeldTractRef | lib/threadPool.c:644-645 | a worker's tract is NULL or a tract that points back at it, and no other tract points at it |
| PoolOps.RunningHasNoJob | lib/threadPool.c:611-614 | a running worker has no job waiting in its record |
| ThreadPool.Pool.FinishCallback | lib/threadPool.c:641-687 | the end of a callback in place equals PoolOps.FinishCallback and keeps the invariant |
| PoolOps.FinishCallbackSpec | lib/threadPool.c:641-721 | a waiting owner is released; the worker runs the task lookForWork took, or with no work parks as the youngest idle worker with the time noted, or during teardown exits onto the unused stack; the owner is signalled iff numThreads drops to 0 |
| PoolOps.FinishCallbackQueued | lib/threadPool.c:656-657 | the queued tasks change only by the one the worker takes |
| ThreadPool.Pool.Wake | lib/threadPool.c:699-721 | a return from the idle wait in place equals PoolOps.WakeChecked and keeps the invariant: a worker still linked in the idle list waits again, a signalled one wakes as in PoolOps.Wake |
| PoolOps.WakeSpec | lib/threadPool.c:704-721 | the woken worker runs the job it was handed, or a task it takes; with none its thread always exits, never waiting again, onto the unused stack and the owner is signalled iff cleanup is set and no thread remains |
| PoolOps.WakeQueued | lib/threadPool.c:704-705 | the queued tasks change only by the one the woken worker takes |
| PoolOps.SpuriousWakeExits | lib/threadPool.c:699-721 | as written, the only idle worker returning from the wait without a signal holds no job or tract and finds an empty general queue, then exits: it tops the unused stack while still the idle list's front and back, and numThreads drops by one |
| PoolOps.StillIdle | lib/threadPool.c:672-687 | a worker back from the idle wait is still on the idle list iff its `prev` is not NULL or it is idleBack, so the C fields can tell a spurious return from a signal |
| PoolOps.WakeCheckedKeeps | lib/threadPool.c:695-721 | with the wait re-checked every return keeps the invariant; an unsignalled worker stays idle and no thread is lost; an exiting thread is on the unused stack and at neither end of the idle list |
| ThreadPool.Pool.CheckTractFinish | lib/threadPool.c:1033-1062 | the tract check in place equals PoolOps.CheckTractFinish and keeps the invariant |
| PoolOps.CheckTractFinishSpec | lib/threadPool.h:92-96 | the answer is true iff the tract has no queued task and no worker; resetting such a tract changes nothing, and otherwise nothing changes either |
| WorkerSteps.TractFinishFresh | lib/threadPool.h:22-23 | taskCount is 0 iff the tract has no queued tasks; a tract with count 0 and no worker is exactly a zeroed tract |
| WorkerSteps.BoundWorkerWorks | lib/threadPool.h:16 | a tract's worker is a pool worker that holds the tract back and is running or signalled, never idle or unused |
| ThreadPool.Pool.BeginDestroy | lib/threadPool.c:138-164 | the start of teardown in place equals PoolOps.BeginDestroy and keeps the invariant |
| PoolOps.DrainIdleKeeps | lib/threadPool.c:147-155 | popping the oldest idle worker until none is left signals exactly the idle workers and leaves the queues and numThreads alone |
| PoolOps.BeginDestroySpec | lib/threadPool.c:138-164 | after teardown starts the idle list is empty and every formerly idle worker is signalled; cleanup is set and the owner waits iff threads remain |
| WorkerSteps.TaskSlotsConserved | lib/_threadPool.h:106-108 | the unused stack, the general queue and the private queues hold maxQueueLength records between them |
| WorkerSteps.ThreadCount | lib/_threadPool.h:164-168 | maxNumThreads = unused + numThreads, and numThreads = idle + running + signalled workers |
| PoolRecords.TaskPlacesTotal | lib/_threadPool.h:42-53 | every task slot is spare, in the general queue or in one tract's queue, and the three counts add up to the slab |
| PoolRecords.WorkerStatesTotal | lib/_threadPool.h:147-149 | every worker is in exactly one of its states, and the counts add up to the slab |
| PoolState.ListEnds | lib/_threadPool.h:99-103 | each list head is NULL exactly when its list is empty and otherwise a record of its slab; the unused task top and the general front are their lists' first elements; a tract's firstTask is NULL iff its private queue is empty and is otherwise its first task; a tract with a private queue or owning the general front has taskCount > 0 |
| PoolState.Unheld | lib/_threadPool.h:75-81 | a tract no worker holds has an empty private queue |
| PoolState.LinksInRange | lib/threadPool.c:288-290 | every link is NULL or a record of its slab, which the pointer-range assertions check before a link is followed |
| PthreadWrap.MutexTryLock | lib/_pthreadWrap.h:15-29 | locked iff the code is 0; an error is reported iff the code is neither 0 nor EBUSY; never both |
| PthreadWrap.CondTimedWaitDeadline | lib/_pthreadWrap.h:115-134 | the deadline as written is exactly timeOut ms after now; for a valid timeval at most one second is carried and 0 <= tv_nsec <= 10^9, with 10^9 exactly when the sum is 10^9 |
| PthreadWrap.UnnormalisedDeadline | lib/_pthreadWrap.h:128 | with tv_usec = 1000 and timeOut = 999 the deadline as written has tv_nsec = 10^9, which is not normalised |
| PthreadWrap.CondTimedWaitDeadlineNormalised | lib/_pthreadWrap.h:122-134 | with the carry test `>=` the deadline is the same moment and always normalised, carrying at most one second |
| RandSequence.Int2Char | lib/randSequence.c:15-21 | 0-9 map to '0'-'9' and 10-15 to 'A'-'F'; the digit's value is the input |
| RandSequence.Int2CharInverse | lib/randSequence.c:15-21 | every upper-case hex digit is Int2Char of its value, so the mapping is one-to-one |
| RandSequence.NibbleIsHexDigit | lib/randSequence.c:54-60 | reading byte j/2 of the draw, low half first, yields hex digit j of its value counted from the least significant |
| RandSequence.SequenceLengthAsWritten | lib/randSequence.c:33-47 | under the guard minLen <= maxLen the length divides by zero iff minLen == maxLen, and otherwise lies in [minLen, maxLen) |
| RandSequence.EqualBoundsDivideByZero | lib/randSequence.c:33-47 | minLen = maxLen = 9 passes both guards and divides by zero |
| RandSequence.SequenceLength | lib/randSequence.c:47 | with minLen < maxLen the length lies in [minLen, maxLen) and agrees with the length as written |
| RandSequence.HexSequence | lib/randSequence.c:50-64 | the string spelled by the draws has the chosen length and only upper-case hex digits |
| RandSequence.HexSequenceDigits | lib/randSequence.c:50-64 | character 6d+j is hex digit j of draw d+1: each draw gives at most six characters, least significant digit first |
| RandSequence.RandSequenceString | lib/randSequence.c:30-68 | writes exactly len hex characters then one '\0' and nothing else in buf; stores len in *rlen iff rlen is not NULL; returns buf |

## Left out

- Threads, mutexes, condition variables and signals are not modelled.
  Each critical section is one method call. A `pthread_cond_signal` is
  a worker going to the signalled state or a `signalsOwner` flag. Thread
  scheduling and EINTR loops are out of scope. A spurious return from the
  idle wait is modelled: see Findings.
- ThreadPool.Pool.RunTask stops at the blocking branch of runTask: it
  returns `WouldWait` with `taskWaitingToBeRun` set. The wait and the
  resubmission (lib/threadPool.c:901-904) are a second `RunTask` call by
  the caller once a worker has cleared the flag in `FinishCallback`.
- ThreadPool.Pool.UnusedPop folds the new thread's start-up into the pop:
  the `++numThreads`, the job copy and `userCallback = NULL` of
  lib/threadPool.c:595-614. The model assumes what the comment at
  lib/threadPool.c:770-774 assumes: the single `condWait` of
  `launchWorkerThread` (lib/threadPool.c:775) returns only after the new
  thread's start-up signal at lib/threadPool.c:609. On that assumption the
  model keeps the start-up's effect and drops the handshake and
  `pthread_create`. A return from that wait before the start-up is not
  modelled. Such a return can be spurious, or it can come from the
  `taskWaitingToBeRun` signal at lib/threadPool.c:650, which goes to the
  same condition variable. `numThreads` would then not yet count the new
  thread, and a destroy that followed could skip its wait at
  lib/threadPool.c:157-164.
- ThreadPool.Pool.BeginDestroy stops before the owner's wait for the last
  thread. Freeing the slabs and `poThreadPool_destroy`'s locking are
  memory management and are not modelled.
- Time is an integer millisecond parameter, not the double seconds of
  `poTime_getDouble`. The idle test `now - lastWorkTime > maxIdleTime`
  matches `t - lastWorkTime > maxIdleTime/1000.0` with maxIdleTime in
  milliseconds. That is how lib/threadPool.c:226 reads it, although
  lib/threadPool.h:37 and lib/threadPool.c:22 label it micro-seconds.
  The model follows the code.
- Integer widths: `uint32_t` counts and sizes are `nat`. The counts stay
  below the slab sizes, so they cannot wrap. The model assumes slab sizes
  (`maxQueueLength`, `maxNumThreads`) of at most 2^31. The set-up loops
  that ThreadPool.LinkTasks and ThreadPool.LinkWorkers model count with
  `int i` (lib/threadPool.c:41, 50, 65). With a larger size, `++i` would
  overflow, which is undefined behaviour in C. The model does not capture
  that overflow: ThreadPool.Pool.constructor accepts any size.
- RandSequence.RandSequenceString keeps the length as a `nat`. The C code
  stores the `size_t` length in `int len` (lib/randSequence.c:44-47) and
  loops on `while(len)`. With maxLen above 2^31 that conversion can give a
  wrong or negative length. The model does not capture this narrowing; its
  contract holds for lengths that fit in an `int`.
- The debug-only fields (`queueLength`, `unusedLength`, `idleLength`,
  `lastTaskCount`, `master`) and the debug-only `cleanup = false` in
  lastWorkerSignalCleanup are not modelled; the model is the release build.
- INFO, NOTICE and DSPEW logging, `getenv`-driven spew levels and the
  assertion actions of lib/debug.c are I/O and are not modelled.
- Tracts are user memory in C. Here they are a table of tract records of
  a size fixed at construction, owned by the pool object.
- `poMurmurHash` and `nrand48` are foreign code. The draws are a
  sequence parameter of `RandSequenceString`.
- RandSequence.NibbleIsHexDigit reads a draw's bytes in little-endian
  order. The model assumes a little-endian machine, as the pointer cast
  of lib/randSequence.c:57 does on the usual targets.
- PthreadWrap.CondTimedWaitDeadline takes the clock reading as a
  parameter and does not model `pthread_cond_timedwait` or its error
  codes.
- The create argument `detach` declared at lib/threadPool.h:34-37 does
  not exist in the definition in lib/threadPool.c:19-22. The model
  follows the definition.
- Global request order across tracts is stated only through the general
  queue. RunTaskQueued says that a submission in case 4 goes to the back
  of the general queue, and LookForWorkTakes says which general-queue task
  is taken next. LookForWorkQueued and RunTaskQueued say that each tract's
  tasks run in submission order. No lemma orders a task queued privately
  against one in the general queue.

## Findings

| source | as written | input that shows it | evidently intended | confidence | as-written member | corrected member |
|---|---|---|---|---|---|---|
| lib/_pthreadWrap.h:128 | whole seconds are carried out of `tv_nsec` only when it is `> 1000000000` | `now.tv_usec = 1000`, `timeOut = 999` gives `tv_nsec = 1000000000`, which `pthread_cond_timedwait` rejects with EINVAL | carry when `tv_nsec >= 1000000000`, so that `0 <= tv_nsec < 10^9` | high; not executed | PthreadWrap.UnnormalisedDeadline | PthreadWrap.CondTimedWaitDeadlineNormalised |
| lib/randSequence.c:33 | the guard is `minLen <= maxLen`, then `% (maxLen - minLen)` | `minLen = maxLen = 9` passes both guards and takes a remainder by zero | require `minLen < maxLen`, which makes the length lie in `[minLen, maxLen)` | high; not executed | RandSequence.EqualBoundsDivideByZero | RandSequence.SequenceLength |
| lib/threadPool.c:699 | an idle worker calls `condWait` once and then acts as if it was signalled | the only idle worker `w` returns from the wait without a signal, which POSIX allows: `lookForWork` finds nothing and `w` goes on the unused stack while `idleFront == idleBack == w`, so the next submission signals a thread that has exited | wait in a loop while the worker is still linked in the idle list | medium; not executed | PoolOps.SpuriousWakeExits | PoolOps.WakeCheckedKeeps |
