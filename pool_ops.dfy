/** The operations of lib/threadPool.c that chain the critical-section steps
    of PoolSteps the way the C functions call each other: a submission
    (_poThreadPool_runTask), a worker looking for work (lookForWork), a
    worker back from its callback or woken from the idle list
    (workerPthreadCallback), the idle-thread check, the tract check and the
    start of teardown. */
module PoolOps {
  import opened Lists
  import opened PoolRecords
  import opened PoolState
  import opened WorkerSteps
  import opened PoolSteps

  /** What a submission did (the C return value is `r == QueueFull`). */
  datatype Submit =
    | ToIdleWorker(w: nat)          // case 1: handed to the youngest idle worker
    | ToNewWorker(w: nat, job: Job) // case 2: a new thread, started on `job`
    | QueueFull                     // case 3 without waitIfFull: returns true (failure)
    | WouldWait                     // case 3 with waitIfFull: the owner blocks, then submits again
    | GeneralQueued(slot: nat)      // case 4: appended to the general queue
    | TractQueued(slot: nat)        // case 5: appended to the tract's private queue

  /** What lookForWork found: the job handed to the worker directly, a job
      taken from task record `slot`, or nothing (a NULL callback). */
  datatype Work =
    | Assigned(job: Job)
    | Dequeued(slot: nat, job: Job)
    | NoWork

  /** What a worker thread does once it lets go of the mutex. */
  datatype WorkerStep =
    | RunJob(job: Job)          // calls the callback
    | Wait                      // sleeps on its condition variable, on the idle list
    | End(signalsOwner: bool)   // the thread returns; the last one during teardown signals the owner

  /** tractHasRunningWorker: the tract pointer is not NULL and a worker holds it. */
  predicate HasTractWorker(s: State, t: int) {
    0 <= t < |s.tracts| && s.tracts[t].worker != Null
  }

  /** The oldest idle worker has been idle for longer than maxIdleTime; the
      clock reading `now` and the idle times are in milliseconds. */
  predicate FrontExpired(s: State, now: int, maxIdleTime: nat) {
    var f := s.workers.idleFront;
    0 <= f < |s.worker| && now - s.worker[f].lastWorkTime > maxIdleTime
  }

  /** _poThreadPool_checkIdleThreadTimeout: with more than one thread, the
      oldest idle worker is signalled to retire when it has been idle too
      long; the answer is whether the new oldest idle worker, not the only
      one, has been idle too long as well. */
  ghost function CheckIdle(s: State, now: int, maxIdleTime: nat): (State, bool)
    requires Inv(s)
  {
    if s.numThreads <= 1 then (s, false)
    else
      ListEnds(s);
      var s' := if FrontExpired(s, now, maxIdleTime) then IdleOldPop(s) else s;
      (s', s'.workers.idleFront != Null && s'.workers.idleFront != s'.workers.idleBack
           && FrontExpired(s', now, maxIdleTime))
  }

  /** _poThreadPool_runTask, tried case by case: an idle worker, an unused
      worker, a full queue, the general queue, the tract's private queue.
      Case 1 also runs the idle-thread check, whose answer is dropped. */
  ghost function RunTask(s: State, t: int, job: Job, now: int, waitIfFull: bool, maxIdleTime: nat): (State, Submit)
    requires Inv(s) && TractRef(t, |s.tracts|)
  {
    ListEnds(s);
    var has := HasTractWorker(s, t);
    if s.workers.idleFront != Null && !has then
      IdleYoungPopKeeps(s, t, job);
      (CheckIdle(IdleYoungPop(s, t, job), now, maxIdleTime).0, ToIdleWorker(s.workers.idleBack))
    else if s.workers.unused != Null && !has then
      (UnusedPop(s, t), ToNewWorker(s.workers.unused, job))
    else if s.tasks.unused == Null then
      if !waitIfFull then (s, QueueFull) else (s.(taskWaitingToBeRun := true), WouldWait)
    else if s.tasks.front != Null || !has then
      (SpareToGeneral(s, job, t), GeneralQueued(s.tasks.unused))
    else
      (SpareToTract(s, job, t), TractQueued(s.tasks.unused))
  }

  /** The tract a worker holds is NULL or a tract of the table. */
  lemma HeldTractRef(s: State, w: nat)
    requires Inv(s) && w < |s.worker|
    ensures TractRef(s.worker[w].tract, |s.tracts|)
    ensures s.worker[w].tract != Null ==> s.tracts[s.worker[w].tract].worker == w
    ensures forall u :: 0 <= u < |s.tracts| && s.tracts[u].worker == w ==> s.worker[w].tract == u
  {
    Open(s);
  }

  /** lookForWork: the job handed over directly; else the front of the
      worker's own tract queue; else the front of the general queue, which
      is moved to its tract's queue (and the search repeats) when another
      worker holds that tract, binds the worker to its tract when no worker
      does, or is simply taken; with no work the worker lets go of its tract. */
  ghost function LookForWork(s: State, w: nat): (State, Work)
    requires Inv(s) && Busy(s, w)
    decreases |s.lists.general|
  {
    ListEnds(s);
    HeldTractRef(s, w);
    var r := s.worker[w];
    if r.job.Some? then (s, Assigned(r.job.value))
    else if r.tract != Null && s.tracts[r.tract].firstTask != Null then
      var x := s.tracts[r.tract].firstTask;
      (TractToSpare(s, r.tract), Dequeued(x, s.task[x].job))
    else if s.tasks.front != Null then
      var x := s.tasks.front;
      var u := s.task[x].tract;
      if u != Null && s.tracts[u].worker != Null then
        GeneralToTractKeeps(s);
        LookForWork(GeneralToTract(s), w)
      else if u != Null then
        (GeneralBind(s, w), Dequeued(x, s.task[x].job))
      else
        (GeneralTake(s), Dequeued(x, s.task[x].job))
    else if r.tract != Null then
      (Unbind(s, w), NoWork)
    else
      (s, NoWork)
  }

  /** lookForWork keeps the invariant, and the worker stays busy with the
      job it had. */
  lemma {:induction false} LookForWorkKeeps(s: State, w: nat)
    requires Inv(s) && Busy(s, w)
    ensures var s' := LookForWork(s, w).0;
      Inv(s') && Busy(s', w) && s'.lists.workerAt == s.lists.workerAt && s'.worker[w].job == s.worker[w].job
      && |s'.task| == |s.task| && |s'.tracts| == |s.tracts|
    decreases |s.lists.general|, 1
  {
    ListEnds(s);
    HeldTractRef(s, w);
    var r := s.worker[w];
    if r.job.Some? {
    } else if r.tract != Null && s.tracts[r.tract].firstTask != Null {
      TractToSpareKeeps(s, r.tract);
    } else if s.tasks.front != Null {
      var u := s.task[s.tasks.front].tract;
      if u != Null && s.tracts[u].worker != Null {
        LookForWorkKeepsMoved(s, w);
      } else if u != Null {
        GeneralBindKeeps(s, w);
      } else {
        GeneralTakeKeeps(s);
      }
    } else if r.tract != Null {
      UnbindKeeps(s, w);
    }
  }

  /** The recursive case of LookForWorkKeeps. */
  lemma {:induction false} LookForWorkKeepsMoved(s: State, w: nat)
    requires Inv(s) && Busy(s, w) && s.lists.general != [] && 0 <= s.task[s.tasks.front].tract < |s.tracts|
    requires s.tracts[s.task[s.tasks.front].tract].worker != Null && s.worker[w].job.None?
    requires s.worker[w].tract != Null ==> 0 <= s.worker[w].tract < |s.tracts| && s.tracts[s.worker[w].tract].firstTask == Null
    ensures var s' := LookForWork(s, w).0;
      Inv(s') && Busy(s', w) && s'.lists.workerAt == s.lists.workerAt && s'.worker[w].job == s.worker[w].job
      && |s'.task| == |s.task| && |s'.tracts| == |s.tracts|
    decreases |s.lists.general|, 0
  {
    ListEnds(s);
    GeneralToTractKeeps(s);
    GeneralToTractTasks(s);
    var s1 := GeneralToTract(s);
    assert LookForWork(s, w) == LookForWork(s1, w);
    LookForWorkKeeps(s1, w);
  }

  /** lookForWork leaves the worker lists, the thread count and the flags
      as they were. */
  lemma {:induction false} LookForWorkFrame(s: State, w: nat)
    requires Inv(s) && Busy(s, w)
    ensures var s' := LookForWork(s, w).0;
      s'.lists.idle == s.lists.idle && s'.lists.unusedWorkers == s.lists.unusedWorkers && s'.workers == s.workers
      && s'.numThreads == s.numThreads && s'.cleanup == s.cleanup && s'.taskWaitingToBeRun == s.taskWaitingToBeRun
    decreases |s.lists.general|
  {
    ListEnds(s);
    HeldTractRef(s, w);
    var r := s.worker[w];
    if r.job.None? && !(r.tract != Null && s.tracts[r.tract].firstTask != Null) && s.tasks.front != Null {
      var u := s.task[s.tasks.front].tract;
      if u != Null && s.tracts[u].worker != Null {
        GeneralToTractKeeps(s);
        LookForWorkFrame(GeneralToTract(s), w);
      }
    }
  }

  /** Moving a task to its tract's queue changes no task's job or tract. */
  lemma GeneralToTractTasks(s: State)
    requires Inv(s) && s.lists.general != [] && 0 <= s.task[s.tasks.front].tract < |s.tracts|
    ensures var s' := GeneralToTract(s);
      |s'.task| == |s.task| && forall i :: 0 <= i < |s.task| ==> s'.task[i].job == s.task[i].job && s'.task[i].tract == s.task[i].tract
    ensures var s' := GeneralToTract(s); var u := s.task[s.tasks.front].tract;
      |s'.tracts| == |s.tracts| && s'.tracts[u].worker == s.tracts[u].worker
      && forall v :: 0 <= v < |s.tracts| && v != u ==> s'.tracts[v] == s.tracts[v]
  {
    ListEnds(s);
  }

  /** What lookForWork hands the worker: the job it was given, if any; else
      a queued task, whose record goes back on the unused task stack; and
      with no work at all the general queue is empty and the worker holds
      no tract. */
  lemma {:induction false} LookForWorkResult(s: State, w: nat)
    requires Inv(s) && Busy(s, w)
    ensures var (s', found) := LookForWork(s, w);
      && (found.Assigned? <==> s.worker[w].job.Some?)
      && (found.Assigned? ==> s' == s && s.worker[w].job == Some(found.job))
      && (found.Dequeued? ==> found.slot < |s.task| && found.job == s.task[found.slot].job
                              && s'.lists.spareTasks == [found.slot] + s.lists.spareTasks)
      && (found.NoWork? ==> s'.lists.general == [] && w < |s'.worker| && s'.worker[w].tract == Null && s'.lists.spareTasks == s.lists.spareTasks)
    decreases |s.lists.general|
  {
    ListEnds(s);
    HeldTractRef(s, w);
    var r := s.worker[w];
    if r.job.Some? {
    } else if r.tract != Null && s.tracts[r.tract].firstTask != Null {
      TractToSpareKeeps(s, r.tract);
    } else if s.tasks.front != Null {
      var u := s.task[s.tasks.front].tract;
      if u != Null && s.tracts[u].worker != Null {
        GeneralToTractKeeps(s);
        GeneralToTractTasks(s);
        var s1 := GeneralToTract(s);
        assert LookForWork(s, w) == LookForWork(s1, w);
        LookForWorkResult(s1, w);
      } else if u != Null {
        GeneralBindKeeps(s, w);
      } else {
        GeneralTakeKeeps(s);
      }
    }
  }

  /** The task lookForWork took, as a queue of tract `v`: the taken task
      when it belonged to `v`, and nothing otherwise. */
  ghost function Taken(s: State, found: Work, v: nat): seq<nat> {
    if found.Dequeued? && found.slot < |s.task| && s.task[found.slot].tract == v then [found.slot] else []
  }

  /** lookForWork keeps every tract's tasks in order: the task it takes is
      the first queued task of its tract, and no other queued task moves. */
  lemma {:induction false} LookForWorkQueued(s: State, w: nat)
    requires Inv(s) && Busy(s, w)
    ensures var (s', found) := LookForWork(s, w);
      |s'.lists.tractQueue| == |s.lists.tractQueue|
      && forall v :: 0 <= v < |s.lists.tractQueue| ==> Queued(s, v) == Taken(s, found, v) + Queued(s', v)
    decreases |s.lists.general|, 1
  {
    ListEnds(s);
    HeldTractRef(s, w);
    var r := s.worker[w];
    if r.job.Some? {
    } else if r.tract != Null && s.tracts[r.tract].firstTask != Null {
      TractToSpareKeeps(s, r.tract);
    } else if s.tasks.front != Null {
      var u := s.task[s.tasks.front].tract;
      if u != Null && s.tracts[u].worker != Null {
        LookForWorkQueuedMoved(s, w);
      } else if u != Null {
        GeneralBindQueued(s, w);
      } else {
        GeneralTakeKeeps(s);
      }
    }
  }

  /** The recursive case of LookForWorkQueued: the front task moves to the
      queue of the tract another worker holds, which keeps its place among
      that tract's tasks. */
  lemma {:induction false} LookForWorkQueuedMoved(s: State, w: nat)
    requires Inv(s) && Busy(s, w) && s.lists.general != [] && 0 <= s.task[s.tasks.front].tract < |s.tracts|
    requires s.tracts[s.task[s.tasks.front].tract].worker != Null && s.worker[w].job.None?
    requires s.worker[w].tract != Null ==> 0 <= s.worker[w].tract < |s.tracts| && s.tracts[s.worker[w].tract].firstTask == Null
    ensures var (s', found) := LookForWork(s, w);
      |s'.lists.tractQueue| == |s.lists.tractQueue|
      && forall v :: 0 <= v < |s.lists.tractQueue| ==> Queued(s, v) == Taken(s, found, v) + Queued(s', v)
    decreases |s.lists.general|, 0
  {
    ListEnds(s);
    GeneralToTractKeeps(s);
    GeneralToTractTasks(s);
    var s1 := GeneralToTract(s);
    assert LookForWork(s, w) == LookForWork(s1, w);
    LookForWorkQueued(s1, w);
  }

  /** Step 2 of lookForWork comes before the general queue: a worker with
      no job handed over and tasks waiting in its own tract's private queue
      takes the first of them, stays bound to the tract, and leaves the
      general queue as it was. */
  lemma LookForWorkOwnQueue(s: State, w: nat)
    requires Inv(s) && Busy(s, w) && s.worker[w].job.None?
    requires 0 <= s.worker[w].tract < |s.tracts| && s.tracts[s.worker[w].tract].firstTask != Null
    ensures var (s', found) := LookForWork(s, w); var u := s.worker[w].tract;
      && u < |s.lists.tractQueue| && s.lists.tractQueue[u] != [] && s.lists.tractQueue[u][0] < |s.task|
      && found == Dequeued(s.lists.tractQueue[u][0], s.task[s.lists.tractQueue[u][0]].job)
      && s'.lists.general == s.lists.general && s'.tasks.front == s.tasks.front
      && s'.lists.tractQueue[u] == s.lists.tractQueue[u][1..]
      && s'.lists.spareTasks == [found.slot] + s.lists.spareTasks
      && s'.worker[w].tract == u && s'.tracts[u].worker == w
  {
    ListEnds(s);
    HeldTractRef(s, w);
    TractToSpareKeeps(s, s.worker[w].tract);
  }

  /** The front of the general queue belongs to the worker's own tract:
      it is moved to that tract's queue and taken from there at once. */
  lemma OwnTractFront(s: State, w: nat)
    requires Inv(s) && Busy(s, w) && s.worker[w].job.None? && s.lists.general != []
    requires s.worker[w].tract != Null ==> 0 <= s.worker[w].tract < |s.tracts| && s.tracts[s.worker[w].tract].firstTask == Null
    requires var u := s.task[s.tasks.front].tract; 0 <= u < |s.tracts| && s.tracts[u].worker == w
    ensures var (s', found) := LookForWork(s, w);
      found.Dequeued? && found.slot == s.lists.general[0] && s'.lists.general == s.lists.general[1..]
  {
    ListEnds(s);
    HeldTractRef(s, w);
    var x := s.tasks.front;
    var u := s.task[x].tract;
    GeneralToTractKeeps(s);
    var s1 := GeneralToTract(s);
    assert LookForWork(s, w) == LookForWork(s1, w);
    ListEnds(s1);
    assert s.worker[w].tract == u && s1.lists.tractQueue[u] == [x];
  }

  /** The front of the general queue is held up by a tract another worker
      holds: it is moved away and the search goes on in the rest. */
  lemma HeldFront(s: State, w: nat)
    requires Inv(s) && Busy(s, w) && s.worker[w].job.None? && s.lists.general != []
    requires s.worker[w].tract != Null ==> 0 <= s.worker[w].tract < |s.tracts| && s.tracts[s.worker[w].tract].firstTask == Null
    requires HeldElsewhere(s.task, s.tracts, w, s.tasks.front)
    ensures GeneralToTract.requires(s)
    ensures var s1 := GeneralToTract(s); var g := s.lists.general;
      && Inv(s1) && Busy(s1, w) && s1.worker[w].job.None? && s1.lists.general == g[1..]
      && (s1.worker[w].tract != Null ==> 0 <= s1.worker[w].tract < |s1.tracts| && s1.tracts[s1.worker[w].tract].firstTask == Null)
      && FirstTakeable(g[1..], s1.task, s1.tracts, w) == FirstTakeable(g[1..], s.task, s.tracts, w)
      && LookForWork(s, w) == LookForWork(s1, w)
  {
    ListEnds(s);
    HeldTractRef(s, w);
    GeneralToTractKeeps(s);
    GeneralToTractTasks(s);
    var s1 := GeneralToTract(s);
    FirstTakeableFrame(s.lists.general[1..], s.task, s.tracts, s1.task, s1.tracts, w);
  }

  /** lookForWork, for a worker with no job handed to it and nothing left
      in its own tract's queue, takes the first task of the general queue
      that is not held up by a tract another worker holds; the tasks before
      it are moved to their tracts' queues.  With no such task there is no
      work and the general queue ends empty. */
  lemma {:induction false} LookForWorkTakes(s: State, w: nat)
    requires Inv(s) && Busy(s, w) && s.worker[w].job.None?
    requires s.worker[w].tract != Null ==> 0 <= s.worker[w].tract < |s.tracts| && s.tracts[s.worker[w].tract].firstTask == Null
    ensures var (s', found) := LookForWork(s, w); var g := s.lists.general;
      var k := FirstTakeable(g, s.task, s.tracts, w);
      && (found.Dequeued? <==> k < |g|)
      && (found.Dequeued? ==> found.slot == g[k] && s'.lists.general == g[k + 1..])
      && (found.NoWork? ==> s'.lists.general == [])
    decreases |s.lists.general|, 1
  {
    ListEnds(s);
    HeldTractRef(s, w);
    var g := s.lists.general;
    if g != [] {
      var u := s.task[g[0]].tract;
      if HeldElsewhere(s.task, s.tracts, w, g[0]) {
        LookForWorkTakesHeld(s, w);
      } else if u != Null && s.tracts[u].worker != Null {
        OwnTractFront(s, w);
      }
    }
  }

  /** The recursive case of LookForWorkTakes: the front task is held up, so
      the first takeable task is the first takeable one of the rest. */
  lemma {:induction false} LookForWorkTakesHeld(s: State, w: nat)
    requires Inv(s) && Busy(s, w) && s.worker[w].job.None? && s.lists.general != []
    requires s.worker[w].tract != Null ==> 0 <= s.worker[w].tract < |s.tracts| && s.tracts[s.worker[w].tract].firstTask == Null
    requires HeldElsewhere(s.task, s.tracts, w, s.lists.general[0])
    ensures var (s', found) := LookForWork(s, w); var g := s.lists.general;
      var k := FirstTakeable(g, s.task, s.tracts, w);
      && (found.Dequeued? <==> k < |g|)
      && (found.Dequeued? ==> found.slot == g[k] && s'.lists.general == g[k + 1..])
      && (found.NoWork? ==> s'.lists.general == [])
    decreases |s.lists.general|, 0
  {
    ListEnds(s);
    HeldFront(s, w);
    var g := s.lists.general;
    var s1 := GeneralToTract(s);
    LookForWorkTakes(s1, w);
    var k1 := FirstTakeable(g[1..], s.task, s.tracts, w);
    assert FirstTakeable(g, s.task, s.tracts, w) == 1 + k1;
    if k1 < |g| - 1 {
      assert g[1..][k1] == g[1 + k1] && g[1..][k1 + 1..] == g[1 + k1 + 1..];
    }
  }

  /** A running worker has no job waiting in its record. */
  lemma RunningHasNoJob(s: State, w: nat)
    requires Inv(s) && w < |s.worker| && w < |s.lists.workerAt| && s.lists.workerAt[w] == Running
    ensures s.worker[w].job.None?
  {
    Open(s);
    assert Fits(s.worker[w], s.lists.workerAt[w]);
  }

  /** The end of a callback in workerPthreadCallback: a waiting owner is
      released (taskWaitingToBeRun is cleared), then lookForWork; with work
      the worker runs it, with none it exits if the owner is tearing the
      pool down (the last thread signals the owner), and otherwise parks on
      the idle list. */
  ghost function FinishCallback(s: State, w: nat, now: int): (State, WorkerStep)
    requires Inv(s) && w < |s.worker| && w < |s.lists.workerAt| && s.lists.workerAt[w] == Running
  {
    var s1 := s.(taskWaitingToBeRun := false);
    LookForWorkKeeps(s1, w);
    LookForWorkResult(s1, w);
    var (s2, found) := LookForWork(s1, w);
    if !found.NoWork? then (s2, RunJob(found.job))
    else if s2.cleanup then (UnusedPush(s2, w), End(s2.numThreads == 1))
    else (IdlePush(s2, w, now), Wait)
  }

  /** A signalled worker waking in workerPthreadCallback: lookForWork (which
      finds the job it was handed, if any); with work it runs, and with none
      the thread exits, signalling the owner if it is the last during
      teardown. */
  ghost function Wake(s: State, w: nat): (State, WorkerStep)
    requires Inv(s) && w < |s.worker| && w < |s.lists.workerAt| && s.lists.workerAt[w] == Signalled
  {
    LookForWorkKeeps(s, w);
    LookForWorkResult(s, w);
    var (s2, found) := LookForWork(s, w);
    if found.NoWork? then (UnusedPush(s2, w), End(s2.cleanup && s2.numThreads == 1))
    else (Resume(s2, w), RunJob(found.job))
  }

  /** poThreadPool_checkTractFinish: a tract with no queued task and no
      worker is zeroed and reported finished. */
  ghost function CheckTractFinish(s: State, t: nat): (State, bool)
    requires t < |s.tracts|
  {
    if s.tracts[t].taskCount == 0 && s.tracts[t].worker == Null then (s.(tracts := s.tracts[t := FreshTract]), true)
    else (s, false)
  }

  /** The loop of _poThreadPool_destroy: signal the oldest idle worker until
      the idle list is empty. */
  ghost function DrainIdle(s: State): State
    requires Inv(s)
    decreases |s.lists.idle|
  {
    ListEnds(s);
    if s.workers.idleFront == Null then s
    else
      IdleOldPopKeeps(s);
      DrainIdle(IdleOldPop(s))
  }

  /** The idle list drained, every idle worker signalled and the rest of the
      pool as it was. */
  lemma {:induction false} DrainIdleKeeps(s: State)
    requires Inv(s)
    ensures var s' := DrainIdle(s);
      Inv(s') && s'.lists.idle == [] && s'.numThreads == s.numThreads && |s'.lists.workerAt| == |s.lists.workerAt|
      && (forall v :: 0 <= v < |s.lists.workerAt| ==>
            s'.lists.workerAt[v] == (if v in s.lists.idle then Signalled else s.lists.workerAt[v]))
      && s'.task == s.task && s'.tracts == s.tracts && s'.tasks == s.tasks && s'.lists.general == s.lists.general
      && s'.cleanup == s.cleanup
    decreases |s.lists.idle|
  {
    ListEnds(s);
    if s.workers.idleFront != Null {
      IdleOldPopKeeps(s);
      var s1 := IdleOldPop(s);
      DrainIdleKeeps(s1);
      Open(s);
      DistinctPairwise(s.lists.idle);
      forall v | 0 <= v < |s.lists.workerAt|
        ensures v in s.lists.idle <==> v == s.lists.idle[0] || v in s1.lists.idle
      {
      }
    }
  }

  /** _poThreadPool_destroy up to its wait: the idle workers are all
      signalled; while threads remain, cleanup is set and the owner waits
      for the last one to signal it. */
  ghost function BeginDestroy(s: State): (State, bool)
    requires Inv(s)
  {
    DrainIdleKeeps(s);
    var s1 := DrainIdle(s);
    if s1.numThreads > 0 then (s1.(cleanup := true), true) else (s1, false)
  }

  /** The ends of the idle list: idleFront is its oldest worker, idleBack
      its youngest, and they coincide only when it holds one worker. */
  lemma IdleEnds(s: State)
    requires Inv(s)
    ensures s.lists.idle != [] ==>
      s.workers.idleFront == s.lists.idle[0] && s.workers.idleBack == s.lists.idle[|s.lists.idle| - 1]
      && (s.workers.idleFront == s.workers.idleBack <==> |s.lists.idle| == 1)
  {
    Open(s);
    DistinctPairwise(s.lists.idle);
  }

  /** The oldest idle worker, read off the idle list, has been idle for
      longer than maxIdleTime. */
  ghost predicate OldestExpired(s: State, now: int, maxIdleTime: nat) {
    s.lists.idle != [] && s.lists.idle[0] < |s.worker| && now - s.worker[s.lists.idle[0]].lastWorkTime > maxIdleTime
  }

  /** The idle-thread check keeps the invariant and touches only the idle
      list and the state of the worker it signals. */
  lemma CheckIdleKeeps(s: State, now: int, maxIdleTime: nat)
    requires Inv(s)
    ensures var s' := CheckIdle(s, now, maxIdleTime).0;
      Inv(s') && s'.numThreads == s.numThreads && |s'.worker| == |s.worker| && |s'.lists.workerAt| == |s.lists.workerAt|
      && s'.task == s.task && s'.tracts == s.tracts && s'.tasks == s.tasks && s'.lists.general == s.lists.general
      && s'.lists.tractQueue == s.lists.tractQueue && s'.lists.spareTasks == s.lists.spareTasks
      && s'.lists.unusedWorkers == s.lists.unusedWorkers && s'.cleanup == s.cleanup && s'.taskWaitingToBeRun == s.taskWaitingToBeRun
      && forall v :: 0 <= v < |s.worker| && v !in s.lists.idle ==>
           s'.worker[v] == s.worker[v] && s'.lists.workerAt[v] == s.lists.workerAt[v]
  {
    ListEnds(s);
    IdleEnds(s);
    if s.numThreads > 1 && FrontExpired(s, now, maxIdleTime) {
      IdleOldPopKeeps(s);
    }
  }

  /** _poThreadPool_checkIdleThreadTimeout: with at most one thread nothing
      happens and the answer is false; otherwise the oldest idle worker is
      signalled to retire exactly when it has been idle too long, and the
      answer is whether at least two idle workers remain and the oldest of
      them has been idle too long as well. */
  lemma CheckIdleSpec(s: State, now: int, maxIdleTime: nat)
    requires Inv(s)
    ensures var (s', r) := CheckIdle(s, now, maxIdleTime);
      && (s.numThreads <= 1 ==> s' == s && !r)
      && (s.numThreads > 1 && !OldestExpired(s, now, maxIdleTime) ==> s' == s)
      && (s.numThreads > 1 && OldestExpired(s, now, maxIdleTime) ==>
            s'.lists.idle == s.lists.idle[1..] && s'.lists.workerAt == s.lists.workerAt[s.lists.idle[0] := Signalled])
      && (r <==> s.numThreads > 1 && |s'.lists.idle| >= 2 && OldestExpired(s', now, maxIdleTime))
  {
    ListEnds(s);
    IdleEnds(s);
    CheckIdleKeeps(s, now, maxIdleTime);
    var s' := CheckIdle(s, now, maxIdleTime).0;
    if s.numThreads > 1 {
      if FrontExpired(s, now, maxIdleTime) {
        IdleOldPopKeeps(s);
      }
      ListEnds(s');
      IdleEnds(s');
    }
  }

  /** Idle workers only while the general queue is empty; queueing in the
      general queue only once every worker has a thread. */
  lemma CrossFacts(s: State)
    requires Inv(s)
    ensures s.lists.idle != [] ==> s.lists.general == []
    ensures s.lists.general != [] ==> s.lists.unusedWorkers == []
  {
    Open(s);
  }

  /** A submission keeps the invariant. */
  lemma RunTaskKeeps(s: State, t: int, job: Job, now: int, waitIfFull: bool, maxIdleTime: nat)
    requires Inv(s) && TractRef(t, |s.tracts|)
    ensures var s' := RunTask(s, t, job, now, waitIfFull, maxIdleTime).0;
      Inv(s') && |s'.task| == |s.task| && |s'.worker| == |s.worker| && |s'.tracts| == |s.tracts|
      && |s'.lists.tractQueue| == |s.lists.tractQueue|
  {
    ListEnds(s);
    CrossFacts(s);
    var has := HasTractWorker(s, t);
    if s.workers.idleFront != Null && !has {
      IdleYoungPopKeeps(s, t, job);
      CheckIdleKeeps(IdleYoungPop(s, t, job), now, maxIdleTime);
    } else if s.workers.unused != Null && !has {
      UnusedPopKeeps(s, t);
    } else if s.tasks.unused == Null {
    } else if s.tasks.front != Null || !has {
      SpareToGeneralKeeps(s, job, t);
    } else {
      SpareToTractKeeps(s, job, t);
    }
  }

  /** Which case a submission takes: an idle worker exactly when there is
      one and no worker holds the tract; a new thread when there is none
      idle but an unused worker; a task record otherwise, and when none is
      left the submission fails or waits.  The tract's private queue is
      used only while a worker holds it and the general queue is empty. */
  lemma RunTaskChoice(s: State, t: int, job: Job, now: int, waitIfFull: bool, maxIdleTime: nat)
    requires Inv(s) && TractRef(t, |s.tracts|)
    ensures var (s', r) := RunTask(s, t, job, now, waitIfFull, maxIdleTime);
      var has := HasTractWorker(s, t);
      && (r.ToIdleWorker? <==> s.lists.idle != [] && !has)
      && (r.ToNewWorker? <==> s.lists.idle == [] && s.lists.unusedWorkers != [] && !has)
      && ((r.QueueFull? || r.WouldWait?) <==>
            (has || (s.lists.idle == [] && s.lists.unusedWorkers == [])) && s.lists.spareTasks == [])
      && (r.QueueFull? ==> !waitIfFull) && (r.WouldWait? ==> waitIfFull)
      && (r.QueueFull? ==> s' == s)
      && (r.WouldWait? ==> s' == s.(taskWaitingToBeRun := true))
      && (r.TractQueued? <==> has && s.lists.general == [] && s.lists.spareTasks != [])
  {
    ListEnds(s);
  }

  /** A queued submission fills the top unused task record with the job and
      the tract and makes it the last queued task of that tract, which
      counts one task more; no other tract's queued tasks change.  Every
      other submission leaves all queued tasks and the unused task stack as
      they were. */
  lemma RunTaskQueued(s: State, t: int, job: Job, now: int, waitIfFull: bool, maxIdleTime: nat)
    requires Inv(s) && TractRef(t, |s.tracts|)
    ensures var (s', r) := RunTask(s, t, job, now, waitIfFull, maxIdleTime);
      && |s'.lists.tractQueue| == |s.lists.tractQueue| && |s'.task| == |s.task|
      && ((r.GeneralQueued? || r.TractQueued?) ==>
            && s.lists.spareTasks != [] && r.slot == s.lists.spareTasks[0]
            && s'.lists.spareTasks == s.lists.spareTasks[1..]
            && s'.task[r.slot] == Task(job, Null, t)
            && (forall u :: 0 <= u < |s.lists.tractQueue| ==>
                  Queued(s', u) == Queued(s, u) + (if u == t then [r.slot] else [])))
      && (r.GeneralQueued? ==> s'.lists.general == s.lists.general + [r.slot])
      && (!r.GeneralQueued? ==> s'.lists.general == s.lists.general)
      && (!(r.GeneralQueued? || r.TractQueued?) ==>
            s'.lists.spareTasks == s.lists.spareTasks
            && forall u :: 0 <= u < |s.lists.tractQueue| ==> Queued(s', u) == Queued(s, u))
  {
    ListEnds(s);
    CrossFacts(s);
    var has := HasTractWorker(s, t);
    if s.workers.idleFront != Null && !has {
      IdleYoungPopKeeps(s, t, job);
      CheckIdleKeeps(IdleYoungPop(s, t, job), now, maxIdleTime);
    } else if s.workers.unused != Null && !has {
      UnusedPopKeeps(s, t);
    } else if s.tasks.unused == Null {
    } else if s.tasks.front != Null || !has {
      SpareToGeneralKeeps(s, job, t);
    } else {
      SpareToTractKeeps(s, job, t);
    }
  }

  /** A submission handed to a worker gives it the job (a new thread takes
      it over at once) and binds it to the tract, both ways, and the worker
      is then signalled or running; the thread count grows by one for a new
      thread only. */
  lemma RunTaskWorker(s: State, t: int, job: Job, now: int, waitIfFull: bool, maxIdleTime: nat)
    requires Inv(s) && TractRef(t, |s.tracts|)
    ensures var (s', r) := RunTask(s, t, job, now, waitIfFull, maxIdleTime);
      && (r.ToIdleWorker? ==>
            && s.lists.idle != [] && r.w == s.lists.idle[|s.lists.idle| - 1] && r.w < |s'.worker|
            && s'.worker[r.w].job == Some(job) && s'.worker[r.w].tract == t
            && s'.lists.workerAt[r.w] == Signalled && s'.numThreads == s.numThreads
            && (t != Null ==> s'.tracts[t].worker == r.w))
      && (r.ToNewWorker? ==>
            && s.lists.unusedWorkers != [] && r.w == s.lists.unusedWorkers[0] && r.w < |s'.worker|
            && r.job == job && s'.worker[r.w].tract == t && s'.lists.workerAt[r.w] == Running
            && s'.lists.unusedWorkers == s.lists.unusedWorkers[1..] && s'.numThreads == s.numThreads + 1
            && (t != Null ==> s'.tracts[t].worker == r.w))
      && (!(r.ToIdleWorker? || r.ToNewWorker?) ==> s'.numThreads == s.numThreads && s'.worker == s.worker)
  {
    ListEnds(s);
    var has := HasTractWorker(s, t);
    if s.workers.idleFront != Null && !has {
      RunTaskToIdle(s, t, job, now, maxIdleTime);
    } else if s.workers.unused != Null && !has {
      RunTaskToNew(s, t);
    }
  }

  /** Case 1 of _poThreadPool_runTask: the youngest idle worker gets the job. */
  lemma RunTaskToIdle(s: State, t: int, job: Job, now: int, maxIdleTime: nat)
    requires Inv(s) && TractRef(t, |s.tracts|) && s.lists.idle != []
    requires t != Null ==> s.tracts[t].worker == Null
    ensures Inv(IdleYoungPop(s, t, job))
    ensures var x := s.workers.idleBack; var s' := CheckIdle(IdleYoungPop(s, t, job), now, maxIdleTime).0;
      && x == s.lists.idle[|s.lists.idle| - 1] && x < |s'.worker|
      && s'.worker[x].job == Some(job) && s'.worker[x].tract == t
      && s'.lists.workerAt[x] == Signalled && s'.numThreads == s.numThreads
      && (t != Null ==> s'.tracts[t].worker == x)
  {
    ListEnds(s);
    IdleEnds(s);
    IdleYoungPopKeeps(s, t, job);
    var s1 := IdleYoungPop(s, t, job);
    Open(s);
    DistinctPairwise(s.lists.idle);
    assert s.workers.idleBack !in s1.lists.idle;
    CheckIdleKeeps(s1, now, maxIdleTime);
  }

  /** Case 2 of _poThreadPool_runTask: the top unused worker gets a thread. */
  lemma RunTaskToNew(s: State, t: int)
    requires Inv(s) && TractRef(t, |s.tracts|) && s.lists.unusedWorkers != []
    requires t != Null ==> s.tracts[t].worker == Null
    ensures var x := s.workers.unused; var s' := UnusedPop(s, t);
      && x == s.lists.unusedWorkers[0] && x < |s'.worker|
      && s'.worker[x].tract == t && s'.lists.workerAt[x] == Running
      && s'.lists.unusedWorkers == s.lists.unusedWorkers[1..] && s'.numThreads == s.numThreads + 1
      && (t != Null ==> s'.tracts[t].worker == x)
  {
    ListEnds(s);
    UnusedPopKeeps(s, t);
    Open(s);
  }

  /** After a callback: the waiting owner is released; the worker runs the
      task lookForWork takes, or with no work parks as the youngest idle
      worker, or during teardown exits, and the owner is signalled exactly
      when the last thread exits. */
  lemma FinishCallbackSpec(s: State, w: nat, now: int)
    requires Inv(s) && w < |s.worker| && w < |s.lists.workerAt| && s.lists.workerAt[w] == Running
    ensures var (s', step) := FinishCallback(s, w, now);
      var found := LookForWork(s.(taskWaitingToBeRun := false), w).1;
      && Inv(s') && !s'.taskWaitingToBeRun && w < |s'.worker| && w < |s'.lists.workerAt|
      && (step.RunJob? <==> found.Dequeued?)
      && (step.RunJob? ==> step.job == found.job && s'.lists.workerAt[w] == Running && s'.numThreads == s.numThreads)
      && (step.Wait? <==> found.NoWork? && !s.cleanup)
      && (step.Wait? ==> s'.lists.idle == s.lists.idle + [w] && s'.lists.workerAt[w] == Idle
                         && s'.worker[w].lastWorkTime == now && s'.numThreads == s.numThreads)
      && (step.End? <==> found.NoWork? && s.cleanup)
      && (step.End? ==> s'.lists.unusedWorkers == [w] + s.lists.unusedWorkers && s'.lists.workerAt[w] == Unused
                        && s'.numThreads + 1 == s.numThreads && (step.signalsOwner <==> s'.numThreads == 0))
  {
    RunningHasNoJob(s, w);
    var s1 := s.(taskWaitingToBeRun := false);
    LookForWorkKeeps(s1, w);
    LookForWorkFrame(s1, w);
    LookForWorkResult(s1, w);
    var s2 := LookForWork(s1, w).0;
    if LookForWork(s1, w).1.NoWork? {
      if s2.cleanup {
        UnusedPushKeeps(s2, w);
      } else {
        IdlePushKeeps(s2, w, now);
      }
    }
  }

  /** After a callback the queued tasks change only by the one the worker
      takes, which was the first queued task of its tract. */
  lemma FinishCallbackQueued(s: State, w: nat, now: int)
    requires Inv(s) && w < |s.worker| && w < |s.lists.workerAt| && s.lists.workerAt[w] == Running
    ensures var s' := FinishCallback(s, w, now).0;
      var found := LookForWork(s.(taskWaitingToBeRun := false), w).1;
      |s'.lists.tractQueue| == |s.lists.tractQueue|
      && forall v :: 0 <= v < |s.lists.tractQueue| ==> Queued(s, v) == Taken(s, found, v) + Queued(s', v)
  {
    var s1 := s.(taskWaitingToBeRun := false);
    LookForWorkKeeps(s1, w);
    LookForWorkQueued(s1, w);
  }

  /** A signalled worker wakes: it runs the job it was handed, if any, or a
      task lookForWork takes; with no work its thread exits, and the owner is
      signalled exactly when the last thread exits during teardown. */
  lemma WakeSpec(s: State, w: nat)
    requires Inv(s) && w < |s.worker| && w < |s.lists.workerAt| && s.lists.workerAt[w] == Signalled
    ensures var (s', step) := Wake(s, w);
      var found := LookForWork(s, w).1;
      && Inv(s') && w < |s'.worker| && w < |s'.lists.workerAt| && s'.numThreads <= s.numThreads
      && (s.worker[w].job.Some? ==> step == RunJob(s.worker[w].job.value))
      && (step.RunJob? <==> !found.NoWork?)
      && (found.NoWork? ==> step.End?)
      && (step.RunJob? ==> step.job == found.job && s'.lists.workerAt[w] == Running && s'.worker[w].job.None?
                           && s'.numThreads == s.numThreads)
      && (step.End? ==> s'.lists.unusedWorkers == [w] + s.lists.unusedWorkers && s'.lists.workerAt[w] == Unused
                        && s'.numThreads + 1 == s.numThreads
                        && (step.signalsOwner <==> s.cleanup && s'.numThreads == 0))
  {
    LookForWorkKeeps(s, w);
    LookForWorkFrame(s, w);
    LookForWorkResult(s, w);
    var s2 := LookForWork(s, w).0;
    if LookForWork(s, w).1.NoWork? {
      UnusedPushKeeps(s2, w);
    } else {
      ResumeKeeps(s2, w);
    }
  }

  /** A woken worker's queued tasks change only by the one it takes. */
  lemma WakeQueued(s: State, w: nat)
    requires Inv(s) && w < |s.worker| && w < |s.lists.workerAt| && s.lists.workerAt[w] == Signalled
    ensures var s' := Wake(s, w).0;
      var found := LookForWork(s, w).1;
      |s'.lists.tractQueue| == |s.lists.tractQueue|
      && forall v :: 0 <= v < |s.lists.tractQueue| ==> Queued(s, v) == Taken(s, found, v) + Queued(s', v)
  {
    LookForWorkKeeps(s, w);
    LookForWorkQueued(s, w);
  }

  /** The idle wait as written: one condWait, with nothing re-checked after
      it returns. A return without a signal (POSIX allows spurious
      wake-ups) leaves the worker on the idle list; it holds no job and no
      tract and the general queue is empty, so lookForWork finds nothing
      and the thread exits onto the unused stack without leaving the idle
      list. */
  ghost function SpuriousWakeAsWritten(s: State, w: nat): State
    requires Inv(s) && w < |s.worker| && w < |s.lists.workerAt| && s.lists.workerAt[w] == Idle
  {
    UnusedPush(s, w)
  }

  /** The input that shows it: the only idle worker, woken without a signal,
      finds no work and tops the unused stack while it is still the idle
      list's front and back, so the next submission hands its job to a
      thread that has exited, and the pool counts one thread fewer. */
  lemma SpuriousWakeExits(s: State, w: nat)
    requires Inv(s) && w < |s.worker| && w < |s.lists.workerAt| && s.lists.workerAt[w] == Idle
    requires s.lists.idle == [w]
    ensures s.worker[w].job.None? && s.worker[w].tract == Null && s.lists.general == []
    ensures var s' := SpuriousWakeAsWritten(s, w);
      s'.workers.unused == w && s'.workers.idleFront == w && s'.workers.idleBack == w
      && s'.numThreads + 1 == s.numThreads
  {
    ListEnds(s);
    IdleEnds(s);
    Open(s);
    assert Fits(s.worker[w], s.lists.workerAt[w]);
  }

  /** Whether a worker back from the idle wait is still on the idle list,
      read off its own record and the list end: it has a younger neighbour
      or is the youngest. A signalled worker was unlinked, so neither holds. */
  lemma StillIdle(s: State, w: nat)
    requires Inv(s) && w < |s.worker| && w < |s.lists.workerAt|
    requires s.lists.workerAt[w] == Idle || s.lists.workerAt[w] == Signalled
    ensures s.lists.workerAt[w] == Idle <==> s.worker[w].prev != Null || s.workers.idleBack == w
  {
    Open(s);
    var idle := s.lists.idle;
    assert IdleChain(s.worker, idle) && s.workers.idleBack == Back(idle);
    if s.lists.workerAt[w] == Idle {
      var k :| 0 <= k < |idle| && idle[k] == w;
      assert s.worker[idle[k]].prev == (if k + 1 < |idle| then idle[k + 1] else Null);
    } else {
      assert Fits(s.worker[w], s.lists.workerAt[w]);
      if idle != [] {
        assert s.lists.workerAt[idle[|idle| - 1]] == Idle;
      }
    }
  }

  /** The idle wait with its predicate re-checked: a worker still on the
      idle list was not signalled and waits again; a signalled worker wakes
      as in Wake. */
  ghost function WakeChecked(s: State, w: nat): (State, WorkerStep)
    requires Inv(s) && w < |s.worker| && w < |s.lists.workerAt|
    requires s.lists.workerAt[w] == Idle || s.lists.workerAt[w] == Signalled
  {
    if s.lists.workerAt[w] == Idle then (s, Wait) else Wake(s, w)
  }

  /** Every return from the re-checked wait keeps the invariant. A worker
      that was not signalled stays idle and no thread is lost; a thread that
      exits is on the unused stack and is neither end of the idle list. */
  lemma WakeCheckedKeeps(s: State, w: nat)
    requires Inv(s) && w < |s.worker| && w < |s.lists.workerAt|
    requires s.lists.workerAt[w] == Idle || s.lists.workerAt[w] == Signalled
    ensures var (s', step) := WakeChecked(s, w);
      && Inv(s') && w < |s'.lists.workerAt| && s'.numThreads <= s.numThreads
      && (s.lists.workerAt[w] == Idle ==>
            step.Wait? && s'.lists.workerAt[w] == Idle && s'.numThreads == s.numThreads)
      && (step.End? ==>
            s'.workers.unused == w && w !in s'.lists.idle
            && s'.workers.idleFront != w && s'.workers.idleBack != w)
  {
    if s.lists.workerAt[w] == Signalled {
      WakeSpec(s, w);
      var (s', step) := Wake(s, w);
      if step.End? {
        ListEnds(s');
        IdleEnds(s');
        Open(s');
        var idle := s'.lists.idle;
        assert Enumerates(idle, s'.lists.workerAt, Idle);
        assert s'.workers.unused == Head(s'.lists.unusedWorkers);
        if idle != [] {
          assert s'.lists.workerAt[idle[0]] == Idle && s'.lists.workerAt[idle[|idle| - 1]] == Idle;
        }
      }
    }
  }

  /** poThreadPool_checkTractFinish answers whether the tract has no queued
      task and no worker, and zeroing such a tract changes nothing: it
      already is a zeroed tract. */
  lemma CheckTractFinishSpec(s: State, t: nat)
    requires Inv(s) && t < |s.tracts|
    ensures var (s', r) := CheckTractFinish(s, t);
      s' == s && (r <==> Queued(s, t) == [] && s.tracts[t].worker == Null)
  {
    Open(s);
    TractFinishFresh(s.task, s.worker, s.tracts, s.lists.spareTasks, s.lists.general, s.lists.tractQueue, s.lists.taskAt,
                     s.lists.unusedWorkers, s.lists.idle, s.lists.workerAt, s.tasks.unused, s.tasks.front, s.tasks.back,
                     s.workers.unused, s.workers.idleFront, s.workers.idleBack, s.numThreads, t);
  }

  /** The start of teardown signals every idle worker, leaves the queues as
      they were, and sets cleanup (and waits) exactly when threads remain. */
  lemma BeginDestroySpec(s: State)
    requires Inv(s)
    ensures var (s', waits) := BeginDestroy(s);
      && Inv(s') && s'.lists.idle == [] && s'.numThreads == s.numThreads
      && (waits <==> s.numThreads > 0) && (s'.cleanup <==> s.cleanup || s.numThreads > 0)
      && |s'.lists.workerAt| == |s.lists.workerAt|
      && (forall v :: 0 <= v < |s.lists.workerAt| ==>
            s'.lists.workerAt[v] == (if v in s.lists.idle then Signalled else s.lists.workerAt[v]))
      && s'.task == s.task && s'.tracts == s.tracts && s'.lists.general == s.lists.general
  {
    DrainIdleKeeps(s);
  }
}
