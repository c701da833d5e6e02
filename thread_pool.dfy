/** struct POThreadPool of lib/threadPool.h and lib/_threadPool.h as an
    object whose methods are the critical sections of lib/threadPool.c.  The
    task and worker slabs are the arrays poThreadPool_create allocates, the
    tract records the users hand in are one more array, and the lists the
    links spell out are ghost bookkeeping.  Every method runs under the pool
    mutex and is proved to do what the functions of PoolSteps and PoolOps
    say, whose properties are proved there. */
module ThreadPool {
  import opened Lists
  import opened PoolRecords
  import opened PoolState
  import opened TaskSteps
  import opened PoolSteps
  import opened PoolOps

  class Pool {
    const task: array<Task>
    const worker: array<Worker>
    const tracts: array<Tract>
    const waitIfFull: bool
    const maxIdleTime: nat   // milliseconds

    var tasks: TaskLists
    var workers: WorkerLists
    var numThreads: nat
    var cleanup: bool
    var taskWaitingToBeRun: bool
    ghost var lists: Layout

    /** The pool as one value. */
    ghost function V(): State
      reads this, task, worker, tracts
    {
      State(task[..], worker[..], tracts[..], tasks, workers, numThreads, cleanup, taskWaitingToBeRun, lists)
    }

    ghost predicate Valid()
      reads this, task, worker, tracts
    {
      Inv(V())
    }

    /** poThreadPool_create: every task and every worker on its unused
        stack, linked in slab order; empty queues and idle list; no
        threads; every tract zeroed. */
    constructor (waitIfFull: bool, maxQueueLength: nat, maxNumThreads: nat, maxIdleTime: nat, numTracts: nat)
      ensures Valid() && fresh(task) && fresh(worker) && fresh(tracts)
      ensures this.waitIfFull == waitIfFull && this.maxIdleTime == maxIdleTime
      ensures task.Length == maxQueueLength && worker.Length == maxNumThreads && tracts.Length == numTracts
      ensures IsIota(lists.spareTasks) && |lists.spareTasks| == maxQueueLength
      ensures IsIota(lists.unusedWorkers) && |lists.unusedWorkers| == maxNumThreads
      ensures lists.general == [] && lists.idle == [] && numThreads == 0 && !cleanup && !taskWaitingToBeRun
      ensures forall t :: 0 <= t < numTracts ==> tracts[t] == FreshTract && lists.tractQueue[t] == []
    {
      this.waitIfFull := waitIfFull;
      this.maxIdleTime := maxIdleTime;
      var tk := new Task[maxQueueLength](_ => BlankTask);
      ghost var spare := LinkTasks(tk);
      var wk := new Worker[maxNumThreads](_ => BlankWorker);
      ghost var unused := LinkWorkers(wk);
      var tr := new Tract[numTracts](_ => FreshTract);
      ghost var tq: seq<seq<nat>> := seq(numTracts, _ => []);
      ghost var at := seq(maxQueueLength, _ => Spare);
      ghost var wat := seq(maxNumThreads, _ => Unused);
      InitialTasks(tk[..], spare, at, tr[..], tq);
      InitialWorkers(wk[..], unused, wat, tr[..]);
      task, worker, tracts := tk, wk, tr;
      tasks := TaskLists(Null, Null, if maxQueueLength > 0 then 0 else Null);
      workers := WorkerLists(Null, Null, if maxNumThreads > 0 then 0 else Null);
      numThreads := 0;
      cleanup, taskWaitingToBeRun := false, false;
      lists := Layout(spare, [], tq, at, unused, [], wat);
      new;
      PoolIntro(task[..], worker[..], tracts[..], spare, [], tq, at, unused, [], wat,
                tasks.unused, Null, Null, workers.unused, Null, Null, 0);
    }

    /** tractQueueTask: task `x`, in no list, becomes the back of its
        tract's private queue. */
    method TractQueueTask(x: nat)
      requires x < task.Length && 0 <= task[x].tract < tracts.Length
      requires var last := tracts[task[x].tract].lastTask; last != x && TractRef(last, task.Length)
      modifies task, tracts
      ensures (task[..], tracts[..]) == TaskSteps.TractQueueTask(old(task[..]), old(tracts[..]), x)
    {
      ghost var tk, tr := task[..], tracts[..];
      var u := task[x].tract;
      task[x] := task[x].(next := Null);
      var last := tracts[u].lastTask;
      if last != Null {
        task[last] := task[last].(next := x);
      } else {
        tracts[u] := tracts[u].(firstTask := x);
      }
      tracts[u] := tracts[u].(lastTask := x);
      assert task[..] == SetTaskNext(tk, last, x)[x := tk[x].(next := Null)];
      assert tracts[..] == tr[u := tr[u].(firstTask := if last == Null then x else tr[u].firstTask, lastTask := x)];
    }

    /** Case 4 of _poThreadPool_runTask: the tract, if any, counts the task;
        the top of the unused task stack is filled in and becomes the back
        of the general queue. */
    method SpareToGeneral(job: Job, t: int) returns (x: nat)
      requires Valid() && lists.spareTasks != [] && TractRef(t, tracts.Length)
      modifies this, task, tracts
      ensures x == old(tasks.unused) && V() == PoolSteps.SpareToGeneral(old(V()), job, t)
    {
      TaskEnds(V());
      TaskLinks(V());
      if t != Null {
        tracts[t] := tracts[t].(taskCount := tracts[t].taskCount + 1);
      }
      x := tasks.unused;
      tasks := tasks.(unused := task[x].next);
      if tasks.back != Null {
        task[tasks.back] := task[tasks.back].(next := x);
      } else {
        tasks := tasks.(front := x);
      }
      tasks := tasks.(back := x);
      task[x] := Task(job, Null, t);
      lists := lists.(spareTasks := lists.spareTasks[1..], general := lists.general + [x],
                      taskAt := lists.taskAt[x := General]);
    }

    /** Case 5 of _poThreadPool_runTask: the tract counts the task; the top
        of the unused task stack is filled in and queued on the tract
        (tractQueueTask). */
    method SpareToTract(job: Job, t: nat) returns (x: nat)
      requires Valid() && lists.spareTasks != [] && t < tracts.Length
      modifies this, task, tracts
      ensures x == old(tasks.unused) && V() == PoolSteps.SpareToTract(old(V()), job, t)
    {
      TaskEnds(V());
      TaskLinks(V());
      tracts[t] := tracts[t].(taskCount := tracts[t].taskCount + 1);
      x := tasks.unused;
      tasks := tasks.(unused := task[x].next);
      task[x] := task[x].(job := job, tract := t);
      TractQueueTask(x);
      lists := lists.(spareTasks := lists.spareTasks[1..], tractQueue := lists.tractQueue[t := lists.tractQueue[t] + [x]],
                      taskAt := lists.taskAt[x := InTract(t)]);
    }

    /** Step 3 of lookForWork, tract held by a worker: the front task leaves
        the general queue and is queued on its tract (tractQueueTask). */
    method GeneralToTract()
      requires Valid() && lists.general != [] && 0 <= task[tasks.front].tract < tracts.Length
      modifies this, task, tracts
      ensures V() == PoolSteps.GeneralToTract(old(V()))
    {
      TaskEnds(V());
      TaskLinks(V());
      var x := tasks.front;
      tasks := tasks.(front := task[x].next);
      if tasks.front == Null {
        tasks := tasks.(back := Null);
      }
      var u := task[x].tract;
      TractQueueTask(x);
      lists := lists.(general := lists.general[1..], tractQueue := lists.tractQueue[u := lists.tractQueue[u] + [x]],
                      taskAt := lists.taskAt[x := InTract(u)]);
    }

    /** Step 2 of lookForWork: the front of tract `u`'s private queue is
        taken; the tract counts one task less and the record goes back on
        the unused task stack. */
    method TractToSpare(u: nat) returns (x: nat)
      requires Valid() && u < tracts.Length && tracts[u].firstTask != Null
      modifies this, task, tracts
      ensures x == old(tracts[u].firstTask) && V() == PoolSteps.TractToSpare(old(V()), u)
    {
      TractFront(V(), u);
      ghost var tk, tr, un := task[..], tracts[..], tasks.unused;
      x := tracts[u].firstTask;
      var n := task[x].next;
      tracts[u] := tracts[u].(firstTask := n);
      if n == Null {
        tracts[u] := tracts[u].(lastTask := Null);
      }
      task[x] := task[x].(next := tasks.unused);
      tasks := tasks.(unused := x);
      tracts[u] := tracts[u].(taskCount := tracts[u].taskCount - 1);
      assert task[..] == tk[x := tk[x].(next := un)];
      assert tracts[..] == tr[u := tr[u].(firstTask := n, lastTask := if n == Null then Null else tr[u].lastTask,
                                          taskCount := tr[u].taskCount - 1)];
      lists := lists.(spareTasks := [x] + lists.spareTasks, tractQueue := lists.tractQueue[u := lists.tractQueue[u][1..]],
                      taskAt := lists.taskAt[x := Spare]);
    }

    /** Step 3 of lookForWork for a task of no tract: it leaves the general
        queue and its record goes back on the unused task stack. */
    method GeneralTake() returns (x: nat)
      requires Valid() && lists.general != []
      modifies this, task
      ensures x == old(tasks.front) && V() == PoolSteps.GeneralTake(old(V()))
    {
      TaskEnds(V());
      x := tasks.front;
      tasks := tasks.(front := task[x].next);
      if tasks.front == Null {
        tasks := tasks.(back := Null);
      }
      task[x] := task[x].(next := tasks.unused);
      tasks := tasks.(unused := x);
      lists := lists.(spareTasks := [x] + lists.spareTasks, general := lists.general[1..], taskAt := lists.taskAt[x := Spare]);
    }

    /** Step 3 of lookForWork for a task whose tract has no worker: the
        worker lets go of its tract, if any, and is bound to the task's
        tract, which counts one task less. */
    method GeneralBind(w: nat) returns (x: nat)
      requires Valid() && lists.general != [] && w < worker.Length
      requires 0 <= task[tasks.front].tract < tracts.Length && TractRef(worker[w].tract, tracts.Length)
      modifies this, task, worker, tracts
      ensures x == old(tasks.front) && V() == PoolSteps.GeneralBind(old(V()), w)
    {
      GeneralFront(V());
      GeneralBindWrites(V(), w);
      ghost var tk, wk, tr := task[..], worker[..], tracts[..];
      x := tasks.front;
      var f, u, wt := task[x].next, task[x].tract, worker[w].tract;
      task[x] := task[x].(next := tasks.unused);
      assert task[..] == tk[x := tk[x].(next := tasks.unused)];
      tasks := TaskLists(if f == Null then Null else tasks.back, f, x);
      if wt != Null {
        tracts[wt] := tracts[wt].(worker := Null);
      }
      tracts[u] := tracts[u].(worker := w, taskCount := tracts[u].taskCount - 1);
      assert tracts[..] == Release(tr, wt)[u := tr[u].(worker := w, taskCount := tr[u].taskCount - 1)];
      worker[w] := worker[w].(tract := u);
      assert worker[..] == wk[w := wk[w].(tract := u)];
      lists := lists.(spareTasks := [x] + lists.spareTasks, general := lists.general[1..], taskAt := lists.taskAt[x := Spare]);
    }

    /** The end of lookForWork with no work: the worker lets go of its tract. */
    method Unbind(w: nat)
      requires w < worker.Length && 0 <= worker[w].tract < tracts.Length
      modifies worker, tracts
      ensures V() == PoolSteps.Unbind(old(V()), w)
    {
      tracts[worker[w].tract] := tracts[worker[w].tract].(worker := Null);
      worker[w] := worker[w].(tract := Null);
    }

    /** workerIdleYoungPop: the youngest idle worker leaves the back of the
        idle list, is handed the job and bound to the tract, if any, and is
        signalled (the signal is the Signalled state). */
    method IdleYoungPop(t: int, job: Job) returns (x: nat)
      requires Valid() && lists.idle != [] && TractRef(t, tracts.Length)
      modifies this, worker, tracts
      ensures x == old(workers.idleBack) && V() == PoolSteps.IdleYoungPop(old(V()), t, job)
    {
      YoungestIdle(V());
      ghost var wk, tr := worker[..], tracts[..];
      x := workers.idleBack;
      var n := worker[x].next;
      workers := workers.(idleBack := n);
      if n != Null {
        worker[n] := worker[n].(prev := Null);
        worker[x] := worker[x].(next := Null);
      } else {
        workers := workers.(idleFront := Null);
      }
      worker[x] := worker[x].(job := Some(job));
      if t != Null {
        tracts[t] := tracts[t].(worker := x);
        worker[x] := worker[x].(tract := t);
      }
      assert worker[..] == SetWorkerPrev(wk, n, Null)[x := wk[x].(next := Null, job := Some(job), tract := t)];
      assert tracts[..] == if t == Null then tr else tr[t := tr[t].(worker := x)];
      lists := lists.(idle := lists.idle[..|lists.idle| - 1], workerAt := lists.workerAt[x := Signalled]);
    }

    /** workerOldIdlePopSignal: the oldest idle worker leaves the front of
        the idle list and is signalled. */
    method IdleOldPop() returns (x: nat)
      requires Valid() && lists.idle != []
      modifies this, worker
      ensures x == old(workers.idleFront) && V() == PoolSteps.IdleOldPop(old(V()))
    {
      WorkerEnds(V());
      WorkerLinks(V());
      x := workers.idleFront;
      var p := worker[x].prev;
      workers := workers.(idleFront := p);
      if p != Null {
        worker[p] := worker[p].(next := Null);
        worker[x] := worker[x].(prev := Null);
      } else {
        workers := workers.(idleBack := Null);
      }
      worker[x] := worker[x].(next := Null);
      lists := lists.(idle := lists.idle[1..], workerAt := lists.workerAt[x := Signalled]);
    }

    /** workerUnusedPop and launchWorkerThread: the top of the unused worker
        stack is handed the job and bound to the tract, if any; the new
        thread counts itself and, at the top of its loop, clears the job it
        has taken over. */
    method UnusedPop(t: int, job: Job) returns (x: nat)
      requires Valid() && lists.unusedWorkers != [] && TractRef(t, tracts.Length)
      modifies this, worker, tracts
      ensures x == old(workers.unused) && V() == PoolSteps.UnusedPop(old(V()), t)
    {
      UnusedTop(V());
      ghost var wk, tr := worker[..], tracts[..];
      x := workers.unused;
      workers := workers.(unused := worker[x].next);
      worker[x] := worker[x].(next := Null);
      worker[x] := worker[x].(job := Some(job));
      if t != Null {
        tracts[t] := tracts[t].(worker := x);
        worker[x] := worker[x].(tract := t);
      }
      numThreads := numThreads + 1;
      worker[x] := worker[x].(job := None);
      assert worker[..] == wk[x := wk[x].(next := Null, job := None, tract := t)];
      assert tracts[..] == if t == Null then tr else tr[t := tr[t].(worker := x)];
      lists := lists.(unusedWorkers := lists.unusedWorkers[1..], workerAt := lists.workerAt[x := Running]);
    }

    /** The park step of workerPthreadCallback: worker `w`, running and
        with no work, becomes the back of the idle list. */
    method IdlePush(w: nat, now: int)
      requires Valid() && w < worker.Length && lists.workerAt[w] == Running
      modifies this, worker
      ensures V() == PoolSteps.IdlePush(old(V()), w, now)
    {
      WorkerEnds(V());
      WorkerLinks(V());
      worker[w] := worker[w].(job := None);
      worker[w] := worker[w].(lastWorkTime := now);
      var b := workers.idleBack;
      worker[w] := worker[w].(next := b);
      if b != Null {
        worker[b] := worker[b].(prev := w);
      } else {
        workers := workers.(idleFront := w);
      }
      workers := workers.(idleBack := w);
      lists := lists.(idle := lists.idle + [w], workerAt := lists.workerAt[w := Idle]);
    }

    /** The exit of workerPthreadCallback: the thread leaves numThreads and
        worker `w` goes on top of the unused worker stack. */
    method UnusedPush(w: nat)
      requires Valid() && w < worker.Length && lists.workerAt[w] != Unused
      modifies this, worker
      ensures V() == PoolSteps.UnusedPush(old(V()), w)
    {
      ListEnds(V());
      ThreadsRunning(V(), w);
      numThreads := numThreads - 1;
      worker[w] := worker[w].(next := workers.unused);
      workers := workers.(unused := w);
      lists := lists.(unusedWorkers := [w] + lists.unusedWorkers, workerAt := lists.workerAt[w := Unused]);
    }

    /** The top of the worker loop after a wake-up that found work: the
        thread has taken the job over and runs it. */
    method Resume(w: nat)
      requires w < worker.Length && w < |lists.workerAt|
      modifies this, worker
      ensures V() == PoolSteps.Resume(old(V()), w)
    {
      worker[w] := worker[w].(job := None);
      lists := lists.(workerAt := lists.workerAt[w := Running]);
    }

    /** tractHasRunningWorker: the tract pointer is not NULL and a worker
        holds the tract; that worker is a worker of the pool and holds the
        tract back. */
    function TractHasRunningWorker(t: int): (has: bool)
      requires Valid() && TractRef(t, tracts.Length)
      reads this, task, worker, tracts
      ensures has <==> HasTractWorker(V(), t)
      ensures has ==> 0 <= tracts[t].worker < worker.Length && worker[tracts[t].worker].tract == t
    {
      TractHolder(V(), t);
      t != Null && tracts[t].worker != Null
    }

    /** _poThreadPool_checkIdleThreadTimeout, with the clock reading `now`
        as a parameter. */
    method CheckIdleThreadTimeout(now: int) returns (r: bool)
      requires Valid()
      modifies this, worker
      ensures Valid() && (V(), r) == PoolOps.CheckIdle(old(V()), now, maxIdleTime)
    {
      CheckIdleKeeps(V(), now, maxIdleTime);
      if numThreads <= 1 {
        return false;
      }
      ListEnds(V());
      if workers.idleFront != Null && now - worker[workers.idleFront].lastWorkTime > maxIdleTime {
        IdleOldPopKeeps(V());
        var _ := IdleOldPop();
      }
      ListEnds(V());
      r := workers.idleFront != Null && workers.idleFront != workers.idleBack
           && now - worker[workers.idleFront].lastWorkTime > maxIdleTime;
    }

    /** _poThreadPool_runTask, one attempt: an idle worker, an unused
        worker, a full queue, the general queue or the tract's private
        queue, in that order. */
    method RunTask(t: int, job: Job, now: int) returns (r: Submit)
      requires Valid() && TractRef(t, tracts.Length)
      modifies this, task, worker, tracts
      ensures Valid() && (V(), r) == PoolOps.RunTask(old(V()), t, job, now, waitIfFull, maxIdleTime)
    {
      RunTaskKeeps(V(), t, job, now, waitIfFull, maxIdleTime);
      ListEnds(V());
      var has := TractHasRunningWorker(t);
      if workers.idleFront != Null && !has {
        IdleYoungPopKeeps(V(), t, job);
        var x := IdleYoungPop(t, job);
        var _ := CheckIdleThreadTimeout(now);
        return ToIdleWorker(x);
      }
      if workers.unused != Null && !has {
        var x := UnusedPop(t, job);
        return ToNewWorker(x, job);
      }
      if tasks.unused == Null {
        if !waitIfFull {
          return QueueFull;
        }
        taskWaitingToBeRun := true;
        return WouldWait;
      }
      if tasks.front != Null || !has {
        var x := SpareToGeneral(job, t);
        return GeneralQueued(x);
      }
      var x := SpareToTract(job, t);
      return TractQueued(x);
    }

    /** lookForWork, its tail call a loop: the job handed over, the front
        of the worker's own tract queue, or the front of the general queue
        (moved to its tract's queue when another worker holds that tract,
        and the search goes on). */
    method LookForWork(w: nat) returns (found: Work)
      requires Valid() && Busy(V(), w)
      modifies this, task, worker, tracts
      ensures Valid() && (V(), found) == PoolOps.LookForWork(old(V()), w)
    {
      ghost var s0 := V();
      LookForWorkKeeps(s0, w);
      while true
        invariant Valid() && Busy(V(), w) && PoolOps.LookForWork(V(), w) == PoolOps.LookForWork(s0, w)
        decreases |lists.general|
      {
        ListEnds(V());
        HeldTractRef(V(), w);
        if worker[w].job.Some? {
          return Assigned(worker[w].job.value);
        }
        var u := worker[w].tract;
        if u != Null && tracts[u].firstTask != Null {
          var x := TractToSpare(u);
          return Dequeued(x, task[x].job);
        }
        if tasks.front != Null {
          var v := task[tasks.front].tract;
          if v != Null && tracts[v].worker != Null {
            GeneralToTractKeeps(V());
            GeneralToTract();
          } else if v != Null {
            GeneralBindWrites(V(), w);
            var x := GeneralBind(w);
            return Dequeued(x, task[x].job);
          } else {
            var x := GeneralTake();
            return Dequeued(x, task[x].job);
          }
        } else {
          if u != Null {
            Unbind(w);
          }
          return NoWork;
        }
      }
    }

    /** workerPthreadCallback after a callback returns: a waiting owner is
        released, then lookForWork; with no work the thread exits during
        teardown (lastWorkerSignalCleanup) or parks on the idle list. */
    method FinishCallback(w: nat, now: int) returns (step: WorkerStep)
      requires Valid() && w < worker.Length && lists.workerAt[w] == Running
      modifies this, task, worker, tracts
      ensures Valid() && (V(), step) == PoolOps.FinishCallback(old(V()), w, now)
    {
      FinishCallbackSpec(V(), w, now);
      taskWaitingToBeRun := false;
      LookForWorkKeeps(V(), w);
      LookForWorkResult(V(), w);
      var found := LookForWork(w);
      if !found.NoWork? {
        return RunJob(found.job);
      }
      if cleanup {
        step := End(numThreads == 1);
        UnusedPush(w);
        return;
      }
      IdlePush(w, now);
      step := Wait;
    }

    /** workerPthreadCallback after the idle wait, with the wait re-checked:
        a worker still on the idle list was not signalled and waits again.
        Otherwise lookForWork; with work the loop goes round (and clears the
        job it took over), with none the thread exits, the last one during
        teardown signalling the owner. */
    method Wake(w: nat) returns (step: WorkerStep)
      requires Valid() && w < worker.Length
      requires lists.workerAt[w] == Idle || lists.workerAt[w] == Signalled
      modifies this, task, worker, tracts
      ensures Valid() && (V(), step) == PoolOps.WakeChecked(old(V()), w)
    {
      StillIdle(V(), w);
      if worker[w].prev != Null || workers.idleBack == w {
        return Wait;
      }
      WakeSpec(V(), w);
      LookForWorkKeeps(V(), w);
      LookForWorkResult(V(), w);
      var found := LookForWork(w);
      if found.NoWork? {
        step := End(cleanup && numThreads == 1);
        UnusedPush(w);
      } else {
        Resume(w);
        step := RunJob(found.job);
      }
    }

    /** poThreadPool_checkTractFinish: a tract with no task counted and no
        worker is zeroed and reported finished. */
    method CheckTractFinish(t: nat) returns (r: bool)
      requires Valid() && t < tracts.Length
      modifies tracts
      ensures Valid() && (V(), r) == PoolOps.CheckTractFinish(old(V()), t)
    {
      CheckTractFinishSpec(V(), t);
      if tracts[t].taskCount == 0 && tracts[t].worker == Null {
        tracts[t] := FreshTract;
        r := true;
      } else {
        r := false;
      }
    }

    /** _poThreadPool_destroy up to its wait: every idle worker is popped
        and signalled; with threads left, cleanup is set and the owner
        waits (`waits`) for the last one. */
    method BeginDestroy() returns (waits: bool)
      requires Valid()
      modifies this, worker
      ensures Valid() && (V(), waits) == PoolOps.BeginDestroy(old(V()))
    {
      BeginDestroySpec(V());
      while workers.idleFront != Null
        invariant Valid() && DrainIdle(V()) == DrainIdle(old(V()))
        decreases |lists.idle|
      {
        ListEnds(V());
        IdleOldPopKeeps(V());
        var _ := IdleOldPop();
      }
      if numThreads > 0 {
        cleanup := true;
        waits := true;
      } else {
        waits := false;
      }
    }
  }

  /** Where the task links can point: every tract's lastTask is NULL or a
      task; the top of the unused stack and the front of the general queue
      are the back of no private queue, and the general queue's back is
      not the top of the unused stack. */
  lemma TaskLinks(s: State)
    requires Inv(s)
    ensures forall u :: 0 <= u < |s.tracts| ==> TractRef(s.tracts[u].lastTask, |s.task|)
    ensures s.lists.spareTasks != [] ==> forall u :: 0 <= u < |s.tracts| ==> s.tracts[u].lastTask != s.tasks.unused
    ensures s.lists.general != [] ==> forall u :: 0 <= u < |s.tracts| ==> s.tracts[u].lastTask != s.tasks.front
    ensures s.lists.general != [] && s.lists.spareTasks != [] ==> s.tasks.back != s.tasks.unused
  {
    LinksInRange(s);
    Open(s);
    var at, tq := s.lists.taskAt, s.lists.tractQueue;
    forall u | 0 <= u < |s.tracts|
      ensures s.tracts[u].lastTask != Null ==> 0 <= s.tracts[u].lastTask < |at| && at[s.tracts[u].lastTask] == InTract(u)
    {
      assert QueueOK(s.task, tq[u], s.tracts[u], at, u);
    }
  }

  /** The ends of the task lists: NULL exactly when the list is empty,
      and a task otherwise. */
  lemma TaskEnds(s: State)
    requires Inv(s)
    ensures |s.lists.taskAt| == |s.task| && |s.lists.tractQueue| == |s.tracts|
    ensures (s.tasks.unused == Null <==> s.lists.spareTasks == [])
    ensures s.lists.spareTasks != [] ==> s.tasks.unused == s.lists.spareTasks[0] && 0 <= s.tasks.unused < |s.task|
    ensures (s.tasks.front == Null <==> s.lists.general == []) && (s.tasks.back == Null <==> s.lists.general == [])
    ensures s.lists.general != [] ==>
      s.tasks.front == s.lists.general[0] && 0 <= s.tasks.front < |s.task| && 0 <= s.tasks.back < |s.task|
  {
    ListEnds(s);
  }

  /** The ends of the worker lists: NULL exactly when the list is empty,
      and a worker otherwise. */
  lemma WorkerEnds(s: State)
    requires Inv(s)
    ensures |s.lists.workerAt| == |s.worker|
    ensures (s.workers.unused == Null <==> s.lists.unusedWorkers == [])
    ensures s.lists.unusedWorkers != [] ==> 0 <= s.workers.unused < |s.worker|
    ensures (s.workers.idleFront == Null <==> s.lists.idle == []) && (s.workers.idleBack == Null <==> s.lists.idle == [])
    ensures s.lists.idle != [] ==> 0 <= s.workers.idleFront < |s.worker| && 0 <= s.workers.idleBack < |s.worker|
  {
    ListEnds(s);
  }

  /** The back of a non-empty idle list is a worker holding no tract, whose
      `next` link is NULL or another worker, and NULL exactly when it is
      the only one. */
  lemma YoungestIdle(s: State)
    requires Inv(s) && s.lists.idle != []
    ensures |s.lists.workerAt| == |s.worker| && 0 <= s.workers.idleBack < |s.worker|
    ensures var b := s.workers.idleBack;
      s.worker[b].tract == Null && s.worker[b].next != b && TractRef(s.worker[b].next, |s.worker|)
  {
    ListEnds(s);
    WorkerLinks(s);
  }

  /** The top of a non-empty unused worker stack is a worker holding no tract. */
  lemma UnusedTop(s: State)
    requires Inv(s) && s.lists.unusedWorkers != []
    ensures |s.lists.workerAt| == |s.worker| && 0 <= s.workers.unused < |s.worker| && s.worker[s.workers.unused].tract == Null
  {
    ListEnds(s);
    WorkerLinks(s);
  }

  /** The first task of a tract's private queue is a task the tract counts. */
  lemma TractFront(s: State, u: nat)
    requires Inv(s) && u < |s.tracts| && s.tracts[u].firstTask != Null
    ensures u < |s.lists.tractQueue| && s.lists.tractQueue[u] != [] && s.tracts[u].firstTask == s.lists.tractQueue[u][0]
    ensures 0 <= s.tracts[u].firstTask < |s.task| && s.tracts[u].taskCount > 0
  {
    ListEnds(s);
  }

  /** The front of a non-empty general queue is a task, and the tract it
      belongs to, if any, counts it. */
  lemma GeneralFront(s: State)
    requires Inv(s) && s.lists.general != []
    ensures 0 <= s.tasks.front < |s.task| && TractRef(s.task[s.tasks.front].tract, |s.tracts|)
    ensures s.task[s.tasks.front].tract != Null ==> s.tracts[s.task[s.tasks.front].tract].taskCount > 0
  {
    ListEnds(s);
  }

  /** The worker holding a tract is a worker of the pool and holds the
      tract back. */
  lemma TractHolder(s: State, t: int)
    requires Inv(s) && TractRef(t, |s.tracts|)
    ensures t != Null && s.tracts[t].worker != Null ==>
      0 <= s.tracts[t].worker < |s.worker| && s.worker[s.tracts[t].worker].tract == t
  {
    if t != Null && s.tracts[t].worker != Null {
      LinksInRange(s);
      HeldTractRef(s, s.tracts[t].worker);
    }
  }

  /** What the worker list code relies on: the ends of the idle list do
      not point at themselves, an idle worker holds no tract, and a running
      worker is not on the idle list. */
  lemma WorkerLinks(s: State)
    requires Inv(s)
    ensures s.lists.idle != [] ==>
      s.worker[s.workers.idleBack].next != s.workers.idleBack && s.worker[s.workers.idleFront].prev != s.workers.idleFront
      && s.worker[s.workers.idleBack].tract == Null
      && TractRef(s.worker[s.workers.idleBack].next, |s.worker|) && TractRef(s.worker[s.workers.idleFront].prev, |s.worker|)
    ensures s.lists.unusedWorkers != [] ==> s.worker[s.workers.unused].tract == Null
    ensures forall w :: 0 <= w < |s.worker| && s.lists.workerAt[w] == Running ==> w != s.workers.idleBack
  {
    ListEnds(s);
    IdleEnds(s);
    Open(s);
    if s.lists.unusedWorkers != [] {
      assert s.lists.workerAt[s.lists.unusedWorkers[0]] == Unused;
    }
    var idle := s.lists.idle;
    DistinctPairwise(idle);
    if idle != [] {
      var m := |idle| - 1;
      assert s.worker[idle[m]].next == if m > 0 then idle[m - 1] else Null;
      assert s.worker[idle[0]].prev == if 0 < m then idle[1] else Null;
      assert s.lists.workerAt[idle[m]] == Idle;
    }
  }

  /** The set-up loop of poThreadPool_create over the task slab: each task
      links to the next one and the last to NULL, so the slab is one list
      0, 1, .., n-1. */
  method LinkTasks(a: array<Task>) returns (ghost s: seq<nat>)
    modifies a
    ensures IsIota(s) && |s| == a.Length && TaskChain(a[..], s)
    ensures forall k :: 0 <= k < a.Length ==> a[k].job == old(a[k].job) && a[k].tract == old(a[k].tract)
  {
    s := seq(a.Length, i => i);
    if a.Length > 0 {
      var i := 0;
      while i < a.Length - 1
        invariant 0 <= i <= a.Length - 1
        invariant forall k :: 0 <= k < i ==> a[k].next == k + 1
        invariant forall k :: 0 <= k < a.Length ==> a[k].job == old(a[k].job) && a[k].tract == old(a[k].tract)
      {
        a[i] := a[i].(next := i + 1);
        i := i + 1;
      }
      a[i] := a[i].(next := Null);
    }
    IotaChain(a[..], s);
  }

  /** The same loop over the worker slab, which leaves the slab one stack
      0, 1, .., n-1; the other fields are left as they were. */
  method LinkWorkers(a: array<Worker>) returns (ghost s: seq<nat>)
    requires forall k :: 0 <= k < a.Length ==> a[k].prev == Null
    modifies a
    ensures IsIota(s) && |s| == a.Length && WorkerStack(a[..], s)
    ensures forall k :: 0 <= k < a.Length ==> a[k].(next := Null) == old(a[k]).(next := Null)
  {
    s := seq(a.Length, i => i);
    if a.Length > 0 {
      var i := 0;
      while i < a.Length - 1
        invariant 0 <= i <= a.Length - 1
        invariant forall k :: 0 <= k < i ==> a[k].next == k + 1
        invariant forall k :: 0 <= k < a.Length ==> a[k].(next := Null) == old(a[k]).(next := Null)
      {
        a[i] := a[i].(next := i + 1);
        i := i + 1;
      }
      a[i] := a[i].(next := Null);
    }
    IotaStack(a[..], s);
  }
}
