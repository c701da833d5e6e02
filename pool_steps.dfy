/** The critical sections of lib/threadPool.c as functions on the pool
    state.  Each step comes with a lemma that it keeps the invariant and
    says how it changes the queued tasks of every tract. */
module PoolSteps {
  import opened Lists
  import opened PoolRecords
  import opened PoolState
  import opened TaskSteps
  import opened WorkerSteps

  /** A worker with a thread that is not idle. */
  predicate Busy(s: State, w: nat) {
    w < |s.worker| && w < |s.lists.workerAt| && (s.lists.workerAt[w] == Running || s.lists.workerAt[w] == Signalled)
  }

  /** A worker that is not on the unused stack has a thread. */
  lemma ThreadsRunning(s: State, w: nat)
    requires Inv(s) && w < |s.lists.workerAt| && s.lists.workerAt[w] != Unused
    ensures s.numThreads > 0
  {
    Open(s);
    HasThread(s.task, s.worker, s.tracts, s.lists.spareTasks, s.lists.general, s.lists.tractQueue, s.lists.taskAt,
                 s.lists.unusedWorkers, s.lists.idle, s.lists.workerAt, s.tasks.unused, s.tasks.front, s.tasks.back,
                 s.workers.unused, s.workers.idleFront, s.workers.idleBack, s.numThreads, w);
  }

  /** Only the flags differ: the invariant does not read them. */
  lemma FlagsFree(s: State, cleanup: bool, waiting: bool)
    requires Inv(s)
    ensures Inv(s.(cleanup := cleanup, taskWaitingToBeRun := waiting))
  {
  }

  // The task side.

  /** Case 4 of _poThreadPool_runTask: the tract, if any, counts one more
      task; the top of the unused task stack is filled in and becomes the
      back of the general queue. */
  ghost function SpareToGeneral(s: State, job: Job, t: int): State
    requires Inv(s) && s.lists.spareTasks != [] && TractRef(t, |s.tracts|)
  {
    ListEnds(s);
    var x := s.tasks.unused;
    s.(task := SetTaskNext(s.task, s.tasks.back, x)[x := Task(job, Null, t)],
       tracts := if t == Null then s.tracts else s.tracts[t := s.tracts[t].(taskCount := s.tracts[t].taskCount + 1)],
       tasks := TaskLists(x, if s.tasks.back == Null then x else s.tasks.front, s.task[x].next),
       lists := s.lists.(spareTasks := s.lists.spareTasks[1..], general := s.lists.general + [x],
                         taskAt := s.lists.taskAt[x := General]))
  }

  /** Case 4 keeps the invariant, and the new task is the last queued task
      of its tract; no other tract's queued tasks change. */
  lemma SpareToGeneralKeeps(s: State, job: Job, t: int)
    requires Inv(s) && s.lists.spareTasks != [] && TractRef(t, |s.tracts|)
    requires s.lists.idle == [] && s.lists.unusedWorkers == []
    ensures var s' := SpareToGeneral(s, job, t); var x := s.tasks.unused;
      Inv(s') && s'.task[x] == Task(job, Null, t) && s'.lists.general == s.lists.general + [x]
      && |s'.lists.tractQueue| == |s.lists.tractQueue|
      && forall u :: 0 <= u < |s.lists.tractQueue| ==> Queued(s', u) == Queued(s, u) + (if u == t then [x] else [])
  {
    var s' := SpareToGeneral(s, job, t);
    SpareToGeneralFields(s.task, s.worker, s.tracts, s.lists.spareTasks, s.lists.general, s.lists.tractQueue, s.lists.taskAt,
                 s.lists.unusedWorkers, s.lists.idle, s.lists.workerAt, s.tasks.unused, s.tasks.front, s.tasks.back,
                 s.workers.unused, s.workers.idleFront, s.workers.idleBack, s.numThreads, Task(job, Null, t), s'.task, s'.tracts, s'.lists.spareTasks, s'.lists.general,
                         s'.lists.taskAt, s'.tasks.unused, s'.tasks.front, s'.tasks.back);
  }

  /** Case 5 of _poThreadPool_runTask: the tract counts one more task; the
      top of the unused task stack is filled in and goes to the back of the
      tract's private queue (tractQueueTask). */
  ghost function SpareToTract(s: State, job: Job, t: nat): State
    requires Inv(s) && s.lists.spareTasks != [] && t < |s.tracts|
  {
    ListEnds(s);
    var x := s.tasks.unused;
    var r := TractQueueTask(s.task[x := s.task[x].(job := job, tract := t)],
                            s.tracts[t := s.tracts[t].(taskCount := s.tracts[t].taskCount + 1)], x);
    s.(task := r.0, tracts := r.1, tasks := s.tasks.(unused := s.task[x].next),
       lists := s.lists.(spareTasks := s.lists.spareTasks[1..],
                         tractQueue := s.lists.tractQueue[t := s.lists.tractQueue[t] + [x]],
                         taskAt := s.lists.taskAt[x := InTract(t)]))
  }

  /** Case 5 keeps the invariant, and the new task is the last queued task
      of its tract; no other tract's queued tasks change. */
  lemma SpareToTractKeeps(s: State, job: Job, t: nat)
    requires Inv(s) && s.lists.spareTasks != [] && t < |s.tracts|
    requires s.lists.general == [] && s.tracts[t].worker != Null
    ensures var s' := SpareToTract(s, job, t); var x := s.tasks.unused;
      Inv(s') && s'.task[x] == Task(job, Null, t)
      && |s'.lists.tractQueue| == |s.lists.tractQueue|
      && forall u :: 0 <= u < |s.lists.tractQueue| ==> Queued(s', u) == Queued(s, u) + (if u == t then [x] else [])
  {
    var s' := SpareToTract(s, job, t);
    SpareToTractFields(s.task, s.worker, s.tracts, s.lists.spareTasks, s.lists.general, s.lists.tractQueue, s.lists.taskAt,
                 s.lists.unusedWorkers, s.lists.idle, s.lists.workerAt, s.tasks.unused, s.tasks.front, s.tasks.back,
                 s.workers.unused, s.workers.idleFront, s.workers.idleBack, s.numThreads, job, t, s'.task, s'.tracts, s'.lists.spareTasks, s'.lists.tractQueue,
                       s'.lists.taskAt, s'.tasks.unused);
  }

  /** Step 3 of lookForWork, when the front task's tract is held by a
      worker: the task leaves the general queue for the back of the tract's
      private queue. */
  ghost function GeneralToTract(s: State): State
    requires Inv(s) && s.lists.general != [] && 0 <= s.task[s.tasks.front].tract < |s.tracts|
  {
    ListEnds(s);
    var x := s.tasks.front;
    var u := s.task[x].tract;
    var r := TractQueueTask(s.task, s.tracts, x);
    var f := s.task[x].next;
    s.(task := r.0, tracts := r.1, tasks := s.tasks.(front := f, back := if f == Null then Null else s.tasks.back),
       lists := s.lists.(general := s.lists.general[1..],
                         tractQueue := s.lists.tractQueue[u := s.lists.tractQueue[u] + [x]],
                         taskAt := s.lists.taskAt[x := InTract(u)]))
  }

  /** Moving a task from the general queue to its tract's queue keeps the
      invariant and changes no tract's queued tasks: the order in which a
      tract's tasks will run is kept. */
  lemma GeneralToTractKeeps(s: State)
    requires Inv(s) && s.lists.general != [] && 0 <= s.task[s.tasks.front].tract < |s.tracts|
    requires s.tracts[s.task[s.tasks.front].tract].worker != Null
    ensures var s' := GeneralToTract(s);
      Inv(s') && s'.lists.general == s.lists.general[1..] && s'.worker == s.worker && s'.lists.workerAt == s.lists.workerAt
      && |s'.lists.tractQueue| == |s.lists.tractQueue|
      && forall u :: 0 <= u < |s.lists.tractQueue| ==> Queued(s', u) == Queued(s, u)
  {
    var s' := GeneralToTract(s);
    GeneralToTractFields(s.task, s.worker, s.tracts, s.lists.spareTasks, s.lists.general, s.lists.tractQueue, s.lists.taskAt,
                 s.lists.unusedWorkers, s.lists.idle, s.lists.workerAt, s.tasks.unused, s.tasks.front, s.tasks.back,
                 s.workers.unused, s.workers.idleFront, s.workers.idleBack, s.numThreads, s'.task, s'.tracts, s'.lists.general, s'.lists.tractQueue, s'.lists.taskAt,
                         s'.tasks.front, s'.tasks.back);
  }

  /** Step 2 of lookForWork: the front of the worker's tract queue is taken
      (the tract counts one task less) and its record goes back on the
      unused task stack. */
  ghost function TractToSpare(s: State, u: nat): State
    requires Inv(s) && u < |s.tracts| && s.tracts[u].firstTask != Null
  {
    ListEnds(s);
    var x := s.tracts[u].firstTask;
    var n := s.task[x].next;
    s.(task := s.task[x := s.task[x].(next := s.tasks.unused)],
       tracts := s.tracts[u := s.tracts[u].(firstTask := n, lastTask := if n == Null then Null else s.tracts[u].lastTask,
                                            taskCount := s.tracts[u].taskCount - 1)],
       tasks := s.tasks.(unused := x),
       lists := s.lists.(spareTasks := [x] + s.lists.spareTasks,
                         tractQueue := s.lists.tractQueue[u := s.lists.tractQueue[u][1..]],
                         taskAt := s.lists.taskAt[x := Spare]))
  }

  /** Taking from a tract queue keeps the invariant; the task taken is the
      first queued task of that tract and the only one to go. */
  lemma TractToSpareKeeps(s: State, u: nat)
    requires Inv(s) && u < |s.tracts| && s.tracts[u].firstTask != Null
    ensures var s' := TractToSpare(s, u); var x := s.tracts[u].firstTask;
      Inv(s') && |s'.task| == |s.task| && s'.tasks.unused == x && s'.task[x].job == s.task[x].job && s'.task[x].tract == u
      && s'.worker == s.worker && s'.lists.workerAt == s.lists.workerAt
      && s'.lists.spareTasks == [x] + s.lists.spareTasks
      && |s'.lists.tractQueue| == |s.lists.tractQueue|
      && forall v :: 0 <= v < |s.lists.tractQueue| ==> Queued(s, v) == (if v == u then [x] else []) + Queued(s', v)
  {
    ListEnds(s);
    var s' := TractToSpare(s, u);
    var x := s.tracts[u].firstTask;
    TractToSpareFields(s.task, s.worker, s.tracts, s.lists.spareTasks, s.lists.general, s.lists.tractQueue, s.lists.taskAt,
                 s.lists.unusedWorkers, s.lists.idle, s.lists.workerAt, s.tasks.unused, s.tasks.front, s.tasks.back,
                 s.workers.unused, s.workers.idleFront, s.workers.idleBack, s.numThreads, u, s'.task, s'.tracts, s'.lists.spareTasks, s'.lists.tractQueue, s'.lists.taskAt,
                       s'.tasks.unused);
  }

  /** Step 3 of lookForWork for a task of no tract: it leaves the general
      queue and its record goes back on the unused task stack. */
  ghost function GeneralTake(s: State): State
    requires Inv(s) && s.lists.general != []
  {
    ListEnds(s);
    var x := s.tasks.front;
    var f := s.task[x].next;
    s.(task := s.task[x := s.task[x].(next := s.tasks.unused)],
       tasks := TaskLists(if f == Null then Null else s.tasks.back, f, x),
       lists := s.lists.(spareTasks := [x] + s.lists.spareTasks, general := s.lists.general[1..],
                         taskAt := s.lists.taskAt[x := Spare]))
  }

  lemma GeneralTakeKeeps(s: State)
    requires Inv(s) && s.lists.general != [] && s.task[s.tasks.front].tract == Null
    ensures var s' := GeneralTake(s); var x := s.tasks.front;
      Inv(s') && |s'.task| == |s.task| && s'.tasks.unused == x && s'.task[x].job == s.task[x].job
      && s'.worker == s.worker && s'.lists.workerAt == s.lists.workerAt
      && s'.lists.spareTasks == [x] + s.lists.spareTasks
      && |s'.lists.tractQueue| == |s.lists.tractQueue|
      && forall v :: 0 <= v < |s.lists.tractQueue| ==> Queued(s', v) == Queued(s, v)
  {
    ListEnds(s);
    var s' := GeneralTake(s);
    GeneralTakeFields(s.task, s.worker, s.tracts, s.lists.spareTasks, s.lists.general, s.lists.tractQueue, s.lists.taskAt,
                 s.lists.unusedWorkers, s.lists.idle, s.lists.workerAt, s.tasks.unused, s.tasks.front, s.tasks.back,
                 s.workers.unused, s.workers.idleFront, s.workers.idleBack, s.numThreads, s'.task, s'.lists.spareTasks, s'.lists.general, s'.lists.taskAt,
                      s'.tasks.unused, s'.tasks.front, s'.tasks.back);
  }

  /** Step 3 of lookForWork for a task whose tract has no worker: the
      worker lets go of its old tract, if any, and is bound to the task's
      tract, which counts one task less; the record goes back on the
      unused task stack. */
  ghost function GeneralBind(s: State, w: nat): State
    requires Inv(s) && s.lists.general != [] && w < |s.worker|
    requires 0 <= s.task[s.tasks.front].tract < |s.tracts| && TractRef(s.worker[w].tract, |s.tracts|)
  {
    ListEnds(s);
    var x := s.tasks.front;
    var f := s.task[x].next;
    var u := s.task[x].tract;
    var wt := s.worker[w].tract;
    var tr1 := Release(s.tracts, wt);
    s.(task := s.task[x := s.task[x].(next := s.tasks.unused)],
       worker := s.worker[w := s.worker[w].(tract := u)],
       tracts := tr1[u := s.tracts[u].(worker := w, taskCount := s.tracts[u].taskCount - 1)],
       tasks := TaskLists(if f == Null then Null else s.tasks.back, f, x),
       lists := s.lists.(spareTasks := [x] + s.lists.spareTasks, general := s.lists.general[1..],
                         taskAt := s.lists.taskAt[x := Spare]))
  }

  /** The fields GeneralBind writes, one by one. */
  lemma GeneralBindWrites(s: State, w: nat)
    requires Inv(s) && s.lists.general != [] && w < |s.worker|
    requires 0 <= s.task[s.tasks.front].tract < |s.tracts| && TractRef(s.worker[w].tract, |s.tracts|)
    requires s.tracts[s.task[s.tasks.front].tract].taskCount > 0
    ensures var s' := GeneralBind(s, w); var x := s.tasks.front; var u := s.task[x].tract; var wt := s.worker[w].tract;
      var tr1 := Release(s.tracts, wt);
      var front := s.task[x].next;
      && s'.task == s.task[x := s.task[x].(next := s.tasks.unused)]
      && s'.worker == s.worker[w := s.worker[w].(tract := u)]
      && s'.tracts == tr1[u := s.tracts[u].(worker := w, taskCount := s.tracts[u].taskCount - 1)]
      && s'.lists == Layout([x] + s.lists.spareTasks, s.lists.general[1..], s.lists.tractQueue, s.lists.taskAt[x := Spare],
                            s.lists.unusedWorkers, s.lists.idle, s.lists.workerAt)
      && s'.tasks == TaskLists(if front == Null then Null else s.tasks.back, front, x)
      && s'.workers == s.workers && s'.numThreads == s.numThreads
  {
  }

  /** Binding keeps the invariant: the worker now holds the task's tract,
      the task was the first queued task of that tract, and the worker's
      old tract, which had nothing queued, is free. */
  lemma GeneralBindKeeps(s: State, w: nat)
    requires Inv(s) && s.lists.general != [] && Busy(s, w)
    requires 0 <= s.task[s.tasks.front].tract < |s.tracts| && TractRef(s.worker[w].tract, |s.tracts|)
    requires s.tracts[s.task[s.tasks.front].tract].worker == Null
    requires s.worker[w].tract != Null ==> s.tracts[s.worker[w].tract].firstTask == Null
    ensures var s' := GeneralBind(s, w); var x := s.tasks.front; var u := s.task[x].tract;
      Inv(s') && |s'.task| == |s.task| && s'.tasks.unused == x && s'.task[x].job == s.task[x].job
      && s'.worker[w].tract == u && s'.tracts[u].worker == w && s'.lists.workerAt == s.lists.workerAt
      && (s.worker[w].tract != Null ==> s'.tracts[s.worker[w].tract].worker == Null)
      && s'.lists.spareTasks == [x] + s.lists.spareTasks
  {
    ListEnds(s);
    GeneralBindWrites(s, w);
    var tr1 := Release(s.tracts, s.worker[w].tract);
    GeneralBindFields(s.task, s.worker, s.tracts, s.lists.spareTasks, s.lists.general, s.lists.tractQueue, s.lists.taskAt,
                      s.lists.unusedWorkers, s.lists.idle, s.lists.workerAt, s.tasks.unused, s.tasks.front, s.tasks.back,
                      s.workers.unused, s.workers.idleFront, s.workers.idleBack, s.numThreads, w, tr1);
  }

  /** The task GeneralBind takes was the first queued task of its tract;
      every other tract keeps its queue. */
  lemma GeneralBindQueued(s: State, w: nat)
    requires Inv(s) && s.lists.general != [] && Busy(s, w)
    requires 0 <= s.task[s.tasks.front].tract < |s.tracts| && TractRef(s.worker[w].tract, |s.tracts|)
    requires s.tracts[s.task[s.tasks.front].tract].worker == Null
    ensures var s' := GeneralBind(s, w); var x := s.tasks.front; var u := s.task[x].tract;
      |s'.lists.tractQueue| == |s.lists.tractQueue|
      && forall v :: 0 <= v < |s.lists.tractQueue| ==> Queued(s, v) == (if v == u then [x] else []) + Queued(s', v)
  {
    ListEnds(s);
    GeneralBindWrites(s, w);
    var x, g := s.tasks.front, s.lists.general;
    var u := s.task[x].tract;
    Unheld(s, u);
    forall v | 0 <= v < |s.lists.tractQueue|
      ensures Filter(g, s.task, v) == (if v == u then [x] else []) + Filter(g[1..], s.task[x := s.task[x].(next := s.tasks.unused)], v)
    {
      FilterWrite(g[1..], s.task, x, s.task[x].(next := s.tasks.unused), v);
    }
  }

  /** The end of lookForWork when there is no work: the worker lets go of
      its tract. */
  ghost function Unbind(s: State, w: nat): State
    requires w < |s.worker| && 0 <= s.worker[w].tract < |s.tracts|
  {
    var wt := s.worker[w].tract;
    s.(worker := s.worker[w := s.worker[w].(tract := Null)], tracts := s.tracts[wt := s.tracts[wt].(worker := Null)])
  }

  lemma UnbindKeeps(s: State, w: nat)
    requires Inv(s) && Busy(s, w) && 0 <= s.worker[w].tract < |s.tracts|
    requires s.tracts[s.worker[w].tract].firstTask == Null
    ensures var s' := Unbind(s, w); Inv(s') && s'.worker[w].tract == Null
  {
    var s' := Unbind(s, w);
    UnbindFields(s.task, s.worker, s.tracts, s.lists.spareTasks, s.lists.general, s.lists.tractQueue, s.lists.taskAt,
                 s.lists.unusedWorkers, s.lists.idle, s.lists.workerAt, s.tasks.unused, s.tasks.front, s.tasks.back,
                 s.workers.unused, s.workers.idleFront, s.workers.idleBack, s.numThreads, w, s'.worker, s'.tracts);
  }

  // The worker side.

  /** workerIdleYoungPop: the youngest idle worker (the back of the idle
      list) leaves the list, is handed the job and bound to the tract, if
      any, and is signalled. */
  ghost function IdleYoungPop(s: State, t: int, job: Job): State
    requires Inv(s) && s.lists.idle != [] && TractRef(t, |s.tracts|)
  {
    ListEnds(s);
    var x := s.workers.idleBack;
    var n := s.worker[x].next;
    s.(worker := SetWorkerPrev(s.worker, n, Null)[x := s.worker[x].(next := Null, job := Some(job), tract := t)],
       tracts := if t == Null then s.tracts else s.tracts[t := s.tracts[t].(worker := x)],
       workers := s.workers.(idleBack := n, idleFront := if n == Null then Null else s.workers.idleFront),
       lists := s.lists.(idle := s.lists.idle[..|s.lists.idle| - 1], workerAt := s.lists.workerAt[x := Signalled]))
  }

  lemma IdleYoungPopKeeps(s: State, t: int, job: Job)
    requires Inv(s) && s.lists.idle != [] && TractRef(t, |s.tracts|) && (t != Null ==> s.tracts[t].worker == Null)
    ensures var s' := IdleYoungPop(s, t, job); var x := s.workers.idleBack;
      Inv(s') && |s'.worker| == |s.worker| && s'.lists.idle == s.lists.idle[..|s.lists.idle| - 1]
      && s'.lists.workerAt[x] == Signalled && s'.worker[x].job == Some(job) && s'.worker[x].tract == t
      && s'.numThreads == s.numThreads
      && |s'.lists.tractQueue| == |s.lists.tractQueue|
      && forall u :: 0 <= u < |s.lists.tractQueue| ==> Queued(s', u) == Queued(s, u)
  {
    var s' := IdleYoungPop(s, t, job);
    IdlePopYoungFields(s.task, s.worker, s.tracts, s.lists.spareTasks, s.lists.general, s.lists.tractQueue, s.lists.taskAt,
                 s.lists.unusedWorkers, s.lists.idle, s.lists.workerAt, s.tasks.unused, s.tasks.front, s.tasks.back,
                 s.workers.unused, s.workers.idleFront, s.workers.idleBack, s.numThreads, t, job, s'.worker, s'.tracts, s'.lists.idle, s'.lists.workerAt,
                       s'.workers.idleFront, s'.workers.idleBack);
  }

  /** workerOldIdlePopSignal: the oldest idle worker (the front of the idle
      list) leaves the list and is signalled. */
  ghost function IdleOldPop(s: State): State
    requires Inv(s) && s.lists.idle != []
  {
    ListEnds(s);
    var x := s.workers.idleFront;
    var p := s.worker[x].prev;
    s.(worker := SetWorkerNext(s.worker, p, Null)[x := s.worker[x].(prev := Null, next := Null)],
       workers := s.workers.(idleFront := p, idleBack := if p == Null then Null else s.workers.idleBack),
       lists := s.lists.(idle := s.lists.idle[1..], workerAt := s.lists.workerAt[s.workers.idleFront := Signalled]))
  }

  lemma IdleOldPopKeeps(s: State)
    requires Inv(s) && s.lists.idle != []
    ensures var s' := IdleOldPop(s); var x := s.workers.idleFront;
      Inv(s') && |s'.worker| == |s.worker| && s'.lists.idle == s.lists.idle[1..]
      && s'.lists.workerAt == s.lists.workerAt[x := Signalled] && s'.numThreads == s.numThreads
      && s'.worker[x].job == s.worker[x].job && s'.worker[x].tract == s.worker[x].tract
      && forall v :: 0 <= v < |s.worker| && v !in s.lists.idle ==> s'.worker[v] == s.worker[v]
  {
    var s' := IdleOldPop(s);
    IdlePopOldFields(s.task, s.worker, s.tracts, s.lists.spareTasks, s.lists.general, s.lists.tractQueue, s.lists.taskAt,
                 s.lists.unusedWorkers, s.lists.idle, s.lists.workerAt, s.tasks.unused, s.tasks.front, s.tasks.back,
                 s.workers.unused, s.workers.idleFront, s.workers.idleBack, s.numThreads, s'.worker, s'.lists.idle, s'.lists.workerAt, s'.workers.idleFront, s'.workers.idleBack);
  }

  /** workerUnusedPop and the start of the new thread: the top of the unused
      worker stack is bound to the tract, if any; the new thread counts
      itself in numThreads, takes the job over (clearing it from the record)
      and runs. */
  ghost function UnusedPop(s: State, t: int): State
    requires Inv(s) && s.lists.unusedWorkers != [] && TractRef(t, |s.tracts|)
  {
    ListEnds(s);
    var x := s.workers.unused;
    s.(worker := s.worker[x := s.worker[x].(next := Null, job := None, tract := t)],
       tracts := if t == Null then s.tracts else s.tracts[t := s.tracts[t].(worker := x)],
       workers := s.workers.(unused := s.worker[x].next),
       numThreads := s.numThreads + 1,
       lists := s.lists.(unusedWorkers := s.lists.unusedWorkers[1..], workerAt := s.lists.workerAt[x := Running]))
  }

  lemma UnusedPopKeeps(s: State, t: int)
    requires Inv(s) && s.lists.unusedWorkers != [] && TractRef(t, |s.tracts|) && (t != Null ==> s.tracts[t].worker == Null)
    ensures var s' := UnusedPop(s, t); var x := s.workers.unused;
      Inv(s') && |s'.worker| == |s.worker| && s'.lists.workerAt[x] == Running && s'.worker[x].tract == t
      && s'.numThreads == s.numThreads + 1 <= |s.worker|
      && |s'.lists.tractQueue| == |s.lists.tractQueue|
      && forall u :: 0 <= u < |s.lists.tractQueue| ==> Queued(s', u) == Queued(s, u)
  {
    var s' := UnusedPop(s, t);
    UnusedPopFields(s.task, s.worker, s.tracts, s.lists.spareTasks, s.lists.general, s.lists.tractQueue, s.lists.taskAt,
                 s.lists.unusedWorkers, s.lists.idle, s.lists.workerAt, s.tasks.unused, s.tasks.front, s.tasks.back,
                 s.workers.unused, s.workers.idleFront, s.workers.idleBack, s.numThreads, t, s'.worker, s'.tracts, s'.lists.unusedWorkers, s'.lists.workerAt,
                    s'.workers.unused, s'.numThreads);
  }

  /** The park step of workerPthreadCallback: the worker clears its job,
      notes the time and becomes the back (youngest) of the idle list. */
  ghost function IdlePush(s: State, w: nat, now: int): State
    requires Inv(s) && w < |s.worker|
  {
    ListEnds(s);
    var b := s.workers.idleBack;
    s.(worker := SetWorkerPrev(s.worker[w := s.worker[w].(job := None, lastWorkTime := now, next := b)], b, w),
       workers := s.workers.(idleBack := w, idleFront := if b == Null then w else s.workers.idleFront),
       lists := s.lists.(idle := s.lists.idle + [w], workerAt := s.lists.workerAt[w := Idle]))
  }

  lemma IdlePushKeeps(s: State, w: nat, now: int)
    requires Inv(s) && w < |s.worker| && w < |s.lists.workerAt| && s.lists.workerAt[w] == Running
    requires s.worker[w].tract == Null && s.lists.general == []
    ensures var s' := IdlePush(s, w, now);
      Inv(s') && s'.lists.idle == s.lists.idle + [w] && s'.worker[w].lastWorkTime == now
      && s'.numThreads == s.numThreads
  {
    var s' := IdlePush(s, w, now);
    ParkFields(s.task, s.worker, s.tracts, s.lists.spareTasks, s.lists.general, s.lists.tractQueue, s.lists.taskAt,
                 s.lists.unusedWorkers, s.lists.idle, s.lists.workerAt, s.tasks.unused, s.tasks.front, s.tasks.back,
                 s.workers.unused, s.workers.idleFront, s.workers.idleBack, s.numThreads, w, now, s'.worker, s'.lists.idle, s'.lists.workerAt, s'.workers.idleFront, s'.workers.idleBack);
  }

  /** The exit of workerPthreadCallback: the thread leaves numThreads and
      its worker goes on top of the unused worker stack. */
  ghost function UnusedPush(s: State, w: nat): State
    requires Inv(s) && w < |s.worker| && w < |s.lists.workerAt| && s.lists.workerAt[w] != Unused
  {
    ThreadsRunning(s, w);
    s.(worker := s.worker[w := s.worker[w].(next := s.workers.unused)],
       workers := s.workers.(unused := w),
       numThreads := s.numThreads - 1,
       lists := s.lists.(unusedWorkers := [w] + s.lists.unusedWorkers, workerAt := s.lists.workerAt[w := Unused]))
  }

  lemma UnusedPushKeeps(s: State, w: nat)
    requires Inv(s) && Busy(s, w) && s.worker[w].tract == Null && s.worker[w].job.None? && s.lists.general == []
    ensures var s' := UnusedPush(s, w);
      Inv(s') && s'.lists.unusedWorkers == [w] + s.lists.unusedWorkers && s'.numThreads + 1 == s.numThreads
  {
    var s' := UnusedPush(s, w);
    ExitFields(s.task, s.worker, s.tracts, s.lists.spareTasks, s.lists.general, s.lists.tractQueue, s.lists.taskAt,
                 s.lists.unusedWorkers, s.lists.idle, s.lists.workerAt, s.tasks.unused, s.tasks.front, s.tasks.back,
                 s.workers.unused, s.workers.idleFront, s.workers.idleBack, s.numThreads, w, s'.worker, s'.lists.unusedWorkers, s'.lists.workerAt, s'.numThreads);
  }

  /** The top of the worker loop (userCallback = NULL) for a signalled
      worker that found its job: the thread has taken the job over and runs. */
  ghost function Resume(s: State, w: nat): State
    requires w < |s.worker| && w < |s.lists.workerAt|
  {
    s.(worker := s.worker[w := s.worker[w].(job := None)], lists := s.lists.(workerAt := s.lists.workerAt[w := Running]))
  }

  lemma ResumeKeeps(s: State, w: nat)
    requires Inv(s) && w < |s.worker| && w < |s.lists.workerAt| && s.lists.workerAt[w] == Signalled
    ensures var s' := Resume(s, w); Inv(s') && s'.lists.workerAt[w] == Running && s'.numThreads == s.numThreads
  {
    var s' := Resume(s, w);
    WakeFields(s.task, s.worker, s.tracts, s.lists.spareTasks, s.lists.general, s.lists.tractQueue, s.lists.taskAt,
                 s.lists.unusedWorkers, s.lists.idle, s.lists.workerAt, s.tasks.unused, s.tasks.front, s.tasks.back,
                 s.workers.unused, s.workers.idleFront, s.workers.idleBack, s.numThreads, w);
  }
}
