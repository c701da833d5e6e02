/** The parts of the pool invariant (lib/_threadPool.h), each stated on the
    values of the fields it reads, and how each part survives a single record
    write.  A step that leaves a part's fields alone keeps that part for free. */
module PoolState {
  import opened Lists
  import opened PoolRecords

  /** A tract pointer: NULL or a tract of the table. */
  predicate TractRef(t: int, n: nat) {
    t == Null || 0 <= t < n
  }

  /** The place maps cover the slabs, and every private queue named is a tract of the table. */
  ghost predicate ShapeOK(at: seq<TaskPlace>, wat: seq<WorkerState>, tq: seq<seq<nat>>, nt: nat, nw: nat, nr: nat) {
    |at| == nt && |wat| == nw && |tq| == nr
    && (forall i :: 0 <= i < |at| && at[i].InTract? ==> at[i].tract < nr)
  }

  /** The unused task stack (POThreadPool_tasks::unused). */
  ghost predicate SpareOK(tk: seq<Task>, s: seq<nat>, top: int, at: seq<TaskPlace>) {
    TaskChain(tk, s) && top == Head(s) && Enumerates(s, at, Spare)
  }

  /** The general queue (front .. back); its tasks name no tract or a tract of the table. */
  ghost predicate GeneralOK(tk: seq<Task>, g: seq<nat>, front: int, back: int, at: seq<TaskPlace>, n: nat) {
    TaskChain(tk, g) && front == Head(g) && back == Back(g) && Enumerates(g, at, General)
    && (forall k :: 0 <= k < |g| ==> TractRef(tk[g[k]].tract, n))
  }

  /** The private queue of tract `t` (firstTask .. lastTask) holds tasks of that tract. */
  ghost predicate QueueOK(tk: seq<Task>, q: seq<nat>, r: Tract, at: seq<TaskPlace>, t: nat) {
    TaskChain(tk, q) && r.firstTask == Head(q) && r.lastTask == Back(q)
    && Enumerates(q, at, InTract(t))
    && (forall k :: 0 <= k < |q| ==> tk[q[k]].tract == t)
  }

  ghost predicate TractsOK(tk: seq<Task>, tr: seq<Tract>, tq: seq<seq<nat>>, at: seq<TaskPlace>) {
    |tq| == |tr| && forall t :: 0 <= t < |tr| ==> QueueOK(tk, tq[t], tr[t], at, t)
  }

  /** The unused worker stack; every other worker has a thread. */
  ghost predicate UnusedOK(wk: seq<Worker>, s: seq<nat>, top: int, wat: seq<WorkerState>, numThreads: nat) {
    WorkerStack(wk, s) && top == Head(s) && Enumerates(s, wat, Unused) && numThreads + |s| == |wk|
  }

  /** The idle list, oldest (idleFront) first. */
  ghost predicate IdleOK(wk: seq<Worker>, s: seq<nat>, front: int, back: int, wat: seq<WorkerState>) {
    IdleChain(wk, s) && front == Head(s) && back == Back(s) && Enumerates(s, wat, Idle)
  }

  ghost predicate RecordsOK(wk: seq<Worker>, wat: seq<WorkerState>) {
    forall w :: 0 <= w < |wk| && w < |wat| ==> Fits(wk[w], wat[w])
  }

  /** tract->worker == w iff w->tract == tract. */
  ghost predicate BindingsOK(wk: seq<Worker>, tr: seq<Tract>) {
    (forall t :: 0 <= t < |tr| ==>
       tr[t].worker == Null || (0 <= tr[t].worker < |wk| && wk[tr[t].worker].tract == t))
    && (forall w :: 0 <= w < |wk| ==>
       wk[w].tract == Null || (0 <= wk[w].tract < |tr| && tr[wk[w].tract].worker == w))
  }

  /** Idle workers exist only while the general queue is empty, and the
      general queue fills only once every worker has a thread. */
  ghost predicate CrossOK(idle: seq<nat>, g: seq<nat>, unused: seq<nat>) {
    (idle != [] ==> g == []) && (g != [] ==> unused == [])
  }

  /** Only a tract with a bound worker has a non-empty private queue. */
  ghost predicate HeldOK(tq: seq<seq<nat>>, tr: seq<Tract>) {
    forall t :: 0 <= t < |tr| && t < |tq| && tq[t] != [] ==> tr[t].worker != Null
  }

  /** The queued tasks of tract `u` in the order they will be taken: its
      private queue, then its tasks in the general queue. */
  ghost function Pending(tk: seq<Task>, g: seq<nat>, tq: seq<seq<nat>>, u: nat): seq<nat>
    requires u < |tq|
  {
    tq[u] + Filter(g, tk, u)
  }

  /** tract->taskCount counts the queued tasks of the tract. */
  ghost predicate CountsOK(tk: seq<Task>, g: seq<nat>, tq: seq<seq<nat>>, tr: seq<Tract>) {
    forall u :: 0 <= u < |tr| && u < |tq| ==> tr[u].taskCount == |Pending(tk, g, tq, u)|
  }

  /** The invariant of lib/_threadPool.h and lib/threadPool.h on the fields
      of a pool and the lists they spell out. */
  ghost predicate PoolOK(tk: seq<Task>, wk: seq<Worker>, tr: seq<Tract>,
                         spare: seq<nat>, g: seq<nat>, tq: seq<seq<nat>>, at: seq<TaskPlace>,
                         unused: seq<nat>, idle: seq<nat>, wat: seq<WorkerState>,
                         tasksUnused: int, tasksFront: int, tasksBack: int,
                         workersUnused: int, idleFront: int, idleBack: int, numThreads: nat)
  {
    ShapeOK(at, wat, tq, |tk|, |wk|, |tr|)
    && SpareOK(tk, spare, tasksUnused, at)
    && GeneralOK(tk, g, tasksFront, tasksBack, at, |tr|)
    && TractsOK(tk, tr, tq, at)
    && UnusedOK(wk, unused, workersUnused, wat, numThreads)
    && IdleOK(wk, idle, idleFront, idleBack, wat)
    && RecordsOK(wk, wat)
    && BindingsOK(wk, tr)
    && CrossOK(idle, g, unused)
    && HeldOK(tq, tr)
    && CountsOK(tk, g, tq, tr)
  }

  // How the tract queues survive writes that do not touch them.

  /** A task record outside every private queue may be rewritten. */
  lemma TractsTaskWrite(tk: seq<Task>, tr: seq<Tract>, tq: seq<seq<nat>>, at: seq<TaskPlace>, x: nat, r: Task)
    requires TractsOK(tk, tr, tq, at) && x < |tk| && x < |at| && !at[x].InTract?
    ensures TractsOK(tk[x := r], tr, tq, at)
  {
    forall t | 0 <= t < |tr| ensures QueueOK(tk[x := r], tq[t], tr[t], at, t) {
      var q := tq[t];
      assert QueueOK(tk, q, tr[t], at, t);
      assert x !in q;
      TaskChainWrite(tk, q, x, r);
      forall k | 0 <= k < |q| ensures tk[x := r][q[k]].tract == t {
        assert q[k] != x;
      }
    }
  }

  /** A slot outside every private queue may move between places that are not private queues. */
  lemma TractsPlaceWrite(tk: seq<Task>, tr: seq<Tract>, tq: seq<seq<nat>>, at: seq<TaskPlace>, x: nat, p: TaskPlace)
    requires TractsOK(tk, tr, tq, at) && x < |at| && !at[x].InTract? && !p.InTract?
    ensures TractsOK(tk, tr, tq, at[x := p])
  {
    forall t | 0 <= t < |tr| ensures QueueOK(tk, tq[t], tr[t], at[x := p], t) {
      assert QueueOK(tk, tq[t], tr[t], at, t);
      EnumeratesFrame(tq[t], at, InTract(t), x, p);
    }
  }

  /** Only the queue ends of a tract record matter to its queue. */
  lemma TractsRecordWrite(tk: seq<Task>, tr: seq<Tract>, tq: seq<seq<nat>>, at: seq<TaskPlace>, t: nat, r: Tract)
    requires TractsOK(tk, tr, tq, at) && t < |tr|
    requires r.firstTask == tr[t].firstTask && r.lastTask == tr[t].lastTask
    ensures TractsOK(tk, tr[t := r], tq, at)
  {
    forall u | 0 <= u < |tr| ensures QueueOK(tk, tq[u], tr[t := r][u], at, u) {
      assert QueueOK(tk, tq[u], tr[u], at, u);
    }
  }

  /** Counts do not depend on the tasks' links, only on their tracts. */
  lemma CountsTaskWrite(tk: seq<Task>, g: seq<nat>, tq: seq<seq<nat>>, tr: seq<Tract>, x: nat, r: Task)
    requires CountsOK(tk, g, tq, tr) && x < |tk| && (x !in g || r.tract == tk[x].tract)
    ensures CountsOK(tk[x := r], g, tq, tr)
  {
    forall u | 0 <= u < |tr| && u < |tq| ensures tr[u].taskCount == |Pending(tk[x := r], g, tq, u)| {
      FilterWrite(g, tk, x, r, u);
    }
  }

  lemma ShapePlaceWrite(at: seq<TaskPlace>, wat: seq<WorkerState>, tq: seq<seq<nat>>, nt: nat, nw: nat, nr: nat,
                        x: nat, p: TaskPlace)
    requires ShapeOK(at, wat, tq, nt, nw, nr) && x < |at| && (p.InTract? ==> p.tract < nr)
    ensures ShapeOK(at[x := p], wat, tq, nt, nw, nr)
  {
  }

  /** Rewriting a tract record without touching its worker keeps the bindings. */
  lemma BindingsTractWrite(wk: seq<Worker>, tr: seq<Tract>, t: nat, r: Tract)
    requires BindingsOK(wk, tr) && t < |tr| && r.worker == tr[t].worker
    ensures BindingsOK(wk, tr[t := r])
  {
  }

  lemma HeldTractWrite(tq: seq<seq<nat>>, tr: seq<Tract>, t: nat, r: Tract)
    requires HeldOK(tq, tr) && t < |tr| && r.worker == tr[t].worker
    ensures HeldOK(tq, tr[t := r])
  {
  }

  // Frames for steps that rewrite several records at once.

  /** Two slabs that differ at most in records `a` and `b`. */
  ghost predicate AgreeExcept(tk: seq<Task>, tk': seq<Task>, a: int, b: int) {
    |tk'| == |tk| && forall i :: 0 <= i < |tk| && i != a && i != b ==> tk'[i] == tk[i]
  }

  lemma TaskChainAgree(tk: seq<Task>, tk': seq<Task>, s: seq<nat>, a: int, b: int)
    requires TaskChain(tk, s) && AgreeExcept(tk, tk', a, b) && a !in s && b !in s
    ensures TaskChain(tk', s)
  {
    forall k | 0 <= k < |s| ensures tk'[s[k]] == tk[s[k]] {
      assert s[k] in s;
    }
  }

  /** Two tract tables whose records have the same queue ends. */
  ghost predicate SameEnds(tr: seq<Tract>, tr': seq<Tract>) {
    |tr'| == |tr| && forall u :: 0 <= u < |tr| ==> tr'[u].firstTask == tr[u].firstTask && tr'[u].lastTask == tr[u].lastTask
  }

  /** Two tract tables whose records have the same bound workers. */
  ghost predicate SameWorkers(tr: seq<Tract>, tr': seq<Tract>) {
    |tr'| == |tr| && forall u :: 0 <= u < |tr| ==> tr'[u].worker == tr[u].worker
  }

  /** Two tract tables whose records have the same task counts. */
  ghost predicate SameCounts(tr: seq<Tract>, tr': seq<Tract>) {
    |tr'| == |tr| && forall u :: 0 <= u < |tr| ==> tr'[u].taskCount == tr[u].taskCount
  }

  lemma TractsSameEnds(tk: seq<Task>, tr: seq<Tract>, tr': seq<Tract>, tq: seq<seq<nat>>, at: seq<TaskPlace>)
    requires TractsOK(tk, tr, tq, at) && SameEnds(tr, tr')
    ensures TractsOK(tk, tr', tq, at)
  {
    forall u | 0 <= u < |tr'| ensures QueueOK(tk, tq[u], tr'[u], at, u) {
      assert QueueOK(tk, tq[u], tr[u], at, u);
    }
  }

  lemma BindingsSameWorkers(wk: seq<Worker>, tr: seq<Tract>, tr': seq<Tract>)
    requires BindingsOK(wk, tr) && SameWorkers(tr, tr')
    ensures BindingsOK(wk, tr')
  {
  }

  lemma HeldSameWorkers(tq: seq<seq<nat>>, tr: seq<Tract>, tr': seq<Tract>)
    requires HeldOK(tq, tr) && SameWorkers(tr, tr')
    ensures HeldOK(tq, tr')
  {
  }

  lemma CountsSameCounts(tk: seq<Task>, g: seq<nat>, tq: seq<seq<nat>>, tr: seq<Tract>, tr': seq<Tract>)
    requires CountsOK(tk, g, tq, tr) && SameCounts(tr, tr')
    ensures CountsOK(tk, g, tq, tr')
  {
  }

  /** The task side of the invariant: the unused task stack, the general
      queue, the private queues and the task counts. */
  ghost predicate TaskSideOK(tk: seq<Task>, tr: seq<Tract>, spare: seq<nat>, g: seq<nat>, tq: seq<seq<nat>>,
                             at: seq<TaskPlace>, tasksUnused: int, tasksFront: int, tasksBack: int)
  {
    |tq| == |tr|
    && SpareOK(tk, spare, tasksUnused, at)
    && GeneralOK(tk, g, tasksFront, tasksBack, at, |tr|)
    && TractsOK(tk, tr, tq, at)
    && CountsOK(tk, g, tq, tr)
  }

  /** A step that changes only the task side keeps the invariant when the
      new task side holds, no tract changes hands and the cross conditions
      still hold. */
  lemma TaskSideSwap(tk: seq<Task>, wk: seq<Worker>, tr: seq<Tract>,
                     spare: seq<nat>, g: seq<nat>, tq: seq<seq<nat>>, at: seq<TaskPlace>,
                     unused: seq<nat>, idle: seq<nat>, wat: seq<WorkerState>,
                     tasksUnused: int, tasksFront: int, tasksBack: int,
                     workersUnused: int, idleFront: int, idleBack: int, numThreads: nat,
                     tk': seq<Task>, tr': seq<Tract>, spare': seq<nat>, g': seq<nat>, tq': seq<seq<nat>>,
                     at': seq<TaskPlace>, tasksUnused': int, tasksFront': int, tasksBack': int)
    requires PoolOK(tk, wk, tr, spare, g, tq, at, unused, idle, wat, tasksUnused, tasksFront, tasksBack,
                    workersUnused, idleFront, idleBack, numThreads)
    requires TaskSideOK(tk', tr', spare', g', tq', at', tasksUnused', tasksFront', tasksBack')
    requires ShapeOK(at', wat, tq', |tk'|, |wk|, |tr'|) && SameWorkers(tr, tr') && HeldOK(tq', tr')
    requires CrossOK(idle, g', unused)
    ensures Sound(tk', wk, tr', spare', g', tq', at', unused, idle, wat, tasksUnused', tasksFront', tasksBack',
                  workersUnused, idleFront, idleBack, numThreads)
  {
    BindingsSameWorkers(wk, tr, tr');
    Seal(tk', wk, tr', spare', g', tq', at', unused, idle, wat, tasksUnused', tasksFront', tasksBack',
         workersUnused, idleFront, idleBack, numThreads);
  }

  /** The worker side of the invariant: the unused worker stack, the idle
      list, what each worker record holds and the tract bindings. */
  ghost predicate WorkerSideOK(wk: seq<Worker>, tr: seq<Tract>, unused: seq<nat>, idle: seq<nat>, wat: seq<WorkerState>,
                               workersUnused: int, idleFront: int, idleBack: int, numThreads: nat)
  {
    UnusedOK(wk, unused, workersUnused, wat, numThreads)
    && IdleOK(wk, idle, idleFront, idleBack, wat)
    && RecordsOK(wk, wat)
    && BindingsOK(wk, tr)
  }

  /** The invariant, put together from its sides. */
  lemma PoolIntro(tk: seq<Task>, wk: seq<Worker>, tr: seq<Tract>,
                  spare: seq<nat>, g: seq<nat>, tq: seq<seq<nat>>, at: seq<TaskPlace>,
                  unused: seq<nat>, idle: seq<nat>, wat: seq<WorkerState>,
                  tasksUnused: int, tasksFront: int, tasksBack: int,
                  workersUnused: int, idleFront: int, idleBack: int, numThreads: nat)
    requires ShapeOK(at, wat, tq, |tk|, |wk|, |tr|)
    requires TaskSideOK(tk, tr, spare, g, tq, at, tasksUnused, tasksFront, tasksBack)
    requires WorkerSideOK(wk, tr, unused, idle, wat, workersUnused, idleFront, idleBack, numThreads)
    requires CrossOK(idle, g, unused) && HeldOK(tq, tr)
    ensures Sound(tk, wk, tr, spare, g, tq, at, unused, idle, wat, tasksUnused, tasksFront, tasksBack,
                  workersUnused, idleFront, idleBack, numThreads)
  {
    Seal(tk, wk, tr, spare, g, tq, at, unused, idle, wat, tasksUnused, tasksFront, tasksBack,
         workersUnused, idleFront, idleBack, numThreads);
  }

  // The pool as one value.

  /** The lists the links of the pool spell out, and where each slot is:
      bookkeeping that exists only in the proofs. */
  datatype Layout = Layout(spareTasks: seq<nat>,          // tasks.unused, top first
                           general: seq<nat>,             // tasks.front .. tasks.back
                           tractQueue: seq<seq<nat>>,     // tract t: firstTask .. lastTask
                           taskAt: seq<TaskPlace>,
                           unusedWorkers: seq<nat>,       // workers.unused, top first
                           idle: seq<nat>,                // idleFront (oldest) .. idleBack (youngest)
                           workerAt: seq<WorkerState>)

  /** The fields of struct POThreadPool that the mutex guards, with the tract
      records, and the layout they spell out. */
  datatype State = State(task: seq<Task>, worker: seq<Worker>, tracts: seq<Tract>,
                         tasks: TaskLists, workers: WorkerLists, numThreads: nat,
                         cleanup: bool, taskWaitingToBeRun: bool, lists: Layout)

  /** PoolOK on a state. */
  ghost predicate Good(s: State) {
    PoolOK(s.task, s.worker, s.tracts, s.lists.spareTasks, s.lists.general, s.lists.tractQueue, s.lists.taskAt,
           s.lists.unusedWorkers, s.lists.idle, s.lists.workerAt, s.tasks.unused, s.tasks.front, s.tasks.back,
           s.workers.unused, s.workers.idleFront, s.workers.idleBack, s.numThreads)
  }

  /** The slab sizes and the list ends: each end is NULL exactly when its
      list is empty, and otherwise a slot of its slab. */
  ghost predicate EndsOK(tk: seq<Task>, wk: seq<Worker>, tr: seq<Tract>,
                         spare: seq<nat>, g: seq<nat>, tq: seq<seq<nat>>, at: seq<TaskPlace>,
                         unused: seq<nat>, idle: seq<nat>, wat: seq<WorkerState>,
                         tasksUnused: int, tasksFront: int, tasksBack: int,
                         workersUnused: int, idleFront: int, idleBack: int)
  {
    |at| == |tk| && |wat| == |wk| && |tq| == |tr|
    && (tasksUnused == Null <==> spare == []) && TractRef(tasksUnused, |tk|)
    && (tasksFront == Null <==> g == []) && TractRef(tasksFront, |tk|)
    && (tasksBack == Null <==> g == []) && TractRef(tasksBack, |tk|)
    && (workersUnused == Null <==> unused == []) && TractRef(workersUnused, |wk|)
    && (idleFront == Null <==> idle == []) && TractRef(idleFront, |wk|)
    && (idleBack == Null <==> idle == []) && TractRef(idleBack, |wk|)
  }

  /** A term no proof mentions except Unseal. */
  predicate Unfold(k: nat) {
    true
  }

  /** PoolOK with the list ends in the open and the rest behind the trigger
      Unfold, so the solver sees it only in the proofs that Unseal it and a
      critical section is proved one step at a time. */
  ghost predicate Sound(tk: seq<Task>, wk: seq<Worker>, tr: seq<Tract>,
                        spare: seq<nat>, g: seq<nat>, tq: seq<seq<nat>>, at: seq<TaskPlace>,
                        unused: seq<nat>, idle: seq<nat>, wat: seq<WorkerState>,
                        tasksUnused: int, tasksFront: int, tasksBack: int,
                        workersUnused: int, idleFront: int, idleBack: int, numThreads: nat)
  {
    EndsOK(tk, wk, tr, spare, g, tq, at, unused, idle, wat, tasksUnused, tasksFront, tasksBack,
           workersUnused, idleFront, idleBack)
    && forall k: nat {:trigger Unfold(k)} :: Unfold(k) ==>
         PoolOK(tk, wk, tr, spare, g, tq, at, unused, idle, wat, tasksUnused, tasksFront, tasksBack,
                workersUnused, idleFront, idleBack, numThreads)
  }

  lemma Unseal(tk: seq<Task>, wk: seq<Worker>, tr: seq<Tract>,
               spare: seq<nat>, g: seq<nat>, tq: seq<seq<nat>>, at: seq<TaskPlace>,
               unused: seq<nat>, idle: seq<nat>, wat: seq<WorkerState>,
               tasksUnused: int, tasksFront: int, tasksBack: int,
               workersUnused: int, idleFront: int, idleBack: int, numThreads: nat)
    requires Sound(tk, wk, tr, spare, g, tq, at, unused, idle, wat, tasksUnused, tasksFront, tasksBack,
                   workersUnused, idleFront, idleBack, numThreads)
    ensures PoolOK(tk, wk, tr, spare, g, tq, at, unused, idle, wat, tasksUnused, tasksFront, tasksBack,
                   workersUnused, idleFront, idleBack, numThreads)
  {
    assert Unfold(0);
  }

  /** PoolOK gives the list ends. */
  lemma Seal(tk: seq<Task>, wk: seq<Worker>, tr: seq<Tract>,
             spare: seq<nat>, g: seq<nat>, tq: seq<seq<nat>>, at: seq<TaskPlace>,
             unused: seq<nat>, idle: seq<nat>, wat: seq<WorkerState>,
             tasksUnused: int, tasksFront: int, tasksBack: int,
             workersUnused: int, idleFront: int, idleBack: int, numThreads: nat)
    requires PoolOK(tk, wk, tr, spare, g, tq, at, unused, idle, wat, tasksUnused, tasksFront, tasksBack,
                    workersUnused, idleFront, idleBack, numThreads)
    ensures Sound(tk, wk, tr, spare, g, tq, at, unused, idle, wat, tasksUnused, tasksFront, tasksBack,
                  workersUnused, idleFront, idleBack, numThreads)
  {
    assert spare != [] ==> spare[0] < |tk|;
    assert g != [] ==> g[0] < |tk| && g[|g| - 1] < |tk|;
    assert unused != [] ==> unused[0] < |wk|;
    assert idle != [] ==> idle[0] < |wk| && idle[|idle| - 1] < |wk|;
  }

  /** TaskSideOK behind the trigger Unfold. */
  ghost predicate TaskSealed(tk: seq<Task>, tr: seq<Tract>, spare: seq<nat>, g: seq<nat>, tq: seq<seq<nat>>,
                             at: seq<TaskPlace>, tasksUnused: int, tasksFront: int, tasksBack: int)
  {
    forall k: nat {:trigger Unfold(k)} :: Unfold(k) ==> TaskSideOK(tk, tr, spare, g, tq, at, tasksUnused, tasksFront, tasksBack)
  }

  /** WorkerSideOK behind the trigger Unfold. */
  ghost predicate WorkerSealed(wk: seq<Worker>, tr: seq<Tract>, unused: seq<nat>, idle: seq<nat>, wat: seq<WorkerState>,
                               workersUnused: int, idleFront: int, idleBack: int, numThreads: nat)
  {
    forall k: nat {:trigger Unfold(k)} :: Unfold(k) ==>
      WorkerSideOK(wk, tr, unused, idle, wat, workersUnused, idleFront, idleBack, numThreads)
  }

  /** The two sides of a sound pool, each still sealed, and the small
      conditions between them. */
  lemma Split(tk: seq<Task>, wk: seq<Worker>, tr: seq<Tract>,
              spare: seq<nat>, g: seq<nat>, tq: seq<seq<nat>>, at: seq<TaskPlace>,
              unused: seq<nat>, idle: seq<nat>, wat: seq<WorkerState>,
              tasksUnused: int, tasksFront: int, tasksBack: int,
              workersUnused: int, idleFront: int, idleBack: int, numThreads: nat)
    requires Sound(tk, wk, tr, spare, g, tq, at, unused, idle, wat, tasksUnused, tasksFront, tasksBack,
                   workersUnused, idleFront, idleBack, numThreads)
    ensures TaskSealed(tk, tr, spare, g, tq, at, tasksUnused, tasksFront, tasksBack)
    ensures WorkerSealed(wk, tr, unused, idle, wat, workersUnused, idleFront, idleBack, numThreads)
    ensures ShapeOK(at, wat, tq, |tk|, |wk|, |tr|) && CrossOK(idle, g, unused) && HeldOK(tq, tr)
  {
    assert Unfold(0);
  }

  /** The converse of Split. */
  lemma Join(tk: seq<Task>, wk: seq<Worker>, tr: seq<Tract>,
             spare: seq<nat>, g: seq<nat>, tq: seq<seq<nat>>, at: seq<TaskPlace>,
             unused: seq<nat>, idle: seq<nat>, wat: seq<WorkerState>,
             tasksUnused: int, tasksFront: int, tasksBack: int,
             workersUnused: int, idleFront: int, idleBack: int, numThreads: nat)
    requires TaskSealed(tk, tr, spare, g, tq, at, tasksUnused, tasksFront, tasksBack)
    requires WorkerSealed(wk, tr, unused, idle, wat, workersUnused, idleFront, idleBack, numThreads)
    requires ShapeOK(at, wat, tq, |tk|, |wk|, |tr|) && CrossOK(idle, g, unused) && HeldOK(tq, tr)
    ensures Sound(tk, wk, tr, spare, g, tq, at, unused, idle, wat, tasksUnused, tasksFront, tasksBack,
                  workersUnused, idleFront, idleBack, numThreads)
  {
    assert Unfold(0);
    Seal(tk, wk, tr, spare, g, tq, at, unused, idle, wat, tasksUnused, tasksFront, tasksBack,
         workersUnused, idleFront, idleBack, numThreads);
  }

  /** The pool invariant on a state. */
  ghost predicate Inv(s: State) {
    Sound(s.task, s.worker, s.tracts, s.lists.spareTasks, s.lists.general, s.lists.tractQueue, s.lists.taskAt,
          s.lists.unusedWorkers, s.lists.idle, s.lists.workerAt, s.tasks.unused, s.tasks.front, s.tasks.back,
          s.workers.unused, s.workers.idleFront, s.workers.idleBack, s.numThreads)
  }

  lemma Open(s: State)
    requires Inv(s)
    ensures Good(s)
  {
    assert Unfold(0);
  }

  lemma Close(s: State)
    requires Good(s)
    ensures Inv(s)
  {
    Seal(s.task, s.worker, s.tracts, s.lists.spareTasks, s.lists.general, s.lists.tractQueue, s.lists.taskAt,
         s.lists.unusedWorkers, s.lists.idle, s.lists.workerAt, s.tasks.unused, s.tasks.front, s.tasks.back,
         s.workers.unused, s.workers.idleFront, s.workers.idleBack, s.numThreads);
  }

  /** The queued tasks of tract `u`, in the order the pool hands them out. */
  ghost function Queued(s: State, u: nat): seq<nat>
    requires u < |s.lists.tractQueue|
  {
    Pending(s.task, s.lists.general, s.lists.tractQueue, u)
  }

  /** The list ends: each is NULL exactly when its list is empty, and
      otherwise a slot of its slab. */
  lemma ListEnds(s: State)
    requires Inv(s)
    ensures |s.lists.taskAt| == |s.task| && |s.lists.workerAt| == |s.worker| && |s.lists.tractQueue| == |s.tracts|
    ensures (s.tasks.unused == Null <==> s.lists.spareTasks == [])
    ensures s.lists.spareTasks != [] ==> s.tasks.unused == s.lists.spareTasks[0] && 0 <= s.tasks.unused < |s.task|
    ensures (s.tasks.front == Null <==> s.lists.general == []) && (s.tasks.back == Null <==> s.lists.general == [])
    ensures s.lists.general != [] ==>
      s.tasks.front == s.lists.general[0] && 0 <= s.tasks.front < |s.task|
      && 0 <= s.tasks.back < |s.task| && TractRef(s.task[s.tasks.front].tract, |s.tracts|)
    ensures (s.workers.unused == Null <==> s.lists.unusedWorkers == [])
    ensures s.lists.unusedWorkers != [] ==> 0 <= s.workers.unused < |s.worker|
    ensures (s.workers.idleFront == Null <==> s.lists.idle == []) && (s.workers.idleBack == Null <==> s.lists.idle == [])
    ensures s.lists.idle != [] ==> 0 <= s.workers.idleFront < |s.worker| && 0 <= s.workers.idleBack < |s.worker|
    ensures s.lists.idle != [] ==> s.lists.general == []
    ensures s.lists.general != [] ==> s.lists.unusedWorkers == []
    ensures forall u :: 0 <= u < |s.tracts| ==>
      (s.tracts[u].firstTask == Null <==> s.lists.tractQueue[u] == [])
      && (s.lists.tractQueue[u] != [] ==>
            s.tracts[u].firstTask == s.lists.tractQueue[u][0] && 0 <= s.tracts[u].firstTask < |s.task|
            && s.tracts[u].taskCount > 0)
    ensures s.lists.general != [] && s.task[s.tasks.front].tract != Null ==>
      s.tracts[s.task[s.tasks.front].tract].taskCount > 0
  {
    Open(s);
    var g := s.lists.general;
    if g != [] && s.task[g[0]].tract != Null {
      var u := s.task[g[0]].tract;
      assert Filter(g, s.task, u) == [g[0]] + Filter(g[1..], s.task, u);
      assert s.tracts[u].taskCount == |Pending(s.task, g, s.lists.tractQueue, u)|;
    }
    forall u | 0 <= u < |s.tracts|
      ensures s.lists.tractQueue[u] != [] ==> s.tracts[u].taskCount > 0
    {
      assert s.tracts[u].taskCount == |Pending(s.task, s.lists.general, s.lists.tractQueue, u)|;
    }
    forall u | 0 <= u < |s.tracts|
      ensures (s.tracts[u].firstTask == Null <==> s.lists.tractQueue[u] == [])
    {
      assert QueueOK(s.task, s.lists.tractQueue[u], s.tracts[u], s.lists.taskAt, u);
    }
  }

  /** A tract no worker holds has nothing in its private queue. */
  lemma Unheld(s: State, u: nat)
    requires Inv(s) && u < |s.tracts| && s.tracts[u].worker == Null
    ensures s.lists.tractQueue[u] == []
  {
    Open(s);
  }

  /** Every link of the pool is NULL or a slot of its slab: with ListEnds,
      the pointer-range assertions lib/threadPool.c makes before it follows
      a link. */
  lemma LinksInRange(s: State)
    requires Inv(s)
    ensures forall i :: 0 <= i < |s.task| ==> TractRef(s.task[i].next, |s.task|)
    ensures forall u :: 0 <= u < |s.tracts| ==>
      TractRef(s.tracts[u].firstTask, |s.task|) && TractRef(s.tracts[u].lastTask, |s.task|)
      && TractRef(s.tracts[u].worker, |s.worker|)
    ensures forall w :: 0 <= w < |s.worker| ==>
      TractRef(s.worker[w].next, |s.worker|) && TractRef(s.worker[w].prev, |s.worker|)
      && TractRef(s.worker[w].tract, |s.tracts|)
  {
    Open(s);
    var tk, wk, tr, at, wat := s.task, s.worker, s.tracts, s.lists.taskAt, s.lists.workerAt;
    var spare, g, tq, unused, idle := s.lists.spareTasks, s.lists.general, s.lists.tractQueue, s.lists.unusedWorkers, s.lists.idle;
    forall i | 0 <= i < |tk| ensures TractRef(tk[i].next, |tk|) {
      var l := match at[i] case Spare => spare case General => g case InTract(u) => tq[u];
      if at[i].InTract? {
        assert QueueOK(tk, tq[at[i].tract], tr[at[i].tract], at, at[i].tract);
      }
      assert Enumerates(l, at, at[i]);
      var k :| 0 <= k < |l| && l[k] == i;
      assert TaskChain(tk, l);
      assert tk[l[k]].next == (if k + 1 < |l| then l[k + 1] else Null);
    }
    forall u | 0 <= u < |tr| ensures TractRef(tr[u].firstTask, |tk|) && TractRef(tr[u].lastTask, |tk|) {
      assert QueueOK(tk, tq[u], tr[u], at, u);
    }
    forall w | 0 <= w < |wk| ensures TractRef(wk[w].next, |wk|) && TractRef(wk[w].prev, |wk|) {
      assert Fits(wk[w], wat[w]);
      if wat[w] == Idle {
        var k :| 0 <= k < |idle| && idle[k] == w;
        assert wk[idle[k]].next == (if k > 0 then idle[k - 1] else Null);
      } else if wat[w] == Unused {
        var k :| 0 <= k < |unused| && unused[k] == w;
        assert wk[unused[k]].next == (if k + 1 < |unused| then unused[k + 1] else Null);
      }
    }
  }
}
