/** The critical sections of lib/threadPool.c on the parts of the invariant
    they touch: each lemma takes the old field values and shows the parts
    hold of the new ones, and how the queued tasks of every tract change. */
module TaskSteps {
  import opened Lists
  import opened PoolRecords
  import opened PoolState

  /** The task side of what poThreadPool_create leaves behind: every task on
      the unused stack, linked 0 -> 1 -> .. -> n-1; empty queues; zeroed tracts. */
  lemma InitialTasks(tk: seq<Task>, spare: seq<nat>, at: seq<TaskPlace>, tr: seq<Tract>, tq: seq<seq<nat>>)
    requires IsIota(spare) && |spare| == |tk| && TaskChain(tk, spare)
    requires |at| == |tk| && AllIn(at, Spare)
    requires |tq| == |tr| && AllIn(tr, FreshTract) && AllIn(tq, [])
    ensures SpareOK(tk, spare, Head(spare), at)
    ensures GeneralOK(tk, [], Null, Null, at, |tr|)
    ensures TractsOK(tk, tr, tq, at)
    ensures CountsOK(tk, [], tq, tr)
  {
    IotaEnumerates(spare, at, Spare);
    EnumeratesNone(at, General);
    forall t | 0 <= t < |tr| ensures QueueOK(tk, tq[t], tr[t], at, t) {
      EnumeratesNone(at, InTract(t));
    }
    forall u | 0 <= u < |tr| ensures tr[u].taskCount == |Pending(tk, [], tq, u)| {
      assert Pending(tk, [], tq, u) == [];
    }
  }

  /** The worker side: every worker on the unused stack, linked 0 -> 1 -> ..
      -> m-1, with no job and no tract; no thread and no idle worker. */
  lemma InitialWorkers(wk: seq<Worker>, unused: seq<nat>, wat: seq<WorkerState>, tr: seq<Tract>)
    requires IsIota(unused) && |unused| == |wk| && WorkerStack(wk, unused)
    requires |wat| == |wk| && AllIn(wat, Unused) && AllIn(tr, FreshTract)
    requires forall w :: 0 <= w < |wk| ==> Fits(wk[w], Unused)
    ensures UnusedOK(wk, unused, Head(unused), wat, 0)
    ensures IdleOK(wk, [], Null, Null, wat)
    ensures RecordsOK(wk, wat)
    ensures BindingsOK(wk, tr)
  {
    IotaEnumerates(unused, wat, Unused);
    EnumeratesNone(wat, Idle);
  }

  /** Case 4 of _poThreadPool_runTask on the unused stack: it loses its top. */
  lemma SpareToGeneralSpare(tk: seq<Task>, spare: seq<nat>, g: seq<nat>, front: int, back: int,
                            at: seq<TaskPlace>, n: nat, r: Task)
    requires SpareOK(tk, spare, Head(spare), at) && GeneralOK(tk, g, front, back, at, n) && spare != []
    ensures SpareOK(SetTaskNext(tk, back, spare[0])[spare[0] := r], spare[1..], tk[spare[0]].next, at[spare[0] := General])
  {
    var x := spare[0];
    var tk1 := SetTaskNext(tk, back, x);
    assert at[x] == Spare;
    TaskChainTail(tk, spare);
    if g != [] {
      assert at[back] == General;
      TaskChainWrite(tk, spare[1..], back, tk1[back]);
    }
    TaskChainWrite(tk1, spare[1..], x, r);
    EnumeratesPop(spare, at, Spare, General);
  }

  /** Case 4 of _poThreadPool_runTask on the general queue: the popped record,
      filled in, becomes its back. */
  lemma SpareToGeneralQueue(tk: seq<Task>, spare: seq<nat>, g: seq<nat>, front: int, back: int,
                            at: seq<TaskPlace>, n: nat, r: Task)
    requires SpareOK(tk, spare, Head(spare), at) && GeneralOK(tk, g, front, back, at, n)
    requires spare != [] && r.next == Null && TractRef(r.tract, n)
    ensures GeneralOK(SetTaskNext(tk, back, spare[0])[spare[0] := r], g + [spare[0]],
                      if g == [] then spare[0] else front, spare[0], at[spare[0] := General], n)
  {
    var x := spare[0];
    var tk' := SetTaskNext(tk, back, x)[x := r];
    assert at[x] == Spare;
    assert x !in g;
    TaskChainAppend(tk, g, x, r);
    EnumeratesAppend(g, at, General, x);
    forall k | 0 <= k < |g| ensures tk'[g[k]].tract == tk[g[k]].tract {
      assert g[k] != x;
    }
    assert forall k :: 0 <= k < |g + [x]| ==> TractRef(tk'[(g + [x])[k]].tract, n);
  }

  /** The tasks of tract `u` in the general queue after case 4: those before,
      then the new one if it is of that tract. */
  lemma SpareToGeneralFilter(tk: seq<Task>, g: seq<nat>, back: int, x: nat, r: Task, u: nat)
    requires x < |tk| && x !in g && (g != [] ==> back == Back(g) && back < |tk|)
    ensures Filter(g + [x], SetTaskNext(tk, back, x)[x := r], u) == Filter(g, tk, u) + (if u == r.tract then [x] else [])
  {
    var tk1 := SetTaskNext(tk, back, x);
    if g != [] {
      FilterWrite(g, tk, back, tk1[back], u);
    }
    FilterWrite(g, tk1, x, r, u);
    FilterAppend(g, x, tk1[x := r], u);
  }

  /** Case 4 of _poThreadPool_runTask on the counts: tract `t` gains slot `x`
      at the end of its queued tasks, the other tracts keep theirs. */
  lemma SpareToGeneralCounts(tk: seq<Task>, g: seq<nat>, tq: seq<seq<nat>>, tr: seq<Tract>,
                             back: int, x: nat, r: Task)
    requires CountsOK(tk, g, tq, tr) && |tq| == |tr| && x < |tk| && x !in g
    requires g != [] ==> back == Back(g) && back < |tk|
    requires TractRef(r.tract, |tr|)
    ensures CountsOK(SetTaskNext(tk, back, x)[x := r], g + [x], tq,
                     if r.tract == Null then tr else tr[r.tract := tr[r.tract].(taskCount := tr[r.tract].taskCount + 1)])
    ensures forall u :: 0 <= u < |tr| ==>
      Pending(SetTaskNext(tk, back, x)[x := r], g + [x], tq, u) == Pending(tk, g, tq, u) + (if u == r.tract then [x] else [])
  {
    var tk' := SetTaskNext(tk, back, x)[x := r];
    var tr' := if r.tract == Null then tr else tr[r.tract := tr[r.tract].(taskCount := tr[r.tract].taskCount + 1)];
    SpareToGeneralPending(tk, g, tq, tr, back, x, r);
    forall u | 0 <= u < |tr'| && u < |tq|
      ensures tr'[u].taskCount == |Pending(tk', g + [x], tq, u)|
    {
      assert tr[u].taskCount == |Pending(tk, g, tq, u)|;
    }
  }

  /** The pending tasks of each tract after case 4: the new task joins the
      pending tasks of its own tract. */
  lemma SpareToGeneralPending(tk: seq<Task>, g: seq<nat>, tq: seq<seq<nat>>, tr: seq<Tract>,
                              back: int, x: nat, r: Task)
    requires |tq| == |tr| && x < |tk| && x !in g
    requires g != [] ==> back == Back(g) && back < |tk|
    ensures forall u :: 0 <= u < |tr| ==>
      Pending(SetTaskNext(tk, back, x)[x := r], g + [x], tq, u) == Pending(tk, g, tq, u) + (if u == r.tract then [x] else [])
  {
    var tk' := SetTaskNext(tk, back, x)[x := r];
    forall u | 0 <= u < |tr|
      ensures Pending(tk', g + [x], tq, u) == Pending(tk, g, tq, u) + (if u == r.tract then [x] else [])
    {
      SpareToGeneralFilter(tk, g, back, x, r, u);
      assert tq[u] + (Filter(g, tk, u) + (if u == r.tract then [x] else []))
          == (tq[u] + Filter(g, tk, u)) + (if u == r.tract then [x] else []);
    }
  }

  /** Case 4 of _poThreadPool_runTask on the parts it does not rearrange: the
      private queues, the shape and the tract table. */
  lemma SpareToGeneralFrame(tk: seq<Task>, tr: seq<Tract>, tq: seq<seq<nat>>, at: seq<TaskPlace>,
                            wat: seq<WorkerState>, wk: seq<Worker>, back: int, x: nat, r: Task)
    requires TractsOK(tk, tr, tq, at) && ShapeOK(at, wat, tq, |tk|, |wk|, |tr|)
    requires BindingsOK(wk, tr) && HeldOK(tq, tr)
    requires x < |tk| && at[x] == Spare && (back != Null ==> 0 <= back < |tk| && at[back] == General)
    requires TractRef(r.tract, |tr|)
    ensures var tr' := if r.tract == Null then tr else tr[r.tract := tr[r.tract].(taskCount := tr[r.tract].taskCount + 1)];
      TractsOK(SetTaskNext(tk, back, x)[x := r], tr', tq, at[x := General])
      && ShapeOK(at[x := General], wat, tq, |tk|, |wk|, |tr|)
      && BindingsOK(wk, tr') && HeldOK(tq, tr')
  {
    var tk1 := SetTaskNext(tk, back, x);
    if back != Null {
      TractsTaskWrite(tk, tr, tq, at, back, tk1[back]);
    }
    TractsTaskWrite(tk1, tr, tq, at, x, r);
    TractsPlaceWrite(tk1[x := r], tr, tq, at, x, General);
    if r.tract != Null {
      var t := r.tract;
      TractsRecordWrite(tk1[x := r], tr, tq, at[x := General], t, tr[t].(taskCount := tr[t].taskCount + 1));
    }
  }

  /** Case 4 of _poThreadPool_runTask on the fields of the pool. */
  lemma SpareToGeneralFields(tk: seq<Task>, wk: seq<Worker>, tr: seq<Tract>,
                           spare: seq<nat>, g: seq<nat>, tq: seq<seq<nat>>, at: seq<TaskPlace>,
                           unused: seq<nat>, idle: seq<nat>, wat: seq<WorkerState>,
                           tasksUnused: int, tasksFront: int, tasksBack: int,
                           workersUnused: int, idleFront: int, idleBack: int, numThreads: nat,
                           r: Task, tk': seq<Task>, tr': seq<Tract>, spare': seq<nat>, g': seq<nat>,
                           at': seq<TaskPlace>, tasksUnused': int, tasksFront': int, tasksBack': int)
    requires Sound(tk, wk, tr, spare, g, tq, at, unused, idle, wat, tasksUnused, tasksFront, tasksBack,
                   workersUnused, idleFront, idleBack, numThreads)
    requires spare != [] && idle == [] && unused == [] && r.next == Null && TractRef(r.tract, |tr|)
    requires tk' == SetTaskNext(tk, tasksBack, tasksUnused)[tasksUnused := r]
    requires tr' == if r.tract == Null then tr else tr[r.tract := tr[r.tract].(taskCount := tr[r.tract].taskCount + 1)]
    requires spare' == spare[1..] && g' == g + [tasksUnused] && at' == at[tasksUnused := General]
    requires tasksUnused' == tk[tasksUnused].next && tasksBack' == tasksUnused
    requires tasksFront' == if tasksBack == Null then tasksUnused else tasksFront
    ensures Sound(tk', wk, tr', spare', g', tq, at', unused, idle, wat, tasksUnused', tasksFront', tasksBack',
                  workersUnused, idleFront, idleBack, numThreads)
    ensures forall u :: 0 <= u < |tr| ==>
      Pending(tk', g', tq, u) == Pending(tk, g, tq, u) + (if u == r.tract then [tasksUnused] else [])
  {
    Unseal(tk, wk, tr, spare, g, tq, at, unused, idle, wat, tasksUnused, tasksFront, tasksBack,
           workersUnused, idleFront, idleBack, numThreads);
    var x := spare[0];
    assert at[x] == Spare && x !in g;
    assert tasksBack != Null ==> at[tasksBack] == General;
    SpareToGeneralSpare(tk, spare, g, tasksFront, tasksBack, at, |tr|, r);
    SpareToGeneralQueue(tk, spare, g, tasksFront, tasksBack, at, |tr|, r);
    SpareToGeneralCounts(tk, g, tq, tr, tasksBack, x, r);
    SpareToGeneralFrame(tk, tr, tq, at, wat, wk, tasksBack, x, r);
    Seal(tk', wk, tr', spare', g', tq, at', unused, idle, wat, tasksUnused', tasksFront', tasksBack',
         workersUnused, idleFront, idleBack, numThreads);
  }

  /** tractQueueTask: task record `x`, which is in no list, goes to the back
      of its tract's private queue; on an empty queue it is also the front.
      Only `next` links and the queue ends change. */
  function TractQueueTask(tk: seq<Task>, tr: seq<Tract>, x: nat): (r: (seq<Task>, seq<Tract>))
    requires x < |tk| && 0 <= tk[x].tract < |tr|
    ensures |r.0| == |tk| && |r.1| == |tr|
    ensures forall i :: 0 <= i < |tk| ==> r.0[i].job == tk[i].job && r.0[i].tract == tk[i].tract
    ensures r.0[x].next == Null
    ensures forall u :: 0 <= u < |tr| && u != tk[x].tract ==> r.1[u] == tr[u]
    ensures var t := tk[x].tract;
      r.1[t].worker == tr[t].worker && r.1[t].taskCount == tr[t].taskCount && r.1[t].lastTask == x
  {
    var t := tk[x].tract;
    var last := tr[t].lastTask;
    (SetTaskNext(tk, last, x)[x := tk[x].(next := Null)],
     tr[t := tr[t].(firstTask := if last == Null then x else tr[t].firstTask, lastTask := x)])
  }

  /** What tractQueueTask does to the private queues: the task is appended
      to its tract's queue and the other queues keep their links. */
  lemma TractQueueTaskAppends(tk: seq<Task>, tr: seq<Tract>, tq: seq<seq<nat>>, at: seq<TaskPlace>, x: nat)
    requires TractsOK(tk, tr, tq, at) && x < |tk| && x < |at| && !at[x].InTract? && 0 <= tk[x].tract < |tr|
    ensures var t := tk[x].tract; var r := TractQueueTask(tk, tr, x);
      TractsOK(r.0, r.1, tq[t := tq[t] + [x]], at[x := InTract(t)])
  {
    var t := tk[x].tract;
    var last := tr[t].lastTask;
    var rx := tk[x].(next := Null);
    var r := TractQueueTask(tk, tr, x);
    var tq' := tq[t := tq[t] + [x]];
    var at' := at[x := InTract(t)];
    assert QueueOK(tk, tq[t], tr[t], at, t);
    assert x !in tq[t];
    TaskChainAppend(tk, tq[t], x, rx);
    EnumeratesAppend(tq[t], at, InTract(t), x);
    forall u | 0 <= u < |tr| ensures QueueOK(r.0, tq'[u], r.1[u], at', u) {
      if u != t {
        var q := tq[u];
        assert QueueOK(tk, q, tr[u], at, u);
        assert x !in q;
        if last != Null {
          assert last == tq[t][|tq[t]| - 1] && at[last] == InTract(t);
          assert last !in q;
          TaskChainWrite(tk, q, last, tk[last].(next := x));
        }
        TaskChainWrite(SetTaskNext(tk, last, x), q, x, rx);
        EnumeratesFrame(q, at, InTract(u), x, InTract(t));
      } else {
        forall k | 0 <= k < |tq'[t]| ensures r.0[tq'[t][k]].tract == t {
          if k < |tq[t]| { assert tq'[t][k] == tq[t][k]; }
        }
      }
    }
  }

  /** The unused task stack loses its top, which moves to place `pl`; the
      slab may also change in record `b`, which is not spare. */
  lemma SparePop(tk: seq<Task>, tk': seq<Task>, spare: seq<nat>, at: seq<TaskPlace>, b: int, pl: TaskPlace)
    requires SpareOK(tk, spare, Head(spare), at) && spare != [] && pl != Spare
    requires AgreeExcept(tk, tk', spare[0], b) && (b != Null ==> 0 <= b < |at| && at[b] != Spare)
    ensures SpareOK(tk', spare[1..], tk[spare[0]].next, at[spare[0] := pl])
  {
    TaskChainTail(tk, spare);
    assert b !in spare[1..];
    TaskChainAgree(tk, tk', spare[1..], spare[0], b);
    EnumeratesPop(spare, at, Spare, pl);
  }

  /** The general queue loses its front, which moves to place `pl`; the slab
      may also change in record `b`, which is not in the general queue. */
  lemma GeneralPop(tk: seq<Task>, tk': seq<Task>, g: seq<nat>, front: int, back: int, at: seq<TaskPlace>, n: nat,
                   b: int, pl: TaskPlace)
    requires GeneralOK(tk, g, front, back, at, n) && g != [] && pl != General
    requires AgreeExcept(tk, tk', g[0], b) && (b != Null ==> 0 <= b < |at| && at[b] != General)
    ensures GeneralOK(tk', g[1..], tk[g[0]].next, if tk[g[0]].next == Null then Null else back, at[g[0] := pl], n)
  {
    var g' := g[1..];
    TaskChainTail(tk, g);
    DistinctPairwise(g);
    forall k | 0 <= k < |g'| ensures tk'[g'[k]] == tk[g'[k]] {
      assert g'[k] == g[k + 1] && g[k + 1] != g[0];
      assert at[g[k + 1]] == General;
    }
    TaskChainAgree(tk, tk', g', g[0], b);
    EnumeratesPop(g, at, General, pl);
    assert |g| > 1 ==> tk[g[0]].next == g[1] && g'[|g'| - 1] == g[|g| - 1];
  }

  /** A record in neither the general queue nor the unused stack changes. */
  lemma GeneralWrite(tk: seq<Task>, g: seq<nat>, front: int, back: int, at: seq<TaskPlace>, n: nat,
                     x: nat, r: Task, pl: TaskPlace)
    requires GeneralOK(tk, g, front, back, at, n) && x < |tk| && x < |at| && at[x] != General && pl != General
    ensures GeneralOK(tk[x := r], g, front, back, at[x := pl], n)
  {
    assert x !in g;
    TaskChainWrite(tk, g, x, r);
    EnumeratesFrame(g, at, General, x, pl);
    forall k | 0 <= k < |g| ensures tk[x := r][g[k]] == tk[g[k]] {
      assert g[k] in g;
    }
  }

  /** The private queue of tract `u` loses its front, which moves to place `pl`. */
  lemma TractPopFront(tk: seq<Task>, tr: seq<Tract>, tq: seq<seq<nat>>, at: seq<TaskPlace>, u: nat, n: int, c: nat, pl: TaskPlace)
    requires TractsOK(tk, tr, tq, at) && u < |tr| && tq[u] != [] && !pl.InTract?
    ensures var x := tq[u][0];
      TractsOK(tk[x := tk[x].(next := n)],
               tr[u := tr[u].(firstTask := tk[x].next, lastTask := if tk[x].next == Null then Null else tr[u].lastTask, taskCount := c)],
               tq[u := tq[u][1..]], at[x := pl])
  {
    var x := tq[u][0];
    var r := tk[x].(next := n);
    var tr' := tr[u := tr[u].(firstTask := tk[x].next, lastTask := if tk[x].next == Null then Null else tr[u].lastTask, taskCount := c)];
    var tq' := tq[u := tq[u][1..]];
    forall v | 0 <= v < |tr| ensures QueueOK(tk[x := r], tq'[v], tr'[v], at[x := pl], v) {
      assert QueueOK(tk, tq[v], tr[v], at, v);
      if v == u {
        var q := tq[u];
        TaskChainTail(tk, q);
        TaskChainWrite(tk, q[1..], x, r);
        EnumeratesPop(q, at, InTract(u), pl);
        assert |q| > 1 ==> tk[x].next == q[1] && q[1..][|q| - 2] == q[|q| - 1];
        forall k | 0 <= k < |q| - 1 ensures tk[x := r][q[1..][k]].tract == u {
          assert q[1..][k] == q[k + 1];
        }
      } else {
        assert x !in tq[v];
        TaskChainWrite(tk, tq[v], x, r);
        EnumeratesFrame(tq[v], at, InTract(v), x, pl);
      }
    }
  }

  // Case 5 of _poThreadPool_runTask.

  lemma SpareToTractCounts(tk: seq<Task>, tk': seq<Task>, tq: seq<seq<nat>>, tr: seq<Tract>, tr': seq<Tract>, t: nat, x: nat)
    requires CountsOK(tk, [], tq, tr) && |tq| == |tr| && t < |tr| && |tr'| == |tr|
    requires forall u :: 0 <= u < |tr| ==> tr'[u].taskCount == tr[u].taskCount + (if u == t then 1 else 0)
    ensures CountsOK(tk', [], tq[t := tq[t] + [x]], tr')
    ensures forall u :: 0 <= u < |tr| ==>
      Pending(tk', [], tq[t := tq[t] + [x]], u) == Pending(tk, [], tq, u) + (if u == t then [x] else [])
  {
    var tq' := tq[t := tq[t] + [x]];
    forall u | 0 <= u < |tr|
      ensures Pending(tk', [], tq', u) == Pending(tk, [], tq, u) + (if u == t then [x] else [])
      ensures tr'[u].taskCount == |Pending(tk', [], tq', u)|
    {
      assert Filter([], tk', u) == [] && Filter([], tk, u) == [];
      assert Pending(tk', [], tq', u) == tq'[u];
      assert Pending(tk, [], tq, u) == tq[u];
    }
  }

  lemma SpareToTractTasks(tk: seq<Task>, tr: seq<Tract>, spare: seq<nat>, g: seq<nat>, tq: seq<seq<nat>>,
                          at: seq<TaskPlace>, tasksUnused: int, tasksFront: int, tasksBack: int, job: Job, t: nat)
    requires TaskSideOK(tk, tr, spare, g, tq, at, tasksUnused, tasksFront, tasksBack)
    requires spare != [] && g == [] && t < |tr|
    ensures var x := tasksUnused;
      var r := TractQueueTask(tk[x := tk[x].(job := job, tract := t)], tr[t := tr[t].(taskCount := tr[t].taskCount + 1)], x);
      var tq' := tq[t := tq[t] + [x]];
      TaskSideOK(r.0, r.1, spare[1..], g, tq', at[x := InTract(t)], tk[x].next, tasksFront, tasksBack)
      && SameWorkers(tr, r.1)
      && forall u :: 0 <= u < |tr| ==> Pending(r.0, g, tq', u) == Pending(tk, g, tq, u) + (if u == t then [x] else [])
  {
    var x := spare[0];
    var tk1 := tk[x := tk[x].(job := job, tract := t)];
    var tr1 := tr[t := tr[t].(taskCount := tr[t].taskCount + 1)];
    var r := TractQueueTask(tk1, tr1, x);
    var last := tr[t].lastTask;
    assert at[x] == Spare;
    assert QueueOK(tk, tq[t], tr[t], at, t);
    assert last != Null ==> at[last] == InTract(t) by {
      if last != Null { assert last == tq[t][|tq[t]| - 1]; }
    }
    assert AgreeExcept(tk, r.0, x, last);
    SparePop(tk, r.0, spare, at, last, InTract(t));
    EnumeratesFrame([], at, General, x, InTract(t));
    TractsRecordWrite(tk, tr, tq, at, t, tr1[t]);
    TractsTaskWrite(tk, tr1, tq, at, x, tk1[x]);
    TractQueueTaskAppends(tk1, tr1, tq, at, x);
    SpareToTractCounts(tk, r.0, tq, tr, r.1, t, x);
  }

  lemma SpareToTractFields(tk: seq<Task>, wk: seq<Worker>, tr: seq<Tract>,
                           spare: seq<nat>, g: seq<nat>, tq: seq<seq<nat>>, at: seq<TaskPlace>,
                           unused: seq<nat>, idle: seq<nat>, wat: seq<WorkerState>,
                           tasksUnused: int, tasksFront: int, tasksBack: int,
                           workersUnused: int, idleFront: int, idleBack: int, numThreads: nat,
                           job: Job, t: nat, tk': seq<Task>, tr': seq<Tract>, spare': seq<nat>, tq': seq<seq<nat>>,
                           at': seq<TaskPlace>, tasksUnused': int)
    requires Sound(tk, wk, tr, spare, g, tq, at, unused, idle, wat, tasksUnused, tasksFront, tasksBack,
                   workersUnused, idleFront, idleBack, numThreads)
    requires spare != [] && g == [] && t < |tr| && tr[t].worker != Null
    requires var r := TractQueueTask(tk[tasksUnused := tk[tasksUnused].(job := job, tract := t)],
                                     tr[t := tr[t].(taskCount := tr[t].taskCount + 1)], tasksUnused);
      tk' == r.0 && tr' == r.1
    requires spare' == spare[1..] && tq' == tq[t := tq[t] + [tasksUnused]] && at' == at[tasksUnused := InTract(t)]
    requires tasksUnused' == tk[tasksUnused].next
    ensures Sound(tk', wk, tr', spare', g, tq', at', unused, idle, wat, tasksUnused', tasksFront, tasksBack,
                  workersUnused, idleFront, idleBack, numThreads)
    ensures forall u :: 0 <= u < |tr| ==> Pending(tk', g, tq', u) == Pending(tk, g, tq, u) + (if u == t then [tasksUnused] else [])
  {
    Unseal(tk, wk, tr, spare, g, tq, at, unused, idle, wat, tasksUnused, tasksFront, tasksBack,
           workersUnused, idleFront, idleBack, numThreads);
    SpareToTractTasks(tk, tr, spare, g, tq, at, tasksUnused, tasksFront, tasksBack, job, t);
    assert HeldOK(tq', tr');
    TaskSideSwap(tk, wk, tr, spare, g, tq, at, unused, idle, wat, tasksUnused, tasksFront, tasksBack,
                 workersUnused, idleFront, idleBack, numThreads, tk', tr', spare', g, tq', at', tasksUnused', tasksFront, tasksBack);
  }

  // _poThreadPool_lookForWork, step 3: a general-queue front whose tract is held.

  lemma GeneralToTractCounts(tk: seq<Task>, tk': seq<Task>, g: seq<nat>, tq: seq<seq<nat>>, tr: seq<Tract>, tr': seq<Tract>)
    requires CountsOK(tk, g, tq, tr) && |tq| == |tr| && g != [] && (forall k :: 0 <= k < |g| ==> g[k] < |tk|)
    requires 0 <= tk[g[0]].tract < |tr| && SameCounts(tr, tr')
    requires |tk'| == |tk| && forall i :: 0 <= i < |tk| ==> tk'[i].tract == tk[i].tract
    ensures var u := tk[g[0]].tract; var tq' := tq[u := tq[u] + [g[0]]];
      CountsOK(tk', g[1..], tq', tr') && forall v :: 0 <= v < |tr| ==> Pending(tk', g[1..], tq', v) == Pending(tk, g, tq, v)
  {
    forall v | 0 <= v < |tr| ensures Pending(tk', g[1..], tq[tk[g[0]].tract := tq[tk[g[0]].tract] + [g[0]]], v) == Pending(tk, g, tq, v) {
      GeneralToTractPending(tk, tk', g, tq, v);
    }
  }

  /** One tract's queued tasks are kept when the general-queue front moves
      to the back of its tract's queue. */
  lemma GeneralToTractPending(tk: seq<Task>, tk': seq<Task>, g: seq<nat>, tq: seq<seq<nat>>, v: nat)
    requires g != [] && (forall k :: 0 <= k < |g| ==> g[k] < |tk|) && 0 <= tk[g[0]].tract < |tq| && v < |tq|
    requires |tk'| == |tk| && forall i :: 0 <= i < |tk| ==> tk'[i].tract == tk[i].tract
    ensures var u := tk[g[0]].tract; Pending(tk', g[1..], tq[u := tq[u] + [g[0]]], v) == Pending(tk, g, tq, v)
  {
    var x, u := g[0], tk[g[0]].tract;
    FilterFrame(g[1..], tk, tk', v);
    assert Filter(g, tk, v) == (if u == v then [x] else []) + Filter(g[1..], tk, v);
    if v == u {
      assert (tq[u] + [x]) + Filter(g[1..], tk, v) == tq[u] + ([x] + Filter(g[1..], tk, v));
    }
  }

  lemma GeneralToTractTasks(tk: seq<Task>, tr: seq<Tract>, spare: seq<nat>, g: seq<nat>, tq: seq<seq<nat>>,
                            at: seq<TaskPlace>, tasksUnused: int, tasksFront: int, tasksBack: int)
    requires TaskSideOK(tk, tr, spare, g, tq, at, tasksUnused, tasksFront, tasksBack)
    requires g != [] && 0 <= tk[tasksFront].tract < |tr|
    ensures var r := TractQueueTask(tk, tr, tasksFront); var u := tk[tasksFront].tract; var front := tk[tasksFront].next;
      var tq' := tq[u := tq[u] + [tasksFront]];
      TaskSideOK(r.0, r.1, spare, g[1..], tq', at[tasksFront := InTract(u)], tasksUnused,
                 front, if front == Null then Null else tasksBack)
      && SameWorkers(tr, r.1)
      && forall v :: 0 <= v < |tr| ==> Pending(r.0, g[1..], tq', v) == Pending(tk, g, tq, v)
  {
    var x := g[0];
    var u := tk[x].tract;
    var r := TractQueueTask(tk, tr, x);
    var last := tr[u].lastTask;
    assert at[x] == General;
    assert QueueOK(tk, tq[u], tr[u], at, u);
    assert last != Null ==> at[last] == InTract(u) by {
      if last != Null { assert last == tq[u][|tq[u]| - 1]; }
    }
    assert AgreeExcept(tk, r.0, x, last);
    assert x !in spare && last !in spare;
    TaskChainAgree(tk, r.0, spare, x, last);
    EnumeratesFrame(spare, at, Spare, x, InTract(u));
    GeneralPop(tk, r.0, g, tasksFront, tasksBack, at, |tr|, last, InTract(u));
    TractQueueTaskAppends(tk, tr, tq, at, x);
    GeneralToTractCounts(tk, r.0, g, tq, tr, r.1);
  }

  lemma GeneralToTractFields(tk: seq<Task>, wk: seq<Worker>, tr: seq<Tract>,
                           spare: seq<nat>, g: seq<nat>, tq: seq<seq<nat>>, at: seq<TaskPlace>,
                           unused: seq<nat>, idle: seq<nat>, wat: seq<WorkerState>,
                           tasksUnused: int, tasksFront: int, tasksBack: int,
                           workersUnused: int, idleFront: int, idleBack: int, numThreads: nat,
                             tk': seq<Task>, tr': seq<Tract>, g': seq<nat>, tq': seq<seq<nat>>, at': seq<TaskPlace>,
                             tasksFront': int, tasksBack': int)
    requires Sound(tk, wk, tr, spare, g, tq, at, unused, idle, wat, tasksUnused, tasksFront, tasksBack,
                   workersUnused, idleFront, idleBack, numThreads)
    requires g != [] && 0 <= tk[tasksFront].tract < |tr| && tr[tk[tasksFront].tract].worker != Null
    requires tk' == TractQueueTask(tk, tr, tasksFront).0 && tr' == TractQueueTask(tk, tr, tasksFront).1
    requires var u := tk[tasksFront].tract;
      g' == g[1..] && tq' == tq[u := tq[u] + [tasksFront]] && at' == at[tasksFront := InTract(u)]
    requires tasksFront' == tk[tasksFront].next && tasksBack' == if tasksFront' == Null then Null else tasksBack
    ensures Sound(tk', wk, tr', spare, g', tq', at', unused, idle, wat, tasksUnused, tasksFront', tasksBack',
                  workersUnused, idleFront, idleBack, numThreads)
    ensures forall v :: 0 <= v < |tr| ==> Pending(tk', g', tq', v) == Pending(tk, g, tq, v)
  {
    Unseal(tk, wk, tr, spare, g, tq, at, unused, idle, wat, tasksUnused, tasksFront, tasksBack,
           workersUnused, idleFront, idleBack, numThreads);
    GeneralToTractTasks(tk, tr, spare, g, tq, at, tasksUnused, tasksFront, tasksBack);
    assert HeldOK(tq', tr');
    TaskSideSwap(tk, wk, tr, spare, g, tq, at, unused, idle, wat, tasksUnused, tasksFront, tasksBack,
                 workersUnused, idleFront, idleBack, numThreads, tk', tr', spare, g', tq', at', tasksUnused, tasksFront', tasksBack');
  }

  // _poThreadPool_lookForWork, step 2: the front of the worker's own tract queue.

  lemma TractToSpareCounts(tk: seq<Task>, tk': seq<Task>, g: seq<nat>, tq: seq<seq<nat>>, tr: seq<Tract>, tr': seq<Tract>,
                          u: nat, x: nat)
    requires CountsOK(tk, g, tq, tr) && |tq| == |tr| && u < |tr| && tq[u] != [] && x == tq[u][0] && x !in g
    requires |tk'| == |tk| && x < |tk| && tk' == tk[x := tk'[x]] && tk'[x].tract == tk[x].tract
    requires |tr'| == |tr| && forall v :: 0 <= v < |tr| ==> tr'[v].taskCount == tr[v].taskCount - (if v == u then 1 else 0)
    ensures CountsOK(tk', g, tq[u := tq[u][1..]], tr')
    ensures forall v :: 0 <= v < |tr| ==> Pending(tk, g, tq, v) == (if v == u then [x] else []) + Pending(tk', g, tq[u := tq[u][1..]], v)
  {
    var tq' := tq[u := tq[u][1..]];
    forall v | 0 <= v < |tr| ensures Pending(tk, g, tq, v) == (if v == u then [x] else []) + Pending(tk', g, tq', v) {
      FilterWrite(g, tk, x, tk'[x], v);
      if v == u {
        assert tq[u] == [x] + tq[u][1..];
        assert tq[u] + Filter(g, tk, v) == [x] + (tq[u][1..] + Filter(g, tk, v));
      }
    }
  }

  lemma TractToSpareTasks(tk: seq<Task>, tr: seq<Tract>, spare: seq<nat>, g: seq<nat>, tq: seq<seq<nat>>,
                          at: seq<TaskPlace>, tasksUnused: int, tasksFront: int, tasksBack: int,
                          u: nat, tk': seq<Task>, tr': seq<Tract>)
    requires TaskSideOK(tk, tr, spare, g, tq, at, tasksUnused, tasksFront, tasksBack)
    requires u < |tr| && tq[u] != []
    requires var x := tq[u][0]; var n := tk[x].next;
      tk' == tk[x := tk[x].(next := tasksUnused)]
      && tr' == tr[u := tr[u].(firstTask := n, lastTask := if n == Null then Null else tr[u].lastTask,
                                taskCount := tr[u].taskCount - 1)]
    ensures var x := tq[u][0];
      TaskSideOK(tk', tr', [x] + spare, g, tq[u := tq[u][1..]], at[x := Spare], x, tasksFront, tasksBack)
    ensures forall v :: 0 <= v < |tr| ==>
      Pending(tk, g, tq, v) == (if v == u then [tq[u][0]] else []) + Pending(tk', g, tq[u := tq[u][1..]], v)
  {
    var x := tq[u][0];
    assert QueueOK(tk, tq[u], tr[u], at, u);
    assert at[x] == InTract(u) && x !in spare && x !in g;
    TaskChainPush(tk, spare, x, tk'[x]);
    EnumeratesPush(spare, at, Spare, x);
    GeneralWrite(tk, g, tasksFront, tasksBack, at, |tr|, x, tk'[x], Spare);
    TractPopFront(tk, tr, tq, at, u, tasksUnused, tr[u].taskCount - 1, Spare);
    TractToSpareCounts(tk, tk', g, tq, tr, tr', u, x);
  }

  lemma TractToSpareFields(tk: seq<Task>, wk: seq<Worker>, tr: seq<Tract>,
                           spare: seq<nat>, g: seq<nat>, tq: seq<seq<nat>>, at: seq<TaskPlace>,
                           unused: seq<nat>, idle: seq<nat>, wat: seq<WorkerState>,
                           tasksUnused: int, tasksFront: int, tasksBack: int,
                           workersUnused: int, idleFront: int, idleBack: int, numThreads: nat,
                           u: nat, tk': seq<Task>, tr': seq<Tract>, spare': seq<nat>, tq': seq<seq<nat>>,
                           at': seq<TaskPlace>, tasksUnused': int)
    requires Sound(tk, wk, tr, spare, g, tq, at, unused, idle, wat, tasksUnused, tasksFront, tasksBack,
                   workersUnused, idleFront, idleBack, numThreads)
    requires u < |tr| && tq[u] != [] && 0 <= tr[u].firstTask < |tk| && tr[u].taskCount > 0
    requires var x := tr[u].firstTask; var n := tk[x].next;
      tk' == tk[x := tk[x].(next := tasksUnused)]
      && tr' == tr[u := tr[u].(firstTask := n, lastTask := if n == Null then Null else tr[u].lastTask,
                                taskCount := tr[u].taskCount - 1)]
      && spare' == [x] + spare && tq' == tq[u := tq[u][1..]] && at' == at[x := Spare] && tasksUnused' == x
    ensures Sound(tk', wk, tr', spare', g, tq', at', unused, idle, wat, tasksUnused', tasksFront, tasksBack,
                  workersUnused, idleFront, idleBack, numThreads)
    ensures forall v :: 0 <= v < |tr| ==>
      Pending(tk, g, tq, v) == (if v == u then [tr[u].firstTask] else []) + Pending(tk', g, tq', v)
    ensures tk[tr[u].firstTask].tract == u
  {
    Unseal(tk, wk, tr, spare, g, tq, at, unused, idle, wat, tasksUnused, tasksFront, tasksBack,
           workersUnused, idleFront, idleBack, numThreads);
    assert QueueOK(tk, tq[u], tr[u], at, u);
    TractToSpareTasks(tk, tr, spare, g, tq, at, tasksUnused, tasksFront, tasksBack, u, tk', tr');
    assert HeldOK(tq', tr');
    TaskSideSwap(tk, wk, tr, spare, g, tq, at, unused, idle, wat, tasksUnused, tasksFront, tasksBack,
                 workersUnused, idleFront, idleBack, numThreads, tk', tr', spare', g, tq', at', tasksUnused', tasksFront, tasksBack);
  }

  // _poThreadPool_lookForWork, step 3: the worker takes the general-queue front.

  /** The front of the general queue is counted in its tract. */
  lemma FrontCounted(tk: seq<Task>, g: seq<nat>, tq: seq<seq<nat>>, tr: seq<Tract>)
    requires CountsOK(tk, g, tq, tr) && |tq| == |tr| && g != [] && g[0] < |tk| && 0 <= tk[g[0]].tract < |tr|
    ensures tr[tk[g[0]].tract].taskCount > 0
  {
    var u := tk[g[0]].tract;
    assert Filter(g, tk, u) == [g[0]] + Filter(g[1..], tk, u);
    assert |Pending(tk, g, tq, u)| > 0;
  }

  lemma GeneralTakeCounts(tk: seq<Task>, g: seq<nat>, tq: seq<seq<nat>>, tr: seq<Tract>, tr': seq<Tract>, n: int)
    requires CountsOK(tk, g, tq, tr) && |tq| == |tr| && g != [] && g[0] < |tk|
    requires var u := tk[g[0]].tract; u == Null || (0 <= u < |tq| && tq[u] == [])
    requires |tr'| == |tr| && forall v :: 0 <= v < |tr| ==> tr'[v].taskCount + (if v == tk[g[0]].tract then 1 else 0) == tr[v].taskCount
    ensures var x := g[0]; var tk' := tk[x := tk[x].(next := n)];
      CountsOK(tk', g[1..], tq, tr')
      && forall v :: 0 <= v < |tr| ==> Pending(tk, g, tq, v) == (if v == tk[x].tract then [x] else []) + Pending(tk', g[1..], tq, v)
  {
    var x := g[0];
    var tk' := tk[x := tk[x].(next := n)];
    forall v | 0 <= v < |tr|
      ensures Pending(tk, g, tq, v) == (if v == tk[x].tract then [x] else []) + Pending(tk', g[1..], tq, v)
    {
      FilterWrite(g[1..], tk, x, tk'[x], v);
      assert Filter(g, tk, v) == (if v == tk[x].tract then [x] else []) + Filter(g[1..], tk, v);
      if v == tk[x].tract {
        assert tq[v] == [];
        assert Pending(tk, g, tq, v) == Filter(g, tk, v);
        assert Pending(tk', g[1..], tq, v) == Filter(g[1..], tk', v);
      }
    }
  }

  lemma GeneralTakeTasks(tk: seq<Task>, tr: seq<Tract>, spare: seq<nat>, g: seq<nat>, tq: seq<seq<nat>>,
                         at: seq<TaskPlace>, tasksUnused: int, tasksFront: int, tasksBack: int, tr': seq<Tract>)
    requires TaskSideOK(tk, tr, spare, g, tq, at, tasksUnused, tasksFront, tasksBack) && g != []
    requires var u := tk[tasksFront].tract; u == Null || (0 <= u < |tq| && tq[u] == [])
    requires SameEnds(tr, tr')
    requires forall v :: 0 <= v < |tr| ==> tr'[v].taskCount + (if v == tk[tasksFront].tract then 1 else 0) == tr[v].taskCount
    ensures var x := tasksFront; var front := tk[x].next; var tk' := tk[x := tk[x].(next := tasksUnused)];
      TaskSideOK(tk', tr', [x] + spare, g[1..], tq, at[x := Spare], x, front, if front == Null then Null else tasksBack)
      && forall v :: 0 <= v < |tr| ==> Pending(tk, g, tq, v) == (if v == tk[x].tract then [x] else []) + Pending(tk', g[1..], tq, v)
  {
    var x := g[0];
    var tk' := tk[x := tk[x].(next := tasksUnused)];
    assert at[x] == General && x !in spare;
    TaskChainPush(tk, spare, x, tk'[x]);
    EnumeratesPush(spare, at, Spare, x);
    GeneralPop(tk, tk', g, tasksFront, tasksBack, at, |tr|, Null, Spare);
    TractsTaskWrite(tk, tr, tq, at, x, tk'[x]);
    TractsPlaceWrite(tk', tr, tq, at, x, Spare);
    TractsSameEnds(tk', tr, tr', tq, at[x := Spare]);
    GeneralTakeCounts(tk, g, tq, tr, tr', tasksUnused);
  }

  lemma GeneralTakeFields(tk: seq<Task>, wk: seq<Worker>, tr: seq<Tract>,
                           spare: seq<nat>, g: seq<nat>, tq: seq<seq<nat>>, at: seq<TaskPlace>,
                           unused: seq<nat>, idle: seq<nat>, wat: seq<WorkerState>,
                           tasksUnused: int, tasksFront: int, tasksBack: int,
                           workersUnused: int, idleFront: int, idleBack: int, numThreads: nat,
                          tk': seq<Task>, spare': seq<nat>, g': seq<nat>, at': seq<TaskPlace>,
                          tasksUnused': int, tasksFront': int, tasksBack': int)
    requires Sound(tk, wk, tr, spare, g, tq, at, unused, idle, wat, tasksUnused, tasksFront, tasksBack,
                   workersUnused, idleFront, idleBack, numThreads)
    requires g != [] && tk[tasksFront].tract == Null
    requires tk' == tk[tasksFront := tk[tasksFront].(next := tasksUnused)]
    requires spare' == [tasksFront] + spare && g' == g[1..] && at' == at[tasksFront := Spare] && tasksUnused' == tasksFront
    requires tasksFront' == tk[tasksFront].next && tasksBack' == if tasksFront' == Null then Null else tasksBack
    ensures Sound(tk', wk, tr, spare', g', tq, at', unused, idle, wat, tasksUnused', tasksFront', tasksBack',
                  workersUnused, idleFront, idleBack, numThreads)
    ensures forall v :: 0 <= v < |tr| ==> Pending(tk', g', tq, v) == Pending(tk, g, tq, v)
  {
    Unseal(tk, wk, tr, spare, g, tq, at, unused, idle, wat, tasksUnused, tasksFront, tasksBack,
           workersUnused, idleFront, idleBack, numThreads);
    GeneralTakeTasks(tk, tr, spare, g, tq, at, tasksUnused, tasksFront, tasksBack, tr);
    TaskSideSwap(tk, wk, tr, spare, g, tq, at, unused, idle, wat, tasksUnused, tasksFront, tasksBack,
                 workersUnused, idleFront, idleBack, numThreads, tk', tr, spare', g', tq, at', tasksUnused', tasksFront', tasksBack');
  }

  /** Binding worker `w` to the free tract `u`, after unbinding it from the
      tract it held, if any (`tr1` is the table after that unbinding). */
  lemma BindingsRebind(wk: seq<Worker>, tr: seq<Tract>, tr1: seq<Tract>, w: nat, u: nat, c: nat)
    requires BindingsOK(wk, tr) && w < |wk| && u < |tr| && tr[u].worker == Null
    requires wk[w].tract == Null ==> tr1 == tr
    requires wk[w].tract != Null ==> tr1 == tr[wk[w].tract := tr[wk[w].tract].(worker := Null)]
    ensures BindingsOK(wk[w := wk[w].(tract := u)], tr1[u := tr[u].(worker := w, taskCount := c)])
  {
    var wt := wk[w].tract;
    var tr' := tr1[u := tr[u].(worker := w, taskCount := c)];
    var wk' := wk[w := wk[w].(tract := u)];
    assert wt != u;
    forall t | 0 <= t < |tr'| ensures tr'[t].worker == Null || (0 <= tr'[t].worker < |wk'| && wk'[tr'[t].worker].tract == t) {
      if t != u && t != wt && tr[t].worker != Null {
        assert tr'[t] == tr[t] && tr[t].worker != w;
      }
    }
    forall v | 0 <= v < |wk'| ensures wk'[v].tract == Null || (0 <= wk'[v].tract < |tr'| && tr'[wk'[v].tract].worker == v) {
      if v != w && wk[v].tract != Null {
        assert wk'[v] == wk[v] && wk[v].tract != u && wk[v].tract != wt;
      }
    }
  }

  /** Worker `w`, running, gives up the empty tract it held, if any, and binds to the free tract `u`. */
  lemma RebindWorkers(wk: seq<Worker>, tr: seq<Tract>, tr1: seq<Tract>, unused: seq<nat>, idle: seq<nat>, wat: seq<WorkerState>,
                      workersUnused: int, idleFront: int, idleBack: int, numThreads: nat, w: nat, u: nat, c: nat)
    requires WorkerSealed(wk, tr, unused, idle, wat, workersUnused, idleFront, idleBack, numThreads)
    requires w < |wk| && w < |wat| && (wat[w] == Running || wat[w] == Signalled) && u < |tr| && tr[u].worker == Null
    requires wk[w].tract == Null ==> tr1 == tr
    requires wk[w].tract != Null ==> 0 <= wk[w].tract < |tr| && tr1 == tr[wk[w].tract := tr[wk[w].tract].(worker := Null)]
    ensures WorkerSealed(wk[w := wk[w].(tract := u)], tr1[u := tr[u].(worker := w, taskCount := c)],
                         unused, idle, wat, workersUnused, idleFront, idleBack, numThreads)
    ensures wk[w].tract != u
  {
    assert Unfold(0);
    var wk' := wk[w := wk[w].(tract := u)];
    assert w !in unused && w !in idle;
    WorkerStackWrite(wk, unused, w, wk'[w]);
    IdleWrite(wk, idle, w, wk'[w]);
    assert RecordsOK(wk', wat) by {
      forall v | 0 <= v < |wk'| && v < |wat| ensures Fits(wk'[v], wat[v]) {
        assert Fits(wk[v], wat[v]);
      }
    }
    BindingsRebind(wk, tr, tr1, w, u, c);
  }

  /** The tract table after the rebinding: same queue ends, `u` counts one task fewer, and no tract
      with queued tasks is left without a worker. */
  lemma RebindTable(tq: seq<seq<nat>>, tr: seq<Tract>, tr1: seq<Tract>, wt: int, u: nat, w: nat, tr': seq<Tract>)
    requires HeldOK(tq, tr) && |tq| == |tr| && u < |tr| && tq[u] == [] && tr[u].taskCount > 0
    requires wt == Null ==> tr1 == tr
    requires wt != Null ==> 0 <= wt < |tr| && tq[wt] == [] && tr1 == tr[wt := tr[wt].(worker := Null)]
    requires tr' == tr1[u := tr[u].(worker := w, taskCount := tr[u].taskCount - 1)]
    ensures SameEnds(tr, tr') && HeldOK(tq, tr')
    ensures forall v :: 0 <= v < |tr| ==> tr'[v].taskCount + (if v == u then 1 else 0) == tr[v].taskCount
  {
  }

  /** The task side of the binding step: the worker takes the general-queue
      front, whose tract `u` no worker holds, and `u` counts one task fewer. */
  lemma GeneralBindTasks(tk: seq<Task>, tr: seq<Tract>, spare: seq<nat>, g: seq<nat>, tq: seq<seq<nat>>,
                         at: seq<TaskPlace>, tasksUnused: int, tasksFront: int, tasksBack: int,
                         tr1: seq<Tract>, wt: int, w: nat, tr': seq<Tract>)
    requires TaskSealed(tk, tr, spare, g, tq, at, tasksUnused, tasksFront, tasksBack) && HeldOK(tq, tr) && g != []
    requires 0 <= tasksFront < |tk| == |at| && |tq| == |tr|
    requires var u := tk[tasksFront].tract; 0 <= u < |tr| && tr[u].worker == Null && tr[u].taskCount > 0
    requires wt == Null ==> tr1 == tr
    requires wt != Null ==> 0 <= wt < |tr| && tr[wt].firstTask == Null && tr1 == tr[wt := tr[wt].(worker := Null)]
    requires var u := tk[tasksFront].tract; tr' == tr1[u := tr[u].(worker := w, taskCount := tr[u].taskCount - 1)]
    ensures var x := tasksFront; var front := tk[x].next; var tk' := tk[x := tk[x].(next := tasksUnused)];
      TaskSealed(tk', tr', [x] + spare, g[1..], tq, at[x := Spare], x, front, if front == Null then Null else tasksBack)
      && HeldOK(tq, tr')
  {
    assert Unfold(0);
    var u := tk[tasksFront].tract;
    assert tq[u] == [];
    assert wt != Null ==> tq[wt] == [] by {
      if wt != Null { assert QueueOK(tk, tq[wt], tr[wt], at, wt); }
    }
    RebindTable(tq, tr, tr1, wt, u, w, tr');
    GeneralTakeTasks(tk, tr, spare, g, tq, at, tasksUnused, tasksFront, tasksBack, tr');
  }

  /** What step 3 of lookForWork needs to bind worker `w` to the tract of
      the general queue's front task: the worker is busy, that tract has no
      worker and counts the task, and `tr1` is the tract table once the
      worker has let go of its old tract, which had nothing queued. */
  ghost predicate BindPre(tk: seq<Task>, wk: seq<Worker>, tr: seq<Tract>, g: seq<nat>, wat: seq<WorkerState>,
                          tasksFront: int, w: nat, tr1: seq<Tract>) {
    && g != [] && w < |wk| && w < |wat| && (wat[w] == Running || wat[w] == Signalled) && 0 <= tasksFront < |tk|
    && (var u := tk[tasksFront].tract; 0 <= u < |tr| && tr[u].worker == Null && tr[u].taskCount > 0)
    && (var wt := wk[w].tract;
        && (wt == Null ==> tr1 == tr)
        && (wt != Null ==> 0 <= wt < |tr| && tr[wt].firstTask == Null && tr1 == tr[wt := tr[wt].(worker := Null)]))
  }

  /** The sides of the pool after the binding step, each sealed. */
  lemma GeneralBindSides(tk: seq<Task>, wk: seq<Worker>, tr: seq<Tract>,
                         spare: seq<nat>, g: seq<nat>, tq: seq<seq<nat>>, at: seq<TaskPlace>,
                         unused: seq<nat>, idle: seq<nat>, wat: seq<WorkerState>,
                         tasksUnused: int, tasksFront: int, tasksBack: int,
                         workersUnused: int, idleFront: int, idleBack: int, numThreads: nat,
                         w: nat, tr1: seq<Tract>)
    requires Sound(tk, wk, tr, spare, g, tq, at, unused, idle, wat, tasksUnused, tasksFront, tasksBack,
                   workersUnused, idleFront, idleBack, numThreads)
    requires BindPre(tk, wk, tr, g, wat, tasksFront, w, tr1)
    ensures var x := tasksFront; var u := tk[x].tract; var front := tk[x].next;
      var tr' := tr1[u := tr[u].(worker := w, taskCount := tr[u].taskCount - 1)];
      && TaskSealed(tk[x := tk[x].(next := tasksUnused)], tr', [x] + spare, g[1..], tq, at[x := Spare], x, front,
                    if front == Null then Null else tasksBack)
      && WorkerSealed(wk[w := wk[w].(tract := u)], tr', unused, idle, wat, workersUnused, idleFront, idleBack, numThreads)
      && ShapeOK(at[x := Spare], wat, tq, |tk|, |wk|, |tr|) && CrossOK(idle, g[1..], unused) && HeldOK(tq, tr')
    ensures wk[w].tract != tk[tasksFront].tract
  {
    Split(tk, wk, tr, spare, g, tq, at, unused, idle, wat, tasksUnused, tasksFront, tasksBack,
          workersUnused, idleFront, idleBack, numThreads);
    var x := tasksFront;
    var u, wt := tk[x].tract, wk[w].tract;
    var tr' := tr1[u := tr[u].(worker := w, taskCount := tr[u].taskCount - 1)];
    GeneralBindTasks(tk, tr, spare, g, tq, at, tasksUnused, tasksFront, tasksBack, tr1, wt, w, tr');
    RebindWorkers(wk, tr, tr1, unused, idle, wat, workersUnused, idleFront, idleBack, numThreads, w, u, tr[u].taskCount - 1);
    ShapePlaceWrite(at, wat, tq, |tk|, |wk|, |tr|, x, Spare);
  }

  /** Step 3 of _poThreadPool_lookForWork on a general-queue front whose
      tract `u` no worker holds: worker `w` lets go of the tract it held, if
      any (its private queue is empty; `tr1` is the table after that), binds
      to `u` both ways and takes the task, which was the first of `u`'s
      queued tasks; the record goes back on the unused task stack. */
  lemma GeneralBindFields(tk: seq<Task>, wk: seq<Worker>, tr: seq<Tract>,
                          spare: seq<nat>, g: seq<nat>, tq: seq<seq<nat>>, at: seq<TaskPlace>,
                          unused: seq<nat>, idle: seq<nat>, wat: seq<WorkerState>,
                          tasksUnused: int, tasksFront: int, tasksBack: int,
                          workersUnused: int, idleFront: int, idleBack: int, numThreads: nat,
                          w: nat, tr1: seq<Tract>)
    requires Sound(tk, wk, tr, spare, g, tq, at, unused, idle, wat, tasksUnused, tasksFront, tasksBack,
                   workersUnused, idleFront, idleBack, numThreads)
    requires BindPre(tk, wk, tr, g, wat, tasksFront, w, tr1)
    ensures var x := tasksFront; var u := tk[x].tract; var front := tk[x].next;
      Sound(tk[x := tk[x].(next := tasksUnused)], wk[w := wk[w].(tract := u)],
            tr1[u := tr[u].(worker := w, taskCount := tr[u].taskCount - 1)],
            [x] + spare, g[1..], tq, at[x := Spare], unused, idle, wat, x, front, if front == Null then Null else tasksBack,
            workersUnused, idleFront, idleBack, numThreads)
    ensures wk[w].tract != tk[tasksFront].tract
  {
    GeneralBindSides(tk, wk, tr, spare, g, tq, at, unused, idle, wat, tasksUnused, tasksFront, tasksBack,
                     workersUnused, idleFront, idleBack, numThreads, w, tr1);
    var x, u := tasksFront, tk[tasksFront].tract;
    var tk', wk', tr' := tk[x := tk[x].(next := tasksUnused)], wk[w := wk[w].(tract := u)],
                         tr1[u := tr[u].(worker := w, taskCount := tr[u].taskCount - 1)];
    var front := tk[x].next;
    var back := if front == Null then Null else tasksBack;
    Join(tk', wk', tr', [x] + spare, g[1..], tq, at[x := Spare], unused, idle, wat, x, front, back,
         workersUnused, idleFront, idleBack, numThreads);
  }
}
