/** The worker side of lib/threadPool.c: the idle list and the unused worker
    stack as workers are handed jobs, launched, parked, retired and let go,
    and the two-way tract binding.  Each lemma takes the old field values
    and shows the invariant holds of the new ones. */
module WorkerSteps {
  import opened Lists
  import opened PoolRecords
  import opened PoolState

  // Small frames.

  /** The bindings only look at the tract fields of the worker records. */
  lemma BindingsFrame(wk: seq<Worker>, wk': seq<Worker>, tr: seq<Tract>)
    requires BindingsOK(wk, tr) && |wk'| == |wk|
    requires forall w :: 0 <= w < |wk| ==> wk'[w].tract == wk[w].tract
    ensures BindingsOK(wk', tr)
  {
  }

  /** Binding worker `x`, which holds no tract, to `t`, which no worker holds
      (nothing happens when `t` is Null). */
  lemma BindingsBind(wk: seq<Worker>, tr: seq<Tract>, x: nat, r: Worker, t: int)
    requires BindingsOK(wk, tr) && x < |wk| && wk[x].tract == Null && r.tract == t
    requires TractRef(t, |tr|) && (t != Null ==> tr[t].worker == Null)
    ensures BindingsOK(wk[x := r], if t == Null then tr else tr[t := tr[t].(worker := x)])
  {
    var wk' := wk[x := r];
    var tr' := if t == Null then tr else tr[t := tr[t].(worker := x)];
    forall u | 0 <= u < |tr'| ensures tr'[u].worker == Null || (0 <= tr'[u].worker < |wk'| && wk'[tr'[u].worker].tract == u) {
      if u != t && tr[u].worker != Null {
        assert tr[u].worker != x;
      }
    }
  }

  lemma RecordsWrite(wk: seq<Worker>, wat: seq<WorkerState>, x: nat, r: Worker, s: WorkerState)
    requires RecordsOK(wk, wat) && x < |wk| && |wat| == |wk| && Fits(r, s)
    ensures RecordsOK(wk[x := r], wat[x := s])
  {
  }

  /** A record that keeps its state may change in the fields that state leaves free. */
  lemma RecordsKeep(wk: seq<Worker>, wat: seq<WorkerState>, x: nat, r: Worker)
    requires RecordsOK(wk, wat) && x < |wk| && |wat| == |wk| && Fits(r, wat[x])
    ensures RecordsOK(wk[x := r], wat)
  {
  }

  /** The worker side of a step that changes neither the task slab nor the
      queues: the invariant holds when the new worker side does, the tract
      records keep their queue ends and counts, and the cross conditions hold. */
  lemma WorkerSideSwap(tk: seq<Task>, wk: seq<Worker>, tr: seq<Tract>,
                       spare: seq<nat>, g: seq<nat>, tq: seq<seq<nat>>, at: seq<TaskPlace>,
                       unused: seq<nat>, idle: seq<nat>, wat: seq<WorkerState>,
                       tasksUnused: int, tasksFront: int, tasksBack: int,
                       workersUnused: int, idleFront: int, idleBack: int, numThreads: nat,
                       wk': seq<Worker>, tr': seq<Tract>, unused': seq<nat>, idle': seq<nat>, wat': seq<WorkerState>,
                       workersUnused': int, idleFront': int, idleBack': int, numThreads': nat)
    requires Sound(tk, wk, tr, spare, g, tq, at, unused, idle, wat, tasksUnused, tasksFront, tasksBack,
                   workersUnused, idleFront, idleBack, numThreads)
    requires WorkerSealed(wk', tr', unused', idle', wat', workersUnused', idleFront', idleBack', numThreads')
    requires |wk'| == |wk| && |wat'| == |wat| && SameEnds(tr, tr') && SameCounts(tr, tr') && HeldOK(tq, tr')
    requires CrossOK(idle', g, unused')
    ensures Sound(tk, wk', tr', spare, g, tq, at, unused', idle', wat', tasksUnused, tasksFront, tasksBack,
                  workersUnused', idleFront', idleBack', numThreads')
  {
    Split(tk, wk, tr, spare, g, tq, at, unused, idle, wat, tasksUnused, tasksFront, tasksBack,
          workersUnused, idleFront, idleBack, numThreads);
    TaskSideRetable(tk, tr, spare, g, tq, at, tasksUnused, tasksFront, tasksBack, tr');
    Join(tk, wk', tr', spare, g, tq, at, unused', idle', wat', tasksUnused, tasksFront, tasksBack,
         workersUnused', idleFront', idleBack', numThreads');
  }

  /** The task side does not look at the worker fields of the tract records. */
  lemma TaskSideRetable(tk: seq<Task>, tr: seq<Tract>, spare: seq<nat>, g: seq<nat>, tq: seq<seq<nat>>,
                        at: seq<TaskPlace>, tasksUnused: int, tasksFront: int, tasksBack: int, tr': seq<Tract>)
    requires TaskSealed(tk, tr, spare, g, tq, at, tasksUnused, tasksFront, tasksBack)
    requires SameEnds(tr, tr') && SameCounts(tr, tr')
    ensures TaskSealed(tk, tr', spare, g, tq, at, tasksUnused, tasksFront, tasksBack)
  {
    assert Unfold(0);
    TractsSameEnds(tk, tr, tr', tq, at);
    CountsSameCounts(tk, g, tq, tr, tr');
  }

  // Counting.

  lemma {:induction false} OccMissing<P>(at: seq<P>, p: P, i: nat)
    requires i < |at| && at[i] != p
    ensures Occ(at, p) < |at|
  {
    var n := |at| - 1;
    OccBound(at[..n], p);
    if i < n {
      OccMissing(at[..n], p, i);
    }
  }

  lemma {:induction false} OccPresent<P>(at: seq<P>, p: P, i: nat)
    requires i < |at| && at[i] == p
    ensures Occ(at, p) > 0
  {
    var n := |at| - 1;
    if i < n {
      OccPresent(at[..n], p, i);
    }
  }

  /** maxNumThreads == unused + numThreads, and numThreads == idle + working:
      every worker with a thread is idle, running a job or signalled. */
  lemma ThreadCount(tk: seq<Task>, wk: seq<Worker>, tr: seq<Tract>,
                    spare: seq<nat>, g: seq<nat>, tq: seq<seq<nat>>, at: seq<TaskPlace>,
                    unused: seq<nat>, idle: seq<nat>, wat: seq<WorkerState>,
                    tasksUnused: int, tasksFront: int, tasksBack: int,
                    workersUnused: int, idleFront: int, idleBack: int, numThreads: nat)
    requires PoolOK(tk, wk, tr, spare, g, tq, at, unused, idle, wat, tasksUnused, tasksFront, tasksBack,
                    workersUnused, idleFront, idleBack, numThreads)
    ensures |unused| + numThreads == |wk|
    ensures numThreads == |idle| + Occ(wat, Running) + Occ(wat, Signalled)
  {
    EnumeratesLength(unused, wat, Unused);
    EnumeratesLength(idle, wat, Idle);
    WorkerStatesTotal(wat);
  }

  /** A worker that is not on the unused stack has a thread, so numThreads > 0. */
  lemma HasThread(tk: seq<Task>, wk: seq<Worker>, tr: seq<Tract>,
                  spare: seq<nat>, g: seq<nat>, tq: seq<seq<nat>>, at: seq<TaskPlace>,
                  unused: seq<nat>, idle: seq<nat>, wat: seq<WorkerState>,
                  tasksUnused: int, tasksFront: int, tasksBack: int,
                  workersUnused: int, idleFront: int, idleBack: int, numThreads: nat, w: nat)
    requires PoolOK(tk, wk, tr, spare, g, tq, at, unused, idle, wat, tasksUnused, tasksFront, tasksBack,
                    workersUnused, idleFront, idleBack, numThreads)
    requires w < |wat| && wat[w] != Unused
    ensures numThreads > 0
  {
    EnumeratesLength(unused, wat, Unused);
    OccMissing(wat, Unused, w);
  }

  // workerIdleYoungPop (case 1 of _poThreadPool_runTask).

  lemma IdlePopYoungWorkers(wk: seq<Worker>, tr: seq<Tract>, unused: seq<nat>, idle: seq<nat>, wat: seq<WorkerState>,
                            workersUnused: int, idleFront: int, idleBack: int, numThreads: nat, t: int, job: Job)
    requires WorkerSideOK(wk, tr, unused, idle, wat, workersUnused, idleFront, idleBack, numThreads)
    requires |wat| == |wk| && idle != [] && TractRef(t, |tr|) && (t != Null ==> tr[t].worker == Null)
    ensures var x := idleBack; var n := wk[x].next;
      var wk' := SetWorkerPrev(wk, n, Null)[x := wk[x].(next := Null, job := Some(job), tract := t)];
      var tr' := if t == Null then tr else tr[t := tr[t].(worker := x)];
      WorkerSideOK(wk', tr', unused, idle[..|idle| - 1], wat[x := Signalled], workersUnused,
                   if n == Null then Null else idleFront, n, numThreads)
  {
    var m := |idle| - 1;
    var x := idle[m];
    var n := wk[x].next;
    var r := wk[x].(next := Null, job := Some(job), tract := t);
    var wk1 := SetWorkerPrev(wk, n, Null);
    var wk' := wk1[x := r];
    assert wat[x] == Idle && x !in unused;
    assert wk[x].prev == Null;
    IdlePopBack(wk, idle, r);
    assert m > 0 ==> n == idle[m - 1];
    assert m == 0 ==> n == Null;
    EnumeratesPopBack(idle, wat, Idle, Signalled);
    EnumeratesFrame(unused, wat, Unused, x, Signalled);
    if n != Null {
      assert n in idle && n !in unused;
      WorkerStackWrite(wk, unused, n, wk1[n]);
      RecordsKeep(wk, wat, n, wk1[n]);
      BindingsFrame(wk, wk1, tr);
    }
    WorkerStackWrite(wk1, unused, x, r);
    RecordsWrite(wk1, wat, x, r, Signalled);
    assert wk1[x].tract == Null;
    BindingsBind(wk1, tr, x, r, t);
    if m > 0 {
      assert idle[..m][m - 1] == n;
      assert idle[0] == idle[..m][0];
    }
  }

  /** workerIdleYoungPop on the sealed worker side. */
  lemma IdlePopYoungSealed(wk: seq<Worker>, tr: seq<Tract>, unused: seq<nat>, idle: seq<nat>, wat: seq<WorkerState>,
                           workersUnused: int, idleFront: int, idleBack: int, numThreads: nat, t: int, job: Job)
    requires WorkerSealed(wk, tr, unused, idle, wat, workersUnused, idleFront, idleBack, numThreads)
    requires |wat| == |wk| && idle != [] && 0 <= idleBack < |wk| && TractRef(t, |tr|) && (t != Null ==> tr[t].worker == Null)
    ensures var x := idleBack; var n := wk[x].next;
      var wk' := SetWorkerPrev(wk, n, Null)[x := wk[x].(next := Null, job := Some(job), tract := t)];
      var tr' := if t == Null then tr else tr[t := tr[t].(worker := x)];
      WorkerSealed(wk', tr', unused, idle[..|idle| - 1], wat[x := Signalled], workersUnused,
                   if n == Null then Null else idleFront, n, numThreads)
  {
    assert Unfold(0);
    IdlePopYoungWorkers(wk, tr, unused, idle, wat, workersUnused, idleFront, idleBack, numThreads, t, job);
  }

  /** workerIdleYoungPop: the youngest idle worker (idleBack) leaves the idle
      list, is handed the job and, when a tract is given, is bound to it both
      ways; it is signalled and will run the job when it wakes. */
  lemma IdlePopYoungFields(tk: seq<Task>, wk: seq<Worker>, tr: seq<Tract>,
                           spare: seq<nat>, g: seq<nat>, tq: seq<seq<nat>>, at: seq<TaskPlace>,
                           unused: seq<nat>, idle: seq<nat>, wat: seq<WorkerState>,
                           tasksUnused: int, tasksFront: int, tasksBack: int,
                           workersUnused: int, idleFront: int, idleBack: int, numThreads: nat,
                           t: int, job: Job, wk': seq<Worker>, tr': seq<Tract>, idle': seq<nat>, wat': seq<WorkerState>,
                           idleFront': int, idleBack': int)
    requires Sound(tk, wk, tr, spare, g, tq, at, unused, idle, wat, tasksUnused, tasksFront, tasksBack,
                   workersUnused, idleFront, idleBack, numThreads)
    requires idle != [] && TractRef(t, |tr|) && (t != Null ==> tr[t].worker == Null)
    requires var x := idleBack; var n := wk[x].next;
      wk' == SetWorkerPrev(wk, n, Null)[x := wk[x].(next := Null, job := Some(job), tract := t)]
      && tr' == (if t == Null then tr else tr[t := tr[t].(worker := x)])
      && idle' == idle[..|idle| - 1] && wat' == wat[x := Signalled]
      && idleBack' == n && idleFront' == (if n == Null then Null else idleFront)
    ensures Sound(tk, wk', tr', spare, g, tq, at, unused, idle', wat', tasksUnused, tasksFront, tasksBack,
                  workersUnused, idleFront', idleBack', numThreads)
    ensures g == []
  {
    Split(tk, wk, tr, spare, g, tq, at, unused, idle, wat, tasksUnused, tasksFront, tasksBack,
          workersUnused, idleFront, idleBack, numThreads);
    IdlePopYoungSealed(wk, tr, unused, idle, wat, workersUnused, idleFront, idleBack, numThreads, t, job);
    WorkerSideSwap(tk, wk, tr, spare, g, tq, at, unused, idle, wat, tasksUnused, tasksFront, tasksBack,
                   workersUnused, idleFront, idleBack, numThreads,
                   wk', tr', unused, idle', wat', workersUnused, idleFront', idleBack', numThreads);
  }

  // workerOldIdlePopSignal.

  lemma IdlePopOldWorkers(wk: seq<Worker>, tr: seq<Tract>, unused: seq<nat>, idle: seq<nat>, wat: seq<WorkerState>,
                          workersUnused: int, idleFront: int, idleBack: int, numThreads: nat)
    requires WorkerSideOK(wk, tr, unused, idle, wat, workersUnused, idleFront, idleBack, numThreads)
    requires |wat| == |wk| && idle != []
    ensures var x := idleFront; var p := wk[x].prev;
      var wk' := SetWorkerNext(wk, p, Null)[x := wk[x].(prev := Null, next := Null)];
      WorkerSideOK(wk', tr, unused, idle[1..], wat[x := Signalled], workersUnused,
                   p, if p == Null then Null else idleBack, numThreads)
      && (p == Null || p in idle[1..])
  {
    var x := idle[0];
    var p := wk[x].prev;
    var r := wk[x].(prev := Null, next := Null);
    var wk1 := SetWorkerNext(wk, p, Null);
    var wk' := wk1[x := r];
    assert wat[x] == Idle && x !in unused;
    IdlePopFront(wk, idle, r);
    assert |idle| > 1 ==> p == idle[1];
    assert |idle| == 1 ==> p == Null;
    EnumeratesPop(idle, wat, Idle, Signalled);
    EnumeratesFrame(unused, wat, Unused, x, Signalled);
    if p != Null {
      assert p in idle && p !in unused;
      WorkerStackWrite(wk, unused, p, wk1[p]);
      RecordsKeep(wk, wat, p, wk1[p]);
    }
    WorkerStackWrite(wk1, unused, x, r);
    RecordsWrite(wk1, wat, x, r, Signalled);
    BindingsFrame(wk, wk', tr);
    if |idle| > 1 {
      assert idle[1..][0] == p;
      assert idle[1..][|idle| - 2] == idle[|idle| - 1];
    }
  }

  /** workerOldIdlePopSignal: the oldest idle worker (idleFront) leaves the
      idle list and is signalled; with no job it will exit when it wakes
      unless it finds work. */
  lemma IdlePopOldFields(tk: seq<Task>, wk: seq<Worker>, tr: seq<Tract>,
                         spare: seq<nat>, g: seq<nat>, tq: seq<seq<nat>>, at: seq<TaskPlace>,
                         unused: seq<nat>, idle: seq<nat>, wat: seq<WorkerState>,
                         tasksUnused: int, tasksFront: int, tasksBack: int,
                         workersUnused: int, idleFront: int, idleBack: int, numThreads: nat,
                         wk': seq<Worker>, idle': seq<nat>, wat': seq<WorkerState>, idleFront': int, idleBack': int)
    requires Sound(tk, wk, tr, spare, g, tq, at, unused, idle, wat, tasksUnused, tasksFront, tasksBack,
                   workersUnused, idleFront, idleBack, numThreads)
    requires idle != []
    requires var x := idleFront; var p := wk[x].prev;
      wk' == SetWorkerNext(wk, p, Null)[x := wk[x].(prev := Null, next := Null)]
      && idle' == idle[1..] && wat' == wat[x := Signalled]
      && idleFront' == p && idleBack' == (if p == Null then Null else idleBack)
    ensures Sound(tk, wk', tr, spare, g, tq, at, unused, idle', wat', tasksUnused, tasksFront, tasksBack,
                  workersUnused, idleFront', idleBack', numThreads)
    ensures g == [] && idleFront == idle[0] && (wk[idleFront].prev == Null || wk[idleFront].prev in idle[1..])
  {
    Unseal(tk, wk, tr, spare, g, tq, at, unused, idle, wat, tasksUnused, tasksFront, tasksBack,
           workersUnused, idleFront, idleBack, numThreads);
    IdlePopOldWorkers(wk, tr, unused, idle, wat, workersUnused, idleFront, idleBack, numThreads);
    WorkerSideSwap(tk, wk, tr, spare, g, tq, at, unused, idle, wat, tasksUnused, tasksFront, tasksBack,
                   workersUnused, idleFront, idleBack, numThreads,
                   wk', tr, unused, idle', wat', workersUnused, idleFront', idleBack', numThreads);
  }

  // workerUnusedPop (case 2 of _poThreadPool_runTask) and the start of the new thread.

  lemma UnusedPopWorkers(wk: seq<Worker>, tr: seq<Tract>, unused: seq<nat>, idle: seq<nat>, wat: seq<WorkerState>,
                         workersUnused: int, idleFront: int, idleBack: int, numThreads: nat, t: int)
    requires WorkerSideOK(wk, tr, unused, idle, wat, workersUnused, idleFront, idleBack, numThreads)
    requires |wat| == |wk| && unused != [] && TractRef(t, |tr|) && (t != Null ==> tr[t].worker == Null)
    ensures var x := workersUnused;
      var wk' := wk[x := wk[x].(next := Null, job := None, tract := t)];
      var tr' := if t == Null then tr else tr[t := tr[t].(worker := x)];
      WorkerSideOK(wk', tr', unused[1..], idle, wat[x := Running], wk[x].next, idleFront, idleBack, numThreads + 1)
  {
    var x := unused[0];
    var r := wk[x].(next := Null, job := None, tract := t);
    assert wat[x] == Unused && x !in idle;
    WorkerStackPop(wk, unused, r);
    EnumeratesPop(unused, wat, Unused, Running);
    EnumeratesFrame(idle, wat, Idle, x, Running);
    IdleWrite(wk, idle, x, r);
    RecordsWrite(wk, wat, x, r, Running);
    BindingsBind(wk, tr, x, r, t);
    assert |unused| > 1 ==> wk[x].next == unused[1];
  }

  /** workerUnusedPop on the sealed worker side. */
  lemma UnusedPopSealed(wk: seq<Worker>, tr: seq<Tract>, unused: seq<nat>, idle: seq<nat>, wat: seq<WorkerState>,
                        workersUnused: int, idleFront: int, idleBack: int, numThreads: nat, t: int)
    requires WorkerSealed(wk, tr, unused, idle, wat, workersUnused, idleFront, idleBack, numThreads)
    requires |wat| == |wk| && unused != [] && 0 <= workersUnused < |wk| && TractRef(t, |tr|) && (t != Null ==> tr[t].worker == Null)
    ensures var x := workersUnused;
      var wk' := wk[x := wk[x].(next := Null, job := None, tract := t)];
      var tr' := if t == Null then tr else tr[t := tr[t].(worker := x)];
      WorkerSealed(wk', tr', unused[1..], idle, wat[x := Running], wk[x].next, idleFront, idleBack, numThreads + 1)
    ensures numThreads + 1 <= |wk|
  {
    assert Unfold(0);
    UnusedPopWorkers(wk, tr, unused, idle, wat, workersUnused, idleFront, idleBack, numThreads, t);
  }

  /** workerUnusedPop followed by the start of the launched thread: the top of
      the unused worker stack is handed the job and bound to the tract, if
      any; the new thread counts itself in numThreads, takes the job over
      and clears it from the record, and is running. */
  lemma UnusedPopFields(tk: seq<Task>, wk: seq<Worker>, tr: seq<Tract>,
                        spare: seq<nat>, g: seq<nat>, tq: seq<seq<nat>>, at: seq<TaskPlace>,
                        unused: seq<nat>, idle: seq<nat>, wat: seq<WorkerState>,
                        tasksUnused: int, tasksFront: int, tasksBack: int,
                        workersUnused: int, idleFront: int, idleBack: int, numThreads: nat,
                        t: int, wk': seq<Worker>, tr': seq<Tract>, unused': seq<nat>, wat': seq<WorkerState>,
                        workersUnused': int, numThreads': nat)
    requires Sound(tk, wk, tr, spare, g, tq, at, unused, idle, wat, tasksUnused, tasksFront, tasksBack,
                   workersUnused, idleFront, idleBack, numThreads)
    requires unused != [] && TractRef(t, |tr|) && (t != Null ==> tr[t].worker == Null)
    requires var x := workersUnused;
      wk' == wk[x := wk[x].(next := Null, job := None, tract := t)]
      && tr' == (if t == Null then tr else tr[t := tr[t].(worker := x)])
      && unused' == unused[1..] && wat' == wat[x := Running]
      && workersUnused' == wk[x].next && numThreads' == numThreads + 1
    ensures Sound(tk, wk', tr', spare, g, tq, at, unused', idle, wat', tasksUnused, tasksFront, tasksBack,
                  workersUnused', idleFront, idleBack, numThreads')
    ensures g == [] && numThreads' <= |wk|
  {
    Split(tk, wk, tr, spare, g, tq, at, unused, idle, wat, tasksUnused, tasksFront, tasksBack,
          workersUnused, idleFront, idleBack, numThreads);
    UnusedPopSealed(wk, tr, unused, idle, wat, workersUnused, idleFront, idleBack, numThreads, t);
    WorkerSideSwap(tk, wk, tr, spare, g, tq, at, unused, idle, wat, tasksUnused, tasksFront, tasksBack,
                   workersUnused, idleFront, idleBack, numThreads,
                   wk', tr', unused', idle, wat', workersUnused', idleFront, idleBack, numThreads');
  }

  // A worker that finds no work: parked at the back of the idle list.

  lemma ParkWorkers(wk: seq<Worker>, tr: seq<Tract>, unused: seq<nat>, idle: seq<nat>, wat: seq<WorkerState>,
                    workersUnused: int, idleFront: int, idleBack: int, numThreads: nat, w: nat, now: int)
    requires WorkerSideOK(wk, tr, unused, idle, wat, workersUnused, idleFront, idleBack, numThreads)
    requires |wat| == |wk| && w < |wk| && wat[w] == Running && wk[w].tract == Null
    ensures var r := wk[w].(job := None, lastWorkTime := now, next := idleBack);
      WorkerSideOK(SetWorkerPrev(wk[w := r], idleBack, w), tr, unused, idle + [w], wat[w := Idle], workersUnused,
                   if idleBack == Null then w else idleFront, w, numThreads)
  {
    var r := wk[w].(job := None, lastWorkTime := now, next := idleBack);
    var wk1 := wk[w := r];
    var wk' := SetWorkerPrev(wk1, idleBack, w);
    assert w !in idle && w !in unused;
    IdlePushBack(wk, idle, w, r);
    EnumeratesAppend(idle, wat, Idle, w);
    EnumeratesFrame(unused, wat, Unused, w, Idle);
    WorkerStackWrite(wk, unused, w, r);
    RecordsWrite(wk, wat, w, r, Idle);
    if idleBack != Null {
      var b := idleBack;
      assert b in idle && b !in unused && b != w;
      assert wk1[b] == wk[b];
      WorkerStackWrite(wk1, unused, b, wk'[b]);
      RecordsKeep(wk1, wat[w := Idle], b, wk'[b]);
      assert wk' == wk[w := r][b := wk[b].(prev := w)];
    }
    BindingsFrame(wk, wk', tr);
    assert (idle + [w])[|idle|] == w;
    if idle != [] {
      assert (idle + [w])[0] == idle[0];
    }
  }

  /** The idle push of workerPthreadCallback: a running worker bound to no
      tract, with the general queue empty, records the time and becomes the
      youngest (back) member of the idle list. */
  lemma ParkFields(tk: seq<Task>, wk: seq<Worker>, tr: seq<Tract>,
                   spare: seq<nat>, g: seq<nat>, tq: seq<seq<nat>>, at: seq<TaskPlace>,
                   unused: seq<nat>, idle: seq<nat>, wat: seq<WorkerState>,
                   tasksUnused: int, tasksFront: int, tasksBack: int,
                   workersUnused: int, idleFront: int, idleBack: int, numThreads: nat,
                   w: nat, now: int, wk': seq<Worker>, idle': seq<nat>, wat': seq<WorkerState>, idleFront': int, idleBack': int)
    requires Sound(tk, wk, tr, spare, g, tq, at, unused, idle, wat, tasksUnused, tasksFront, tasksBack,
                   workersUnused, idleFront, idleBack, numThreads)
    requires w < |wk| && wat[w] == Running && wk[w].tract == Null && g == []
    requires wk' == SetWorkerPrev(wk[w := wk[w].(job := None, lastWorkTime := now, next := idleBack)], idleBack, w)
    requires idle' == idle + [w] && wat' == wat[w := Idle]
    requires idleFront' == (if idleBack == Null then w else idleFront) && idleBack' == w
    ensures Sound(tk, wk', tr, spare, g, tq, at, unused, idle', wat', tasksUnused, tasksFront, tasksBack,
                  workersUnused, idleFront', idleBack', numThreads)
  {
    Unseal(tk, wk, tr, spare, g, tq, at, unused, idle, wat, tasksUnused, tasksFront, tasksBack,
           workersUnused, idleFront, idleBack, numThreads);
    ParkWorkers(wk, tr, unused, idle, wat, workersUnused, idleFront, idleBack, numThreads, w, now);
    WorkerSideSwap(tk, wk, tr, spare, g, tq, at, unused, idle, wat, tasksUnused, tasksFront, tasksBack,
                   workersUnused, idleFront, idleBack, numThreads,
                   wk', tr, unused, idle', wat', workersUnused, idleFront', idleBack', numThreads);
  }

  // A worker thread that ends: back on the unused stack.

  lemma ExitWorkers(wk: seq<Worker>, tr: seq<Tract>, unused: seq<nat>, idle: seq<nat>, wat: seq<WorkerState>,
                    workersUnused: int, idleFront: int, idleBack: int, numThreads: nat, w: nat)
    requires WorkerSideOK(wk, tr, unused, idle, wat, workersUnused, idleFront, idleBack, numThreads)
    requires |wat| == |wk| && w < |wk| && (wat[w] == Running || wat[w] == Signalled)
    requires wk[w].tract == Null && wk[w].job.None? && numThreads > 0
    ensures WorkerSideOK(wk[w := wk[w].(next := workersUnused)], tr, [w] + unused, idle, wat[w := Unused], w,
                         idleFront, idleBack, numThreads - 1)
  {
    var r := wk[w].(next := workersUnused);
    assert w !in idle && w !in unused;
    WorkerStackPush(wk, unused, w, r);
    EnumeratesPush(unused, wat, Unused, w);
    EnumeratesFrame(idle, wat, Idle, w, Unused);
    IdleWrite(wk, idle, w, r);
    RecordsWrite(wk, wat, w, r, Unused);
    BindingsFrame(wk, wk[w := r], tr);
  }

  /** The exit of workerPthreadCallback: a worker with a thread, holding no
      tract and no job, with the general queue empty, leaves numThreads and
      goes on top of the unused worker stack. */
  lemma ExitFields(tk: seq<Task>, wk: seq<Worker>, tr: seq<Tract>,
                   spare: seq<nat>, g: seq<nat>, tq: seq<seq<nat>>, at: seq<TaskPlace>,
                   unused: seq<nat>, idle: seq<nat>, wat: seq<WorkerState>,
                   tasksUnused: int, tasksFront: int, tasksBack: int,
                   workersUnused: int, idleFront: int, idleBack: int, numThreads: nat,
                   w: nat, wk': seq<Worker>, unused': seq<nat>, wat': seq<WorkerState>, numThreads': int)
    requires Sound(tk, wk, tr, spare, g, tq, at, unused, idle, wat, tasksUnused, tasksFront, tasksBack,
                   workersUnused, idleFront, idleBack, numThreads)
    requires w < |wk| && (wat[w] == Running || wat[w] == Signalled) && wk[w].tract == Null && wk[w].job.None? && g == []
    requires wk' == wk[w := wk[w].(next := workersUnused)] && unused' == [w] + unused && wat' == wat[w := Unused]
    requires numThreads' == numThreads - 1
    ensures numThreads' >= 0
    ensures Sound(tk, wk', tr, spare, g, tq, at, unused', idle, wat', tasksUnused, tasksFront, tasksBack,
                  w, idleFront, idleBack, numThreads')
  {
    Unseal(tk, wk, tr, spare, g, tq, at, unused, idle, wat, tasksUnused, tasksFront, tasksBack,
           workersUnused, idleFront, idleBack, numThreads);
    HasThread(tk, wk, tr, spare, g, tq, at, unused, idle, wat, tasksUnused, tasksFront, tasksBack,
              workersUnused, idleFront, idleBack, numThreads, w);
    ExitWorkers(wk, tr, unused, idle, wat, workersUnused, idleFront, idleBack, numThreads, w);
    WorkerSideSwap(tk, wk, tr, spare, g, tq, at, unused, idle, wat, tasksUnused, tasksFront, tasksBack,
                   workersUnused, idleFront, idleBack, numThreads,
                   wk', tr, unused', idle, wat', w, idleFront, idleBack, numThreads');
  }

  /** A signalled worker wakes up and runs: the job handed to it, if any, is
      taken over by the thread and cleared from the record. */
  lemma WakeFields(tk: seq<Task>, wk: seq<Worker>, tr: seq<Tract>,
                   spare: seq<nat>, g: seq<nat>, tq: seq<seq<nat>>, at: seq<TaskPlace>,
                   unused: seq<nat>, idle: seq<nat>, wat: seq<WorkerState>,
                   tasksUnused: int, tasksFront: int, tasksBack: int,
                   workersUnused: int, idleFront: int, idleBack: int, numThreads: nat, w: nat)
    requires Sound(tk, wk, tr, spare, g, tq, at, unused, idle, wat, tasksUnused, tasksFront, tasksBack,
                   workersUnused, idleFront, idleBack, numThreads)
    requires w < |wk| && wat[w] == Signalled
    ensures Sound(tk, wk[w := wk[w].(job := None)], tr, spare, g, tq, at, unused, idle, wat[w := Running],
                  tasksUnused, tasksFront, tasksBack, workersUnused, idleFront, idleBack, numThreads)
  {
    Unseal(tk, wk, tr, spare, g, tq, at, unused, idle, wat, tasksUnused, tasksFront, tasksBack,
           workersUnused, idleFront, idleBack, numThreads);
    var r := wk[w].(job := None);
    assert w !in idle && w !in unused;
    EnumeratesFrame(idle, wat, Idle, w, Running);
    EnumeratesFrame(unused, wat, Unused, w, Running);
    IdleWrite(wk, idle, w, r);
    WorkerStackWrite(wk, unused, w, r);
    RecordsWrite(wk, wat, w, r, Running);
    BindingsFrame(wk, wk[w := r], tr);
    Seal(tk, wk[w := r], tr, spare, g, tq, at, unused, idle, wat[w := Running],
         tasksUnused, tasksFront, tasksBack, workersUnused, idleFront, idleBack, numThreads);
  }

  // The tract as the user sees it.

  /** poThreadPool_checkTractFinish: a tract with no queued task and no
      worker already is a zeroed tract, so resetting it changes nothing. */
  lemma TractFinishFresh(tk: seq<Task>, wk: seq<Worker>, tr: seq<Tract>,
                         spare: seq<nat>, g: seq<nat>, tq: seq<seq<nat>>, at: seq<TaskPlace>,
                         unused: seq<nat>, idle: seq<nat>, wat: seq<WorkerState>,
                         tasksUnused: int, tasksFront: int, tasksBack: int,
                         workersUnused: int, idleFront: int, idleBack: int, numThreads: nat, t: nat)
    requires PoolOK(tk, wk, tr, spare, g, tq, at, unused, idle, wat, tasksUnused, tasksFront, tasksBack,
                    workersUnused, idleFront, idleBack, numThreads)
    requires t < |tr|
    ensures tr[t].taskCount == 0 <==> Pending(tk, g, tq, t) == []
    ensures tr[t].taskCount == 0 && tr[t].worker == Null <==> tr[t] == FreshTract
  {
    assert QueueOK(tk, tq[t], tr[t], at, t);
    assert tr[t].taskCount == |Pending(tk, g, tq, t)|;
  }

  /** A tract has a bound worker only while that worker has a thread and is
      not idle: it runs a job of the tract or is about to. */
  lemma BoundWorkerWorks(tk: seq<Task>, wk: seq<Worker>, tr: seq<Tract>,
                         spare: seq<nat>, g: seq<nat>, tq: seq<seq<nat>>, at: seq<TaskPlace>,
                         unused: seq<nat>, idle: seq<nat>, wat: seq<WorkerState>,
                         tasksUnused: int, tasksFront: int, tasksBack: int,
                         workersUnused: int, idleFront: int, idleBack: int, numThreads: nat, t: nat)
    requires PoolOK(tk, wk, tr, spare, g, tq, at, unused, idle, wat, tasksUnused, tasksFront, tasksBack,
                    workersUnused, idleFront, idleBack, numThreads)
    requires t < |tr| && tr[t].worker != Null
    ensures 0 <= tr[t].worker < |wk| && wk[tr[t].worker].tract == t
    ensures wat[tr[t].worker] == Running || wat[tr[t].worker] == Signalled
  {
    var w := tr[t].worker;
    assert Fits(wk[w], wat[w]);
  }

  /** The task slab is conserved: the unused stack, the general queue and the
      private queues together hold maxQueueLength records. */
  lemma TaskSlotsConserved(tk: seq<Task>, wk: seq<Worker>, tr: seq<Tract>,
                           spare: seq<nat>, g: seq<nat>, tq: seq<seq<nat>>, at: seq<TaskPlace>,
                           unused: seq<nat>, idle: seq<nat>, wat: seq<WorkerState>,
                           tasksUnused: int, tasksFront: int, tasksBack: int,
                           workersUnused: int, idleFront: int, idleBack: int, numThreads: nat)
    requires PoolOK(tk, wk, tr, spare, g, tq, at, unused, idle, wat, tasksUnused, tasksFront, tasksBack,
                    workersUnused, idleFront, idleBack, numThreads)
    ensures |spare| + |g| + SumLengths(tq) == |tk|
  {
    EnumeratesLength(spare, at, Spare);
    EnumeratesLength(g, at, General);
    forall t | 0 <= t < |tq| ensures Enumerates(tq[t], at, InTract(t)) {
      assert QueueOK(tk, tq[t], tr[t], at, t);
    }
    TractQueuesLength(tq, at);
    TaskPlacesTotal(at, |tq|);
  }

  // _poThreadPool_lookForWork, no work: the worker lets go of its tract.

  lemma UnbindFields(tk: seq<Task>, wk: seq<Worker>, tr: seq<Tract>,
                     spare: seq<nat>, g: seq<nat>, tq: seq<seq<nat>>, at: seq<TaskPlace>,
                     unused: seq<nat>, idle: seq<nat>, wat: seq<WorkerState>,
                     tasksUnused: int, tasksFront: int, tasksBack: int,
                     workersUnused: int, idleFront: int, idleBack: int, numThreads: nat,
                     w: nat, wk': seq<Worker>, tr': seq<Tract>)
    requires Sound(tk, wk, tr, spare, g, tq, at, unused, idle, wat, tasksUnused, tasksFront, tasksBack,
                   workersUnused, idleFront, idleBack, numThreads)
    requires w < |wk| && (wat[w] == Running || wat[w] == Signalled)
    requires var wt := wk[w].tract; 0 <= wt < |tr| && tr[wt].firstTask == Null
    requires wk' == wk[w := wk[w].(tract := Null)] && tr' == tr[wk[w].tract := tr[wk[w].tract].(worker := Null)]
    ensures Sound(tk, wk', tr', spare, g, tq, at, unused, idle, wat, tasksUnused, tasksFront, tasksBack,
                  workersUnused, idleFront, idleBack, numThreads)
  {
    Split(tk, wk, tr, spare, g, tq, at, unused, idle, wat, tasksUnused, tasksFront, tasksBack,
          workersUnused, idleFront, idleBack, numThreads);
    var wt := wk[w].tract;
    assert tq[wt] == [] by {
      assert Unfold(0);
      assert QueueOK(tk, tq[wt], tr[wt], at, wt);
    }
    UnbindWorkers(wk, tr, unused, idle, wat, workersUnused, idleFront, idleBack, numThreads, w);
    assert SameEnds(tr, tr') && SameCounts(tr, tr');
    assert HeldOK(tq, tr');
    WorkerSideSwap(tk, wk, tr, spare, g, tq, at, unused, idle, wat, tasksUnused, tasksFront, tasksBack,
                   workersUnused, idleFront, idleBack, numThreads,
                   wk', tr', unused, idle, wat, workersUnused, idleFront, idleBack, numThreads);
  }

  /** The worker side once worker `w` lets go of its tract. */
  lemma UnbindWorkers(wk: seq<Worker>, tr: seq<Tract>, unused: seq<nat>, idle: seq<nat>, wat: seq<WorkerState>,
                      workersUnused: int, idleFront: int, idleBack: int, numThreads: nat, w: nat)
    requires WorkerSealed(wk, tr, unused, idle, wat, workersUnused, idleFront, idleBack, numThreads)
    requires w < |wk| && w < |wat| && (wat[w] == Running || wat[w] == Signalled) && 0 <= wk[w].tract < |tr|
    ensures WorkerSealed(wk[w := wk[w].(tract := Null)], tr[wk[w].tract := tr[wk[w].tract].(worker := Null)],
                         unused, idle, wat, workersUnused, idleFront, idleBack, numThreads)
  {
    assert Unfold(0);
    var wt := wk[w].tract;
    var wk', tr' := wk[w := wk[w].(tract := Null)], tr[wt := tr[wt].(worker := Null)];
    assert w !in unused && w !in idle;
    WorkerStackWrite(wk, unused, w, wk'[w]);
    IdleWrite(wk, idle, w, wk'[w]);
    assert RecordsOK(wk', wat) by {
      forall v | 0 <= v < |wk'| && v < |wat| ensures Fits(wk'[v], wat[v]) {
        assert Fits(wk[v], wat[v]);
      }
    }
    assert BindingsOK(wk', tr') by {
      forall t | 0 <= t < |tr'| && t != wt && tr[t].worker != Null ensures tr[t].worker != w {
      }
    }
  }

}
