/** The records of the pool (POThreadPool_task, POThreadPool_worker,
    POThreadPool_tract) and the shapes of the intrusive lists built from them.
    A pointer into the task or worker slab is an index; NULL is Lists.Null. */
module PoolRecords {
  import opened Lists

  datatype Option<T> = None | Some(value: T)

  /** The user's work: callback and data pointers, as opaque ids. */
  datatype Job = Job(callback: nat, data: nat)

  /** A task record: the job, the single link it uses in whichever list it is
      in, and the tract it belongs to (Null for none). */
  datatype Task = Task(job: Job, next: int, tract: int)

  /** A worker record: a job handed over directly (NULL userCallback is None),
      the idle/unused list links, the time it last went idle (milliseconds) and
      its bound tract (Null for none).  The thread, condition variable and pool
      back pointer are not modelled. */
  datatype Worker = Worker(job: Option<Job>, next: int, prev: int, lastWorkTime: int, tract: int)

  /** A tract record: the worker bound to it, the front and back of its private
      queue, and the number of its queued tasks. */
  datatype Tract = Tract(worker: int, firstTask: int, lastTask: int, taskCount: nat)

  /** POThreadPool_tasks: the back and front of the general queue and the
      top of the unused task stack. */
  datatype TaskLists = TaskLists(back: int, front: int, unused: int)

  /** POThreadPool_workers: the back (youngest) and front (oldest) of the
      idle list and the top of the unused worker stack. */
  datatype WorkerLists = WorkerLists(idleBack: int, idleFront: int, unused: int)

  /** A zeroed tract: what a user hands in to start a new tract. */
  const FreshTract: Tract := Tract(Null, Null, Null, 0)

  /** Zeroed slab records, as the allocator hands them out. */
  const BlankTask: Task := Task(Job(0, 0), Null, Null)
  const BlankWorker: Worker := Worker(None, Null, Null, 0, Null)

  /** Which list holds a task record: the unused stack, the general queue or the
      private queue of tract `tract`. */
  datatype TaskPlace = Spare | General | InTract(tract: nat)

  /** The three kinds of worker of lib/_threadPool.h, with "working" split into
      running a callback and signalled (popped from the idle list, not yet awake). */
  datatype WorkerState = Unused | Idle | Running | Signalled

  /** What a worker record holds in each state. */
  predicate Fits(r: Worker, s: WorkerState) {
    match s
    case Unused => r.job.None? && r.tract == Null
    case Idle => r.job.None? && r.tract == Null
    case Running => r.job.None? && r.next == Null && r.prev == Null
    case Signalled => r.next == Null && r.prev == Null
  }

  /** `s` is the list of task records reached from s[0] along `next`, ending in Null. */
  ghost predicate TaskChain(tk: seq<Task>, s: seq<nat>) {
    (forall k :: 0 <= k < |s| ==> s[k] < |tk|)
    && (forall k {:trigger tk[s[k]]} :: 0 <= k < |s| ==> tk[s[k]].next == (if k + 1 < |s| then s[k + 1] else Null))
  }

  /** The unused worker stack: linked from the top along `next`; `prev` is unused (Null). */
  ghost predicate WorkerStack(wk: seq<Worker>, s: seq<nat>) {
    (forall k :: 0 <= k < |s| ==> s[k] < |wk|)
    && (forall k {:trigger wk[s[k]]} :: 0 <= k < |s| ==>
      wk[s[k]].next == (if k + 1 < |s| then s[k + 1] else Null) && wk[s[k]].prev == Null)
  }

  /** The idle list, `s` oldest (idleFront) first: `next` points toward the front
      and `prev` toward the back, so idleFront.next == Null and idleBack.prev == Null. */
  ghost predicate IdleChain(wk: seq<Worker>, s: seq<nat>) {
    (forall k :: 0 <= k < |s| ==> s[k] < |wk|)
    && (forall k {:trigger wk[s[k]]} :: 0 <= k < |s| ==>
      wk[s[k]].next == (if k > 0 then s[k - 1] else Null)
      && wk[s[k]].prev == (if k + 1 < |s| then s[k + 1] else Null))
  }

  /** The slab with record `b`'s `next` link set to `x`; unchanged when `b` is Null. */
  function SetTaskNext(tk: seq<Task>, b: int, x: int): seq<Task> {
    if 0 <= b < |tk| then tk[b := tk[b].(next := x)] else tk
  }

  function SetWorkerNext(wk: seq<Worker>, b: int, x: int): seq<Worker> {
    if 0 <= b < |wk| then wk[b := wk[b].(next := x)] else wk
  }

  function SetWorkerPrev(wk: seq<Worker>, b: int, x: int): seq<Worker> {
    if 0 <= b < |wk| then wk[b := wk[b].(prev := x)] else wk
  }

  /** The tract table after the worker bound to tract `t` lets go of it;
      unchanged when `t` is Null. */
  function Release(tr: seq<Tract>, t: int): (r: seq<Tract>)
    ensures |r| == |tr|
  {
    if 0 <= t < |tr| then tr[t := tr[t].(worker := Null)] else tr
  }

  // How the chains survive the pointer updates of the pool.

  /** Task records linked in index order spell the list 0, 1, .., n-1. */
  lemma IotaChain(tk: seq<Task>, s: seq<nat>)
    requires IsIota(s) && |s| == |tk|
    requires forall k :: 0 <= k < |tk| ==> tk[k].next == (if k + 1 < |tk| then k + 1 else Null)
    ensures TaskChain(tk, s)
  {
  }

  /** Unused worker records linked in index order spell the stack 0, 1, .., n-1. */
  lemma IotaStack(wk: seq<Worker>, s: seq<nat>)
    requires IsIota(s) && |s| == |wk|
    requires forall k :: 0 <= k < |wk| ==> wk[k].next == (if k + 1 < |wk| then k + 1 else Null) && wk[k].prev == Null
    ensures WorkerStack(wk, s)
  {
  }

  lemma TaskChainTail(tk: seq<Task>, s: seq<nat>)
    requires TaskChain(tk, s) && s != []
    ensures TaskChain(tk, s[1..])
  {
    forall k | 0 <= k < |s| - 1 ensures tk[s[1..][k]].next == (if k + 1 < |s| - 1 then s[1..][k + 1] else Null) {
      assert s[1..][k] == s[k + 1];
      assert tk[s[k + 1]].next == (if k + 2 < |s| then s[k + 2] else Null);
    }
  }

  /** Writing a record that is not in the list leaves the list intact. */
  lemma TaskChainWrite(tk: seq<Task>, s: seq<nat>, x: nat, r: Task)
    requires TaskChain(tk, s) && x < |tk| && x !in s
    ensures TaskChain(tk[x := r], s)
  {
    forall k | 0 <= k < |s| ensures tk[x := r][s[k]] == tk[s[k]] {
      assert s[k] in s;
    }
  }

  /** Push on the front: the new record links to the old head. */
  lemma TaskChainPush(tk: seq<Task>, s: seq<nat>, x: nat, r: Task)
    requires TaskChain(tk, s) && x < |tk| && x !in s && r.next == Head(s)
    ensures TaskChain(tk[x := r], [x] + s)
  {
    var tk' := tk[x := r];
    var s' := [x] + s;
    TaskChainWrite(tk, s, x, r);
    forall k | 0 <= k < |s'| ensures tk'[s'[k]].next == (if k + 1 < |s'| then s'[k + 1] else Null) {
      if k > 0 {
        assert s'[k] == s[k - 1];
        assert tk'[s[k - 1]].next == (if k < |s| then s[k] else Null);
      }
    }
  }

  /** Append at the back: the old back links to the new record, which ends the list. */
  lemma TaskChainAppend(tk: seq<Task>, s: seq<nat>, x: nat, r: Task)
    requires TaskChain(tk, s) && Distinct(s) && x < |tk| && x !in s && r.next == Null
    ensures s != [] ==> TaskChain(tk[Back(s) := tk[Back(s)].(next := x)][x := r], s + [x])
    ensures s == [] ==> TaskChain(tk[x := r], [x])
  {
    DistinctPairwise(s);
    if s != [] {
      var n := |s| - 1;
      var b := s[n];
      var tk1 := tk[b := tk[b].(next := x)];
      var tk' := tk1[x := r];
      var s' := s + [x];
      forall k | 0 <= k < |s'| ensures s'[k] < |tk'| {
        if k < |s| { assert s'[k] == s[k]; }
      }
      forall k | 0 <= k < |s'| ensures tk'[s'[k]].next == (if k + 1 < |s'| then s'[k + 1] else Null) {
        if k < n {
          assert s'[k] == s[k] && s'[k + 1] == s[k + 1];
          assert s[k] != b;
          assert tk[s[k]].next == s[k + 1];
        } else if k == n {
          assert s'[k] == b && b != x;
        }
      }
    }
  }

  lemma WorkerStackWrite(wk: seq<Worker>, s: seq<nat>, x: nat, r: Worker)
    requires WorkerStack(wk, s) && x < |wk| && x !in s
    ensures WorkerStack(wk[x := r], s)
  {
    forall k | 0 <= k < |s| ensures wk[x := r][s[k]] == wk[s[k]] {
      assert s[k] in s;
    }
  }

  /** Pop the top of the unused stack and overwrite the popped record. */
  lemma WorkerStackPop(wk: seq<Worker>, s: seq<nat>, r: Worker)
    requires WorkerStack(wk, s) && Distinct(s) && s != []
    ensures WorkerStack(wk[s[0] := r], s[1..])
  {
    DistinctPairwise(s);
    var s' := s[1..];
    forall k | 0 <= k < |s'|
      ensures wk[s[0] := r][s'[k]].next == (if k + 1 < |s'| then s'[k + 1] else Null) && wk[s[0] := r][s'[k]].prev == Null
    {
      assert s'[k] == s[k + 1] && s[k + 1] != s[0];
      assert wk[s[k + 1]].next == (if k + 2 < |s| then s[k + 2] else Null);
    }
  }

  /** Push on the unused stack: the record links to the old top. */
  lemma WorkerStackPush(wk: seq<Worker>, s: seq<nat>, x: nat, r: Worker)
    requires WorkerStack(wk, s) && x < |wk| && x !in s && r.next == Head(s) && r.prev == Null
    ensures WorkerStack(wk[x := r], [x] + s)
  {
    var wk' := wk[x := r];
    var s' := [x] + s;
    WorkerStackWrite(wk, s, x, r);
    forall k | 0 <= k < |s'|
      ensures wk'[s'[k]].next == (if k + 1 < |s'| then s'[k + 1] else Null) && wk'[s'[k]].prev == Null
    {
      if k > 0 {
        assert s'[k] == s[k - 1];
        assert wk'[s[k - 1]].next == (if k < |s| then s[k] else Null);
      }
    }
  }

  lemma IdleWrite(wk: seq<Worker>, s: seq<nat>, x: nat, r: Worker)
    requires IdleChain(wk, s) && x < |wk| && x !in s
    ensures IdleChain(wk[x := r], s)
  {
    forall k | 0 <= k < |s| ensures wk[x := r][s[k]] == wk[s[k]] {
      assert s[k] in s;
    }
  }

  /** A worker goes idle: it becomes the new back (youngest) of the idle list. */
  lemma IdlePushBack(wk: seq<Worker>, s: seq<nat>, x: nat, r: Worker)
    requires IdleChain(wk, s) && Distinct(s) && x < |wk| && x !in s
    requires r.next == Back(s) && r.prev == Null
    ensures s != [] ==> IdleChain(wk[x := r][Back(s) := wk[Back(s)].(prev := x)], s + [x])
    ensures s == [] ==> IdleChain(wk[x := r], [x])
  {
    DistinctPairwise(s);
    if s != [] {
      var s' := s + [x];
      PushBackNexts(wk, s, x, r);
      PushBackPrevs(wk, s, x, r);
      forall k | 0 <= k < |s'| ensures s'[k] < |wk| {
        if k < |s| { assert s'[k] == s[k]; }
      }
    }
  }

  lemma PushBackNexts(wk: seq<Worker>, s: seq<nat>, x: nat, r: Worker)
    requires IdleChain(wk, s) && x < |wk| && x !in s && s != [] && r.next == Back(s)
    ensures var wk' := wk[x := r][Back(s) := wk[Back(s)].(prev := x)]; var s' := s + [x];
      forall k :: 0 <= k < |s'| ==> wk'[s'[k]].next == (if k > 0 then s'[k - 1] else Null)
  {
    var b := s[|s| - 1];
    var wk' := wk[x := r][b := wk[b].(prev := x)];
    var s' := s + [x];
    forall k | 0 <= k < |s'| ensures wk'[s'[k]].next == (if k > 0 then s'[k - 1] else Null) {
      if k < |s| {
        assert s'[k] == s[k] && s[k] != x;
        assert wk[s[k]].next == (if k > 0 then s[k - 1] else Null);
        if k > 0 { assert s'[k - 1] == s[k - 1]; }
      } else {
        assert s'[k] == x && x != b && s'[k - 1] == b;
      }
    }
  }

  lemma PushBackPrevs(wk: seq<Worker>, s: seq<nat>, x: nat, r: Worker)
    requires IdleChain(wk, s) && PairwiseDistinct(s) && x < |wk| && x !in s && s != [] && r.prev == Null
    ensures var wk' := wk[x := r][Back(s) := wk[Back(s)].(prev := x)]; var s' := s + [x];
      forall k :: 0 <= k < |s'| ==> wk'[s'[k]].prev == (if k + 1 < |s'| then s'[k + 1] else Null)
  {
    var b := s[|s| - 1];
    var wk' := wk[x := r][b := wk[b].(prev := x)];
    var s' := s + [x];
    forall k | 0 <= k < |s'| ensures wk'[s'[k]].prev == (if k + 1 < |s'| then s'[k + 1] else Null) {
      if k < |s| - 1 {
        assert s'[k] == s[k] && s[k] != b && s[k] != x;
        assert wk[s[k]].prev == s[k + 1];
        assert s'[k + 1] == s[k + 1];
      } else if k == |s| - 1 {
        assert s'[k] == b && s'[k + 1] == x;
      } else {
        assert s'[k] == x && x != b;
      }
    }
  }

  /** The youngest idle worker (the back) leaves the idle list; its record is then overwritten. */
  lemma IdlePopBack(wk: seq<Worker>, s: seq<nat>, r: Worker)
    requires IdleChain(wk, s) && Distinct(s) && s != []
    ensures |s| > 1 ==> IdleChain(wk[s[|s| - 2] := wk[s[|s| - 2]].(prev := Null)][s[|s| - 1] := r], s[..|s| - 1])
    ensures |s| == 1 ==> IdleChain(wk[s[0] := r], [])
  {
    DistinctPairwise(s);
    if |s| > 1 {
      PopBackNexts(wk, s, r);
      PopBackPrevs(wk, s, r);
    }
  }

  lemma PopBackNexts(wk: seq<Worker>, s: seq<nat>, r: Worker)
    requires IdleChain(wk, s) && PairwiseDistinct(s) && |s| > 1
    ensures var n := |s| - 1; var wk' := wk[s[n - 1] := wk[s[n - 1]].(prev := Null)][s[n] := r]; var s' := s[..n];
      forall k :: 0 <= k < |s'| ==> wk'[s'[k]].next == (if k > 0 then s'[k - 1] else Null)
  {
    var n := |s| - 1;
    var wk' := wk[s[n - 1] := wk[s[n - 1]].(prev := Null)][s[n] := r];
    var s' := s[..n];
    forall k | 0 <= k < |s'| ensures wk'[s'[k]].next == (if k > 0 then s'[k - 1] else Null) {
      assert s'[k] == s[k] && s[k] != s[n];
      assert wk[s[k]].next == (if k > 0 then s[k - 1] else Null);
      if k > 0 { assert s'[k - 1] == s[k - 1]; }
    }
  }

  lemma PopBackPrevs(wk: seq<Worker>, s: seq<nat>, r: Worker)
    requires IdleChain(wk, s) && PairwiseDistinct(s) && |s| > 1
    ensures var n := |s| - 1; var wk' := wk[s[n - 1] := wk[s[n - 1]].(prev := Null)][s[n] := r]; var s' := s[..n];
      forall k :: 0 <= k < |s'| ==> wk'[s'[k]].prev == (if k + 1 < |s'| then s'[k + 1] else Null)
  {
    var n := |s| - 1;
    var wk' := wk[s[n - 1] := wk[s[n - 1]].(prev := Null)][s[n] := r];
    var s' := s[..n];
    forall k | 0 <= k < |s'| ensures wk'[s'[k]].prev == (if k + 1 < |s'| then s'[k + 1] else Null) {
      assert s'[k] == s[k] && s[k] != s[n];
      if k < n - 1 {
        assert s[k] != s[n - 1];
        assert wk[s[k]].prev == s[k + 1];
        assert s'[k + 1] == s[k + 1];
      }
    }
  }

  /** The oldest idle worker (the front) leaves the idle list; its record is then overwritten. */
  lemma IdlePopFront(wk: seq<Worker>, s: seq<nat>, r: Worker)
    requires IdleChain(wk, s) && Distinct(s) && s != []
    ensures |s| > 1 ==> IdleChain(wk[s[1] := wk[s[1]].(next := Null)][s[0] := r], s[1..])
    ensures |s| == 1 ==> IdleChain(wk[s[0] := r], [])
  {
    DistinctPairwise(s);
    if |s| > 1 {
      PopFrontNexts(wk, s, r);
      PopFrontPrevs(wk, s, r);
    }
  }

  lemma PopFrontNexts(wk: seq<Worker>, s: seq<nat>, r: Worker)
    requires IdleChain(wk, s) && PairwiseDistinct(s) && |s| > 1
    ensures var wk' := wk[s[1] := wk[s[1]].(next := Null)][s[0] := r]; var s' := s[1..];
      forall k :: 0 <= k < |s'| ==> wk'[s'[k]].next == (if k > 0 then s'[k - 1] else Null)
  {
    var wk' := wk[s[1] := wk[s[1]].(next := Null)][s[0] := r];
    var s' := s[1..];
    forall k | 0 <= k < |s'| ensures wk'[s'[k]].next == (if k > 0 then s'[k - 1] else Null) {
      assert s'[k] == s[k + 1] && s[k + 1] != s[0];
      if k > 0 {
        assert s[k + 1] != s[1];
        assert wk[s[k + 1]].next == s[k];
        assert s'[k - 1] == s[k];
      }
    }
  }

  lemma PopFrontPrevs(wk: seq<Worker>, s: seq<nat>, r: Worker)
    requires IdleChain(wk, s) && PairwiseDistinct(s) && |s| > 1
    ensures var wk' := wk[s[1] := wk[s[1]].(next := Null)][s[0] := r]; var s' := s[1..];
      forall k :: 0 <= k < |s'| ==> wk'[s'[k]].prev == (if k + 1 < |s'| then s'[k + 1] else Null)
  {
    var wk' := wk[s[1] := wk[s[1]].(next := Null)][s[0] := r];
    var s' := s[1..];
    forall k | 0 <= k < |s'| ensures wk'[s'[k]].prev == (if k + 1 < |s'| then s'[k + 1] else Null) {
      assert s'[k] == s[k + 1] && s[k + 1] != s[0];
      assert wk[s[k + 1]].prev == (if k + 2 < |s| then s[k + 2] else Null);
      if k + 1 < |s'| { assert s'[k + 1] == s[k + 2]; }
    }
  }

  /** The tasks of `g` that belong to tract `u`, in order. */
  ghost function Filter(g: seq<nat>, tk: seq<Task>, u: nat): (r: seq<nat>)
    ensures |r| <= |g|
  {
    if g == [] then []
    else (if g[0] < |tk| && tk[g[0]].tract == u then [g[0]] else []) + Filter(g[1..], tk, u)
  }

  lemma {:induction false} FilterAppend(g: seq<nat>, x: nat, tk: seq<Task>, u: nat)
    ensures Filter(g + [x], tk, u) == Filter(g, tk, u) + (if x < |tk| && tk[x].tract == u then [x] else [])
  {
    if g == [] {
      assert g + [x] == [x];
    } else {
      assert (g + [x])[1..] == g[1..] + [x];
      FilterAppend(g[1..], x, tk, u);
    }
  }

  lemma {:induction false} FilterPrefix(g: seq<nat>, i: nat, tk: seq<Task>, u: nat)
    requires i < |g|
    ensures Filter(g[..i + 1], tk, u) == Filter(g[..i], tk, u) + (if g[i] < |tk| && tk[g[i]].tract == u then [g[i]] else [])
  {
    assert g[..i + 1] == g[..i] + [g[i]];
    FilterAppend(g[..i], g[i], tk, u);
  }

  /** Filter only looks at the tract of each listed task. */
  lemma {:induction false} FilterFrame(g: seq<nat>, tk: seq<Task>, tk': seq<Task>, u: nat)
    requires forall k :: 0 <= k < |g| ==> g[k] < |tk| && g[k] < |tk'| && tk[g[k]].tract == tk'[g[k]].tract
    ensures Filter(g, tk, u) == Filter(g, tk', u)
  {
    if g != [] {
      FilterFrame(g[1..], tk, tk', u);
    }
  }

  /** Writing a task record that is not listed, or that keeps its tract, does not change Filter. */
  lemma {:induction false} FilterWrite(g: seq<nat>, tk: seq<Task>, x: nat, r: Task, u: nat)
    requires x < |tk| && (x !in g || r.tract == tk[x].tract)
    ensures Filter(g, tk[x := r], u) == Filter(g, tk, u)
  {
    if g != [] {
      assert x !in g ==> x !in g[1..];
      FilterWrite(g[1..], tk, x, r, u);
    }
  }

  lemma {:induction false} FilterTail(g: seq<nat>, i: nat, tk: seq<Task>, u: nat)
    requires i < |g|
    ensures Filter(g[i..], tk, u) == (if g[i] < |tk| && tk[g[i]].tract == u then [g[i]] else []) + Filter(g[i + 1..], tk, u)
  {
    assert g[i..][1..] == g[i + 1..];
  }

  /** No task of `g` belongs to tract `u`. */
  lemma {:induction false} FilterEmpty(g: seq<nat>, tk: seq<Task>, u: nat)
    requires forall k :: 0 <= k < |g| ==> g[k] < |tk| && tk[g[k]].tract != u
    ensures Filter(g, tk, u) == []
  {
    if g != [] {
      FilterEmpty(g[1..], tk, u);
    }
  }

  /** General-queue task `x` belongs to a tract that a worker other than `w` holds. */
  ghost predicate HeldElsewhere(tk: seq<Task>, tr: seq<Tract>, w: nat, x: nat) {
    x < |tk| && 0 <= tk[x].tract < |tr|
    && tr[tk[x].tract].worker != Null && tr[tk[x].tract].worker != w
  }

  /** Position in the general queue `g` of the first task worker `w` may take;
      |g| when every task is held up by a tract another worker holds. */
  ghost function FirstTakeable(g: seq<nat>, tk: seq<Task>, tr: seq<Tract>, w: nat): (k: nat)
    ensures k <= |g|
    ensures forall j :: 0 <= j < k ==> HeldElsewhere(tk, tr, w, g[j])
    ensures k < |g| ==> !HeldElsewhere(tk, tr, w, g[k])
  {
    if g == [] then 0
    else if HeldElsewhere(tk, tr, w, g[0]) then 1 + FirstTakeable(g[1..], tk, tr, w)
    else 0
  }

  /** The contract of FirstTakeable determines it. */
  lemma FirstTakeableUnique(g: seq<nat>, tk: seq<Task>, tr: seq<Tract>, w: nat, k: nat)
    requires k <= |g|
    requires forall j :: 0 <= j < k ==> HeldElsewhere(tk, tr, w, g[j])
    requires k < |g| ==> !HeldElsewhere(tk, tr, w, g[k])
    ensures FirstTakeable(g, tk, tr, w) == k
  {
  }

  /** FirstTakeable depends only on which tasks of the queue are held up. */
  lemma {:induction false} FirstTakeableFrame(g: seq<nat>, tk: seq<Task>, tr: seq<Tract>, tk': seq<Task>, tr': seq<Tract>, w: nat)
    requires forall j :: 0 <= j < |g| ==> (HeldElsewhere(tk, tr, w, g[j]) <==> HeldElsewhere(tk', tr', w, g[j]))
    ensures FirstTakeable(g, tk, tr, w) == FirstTakeable(g, tk', tr', w)
  {
    if g != [] {
      FirstTakeableFrame(g[1..], tk, tr, tk', tr', w);
    }
  }

  /** Total number of tasks in the private queues of tracts 0..n-1. */
  function SumLengths(q: seq<seq<nat>>): nat {
    if q == [] then 0 else SumLengths(q[..|q| - 1]) + |q[|q| - 1]|
  }

  /** Number of task slots queued in tracts below `n`. */
  function QueuedBelow(at: seq<TaskPlace>, n: nat): nat {
    if n == 0 then 0 else QueuedBelow(at, n - 1) + Occ(at, InTract(n - 1))
  }

  lemma {:induction false} QueuedBelowEmpty(n: nat)
    ensures QueuedBelow([], n) == 0
  {
    if n > 0 {
      QueuedBelowEmpty(n - 1);
    }
  }

  lemma {:induction false} QueuedBelowSnoc(at: seq<TaskPlace>, p: TaskPlace, n: nat)
    ensures QueuedBelow(at + [p], n) == QueuedBelow(at, n) + (if p.InTract? && p.tract < n then 1 else 0)
  {
    if n > 0 {
      QueuedBelowSnoc(at, p, n - 1);
      assert (at + [p])[..|at|] == at;
      assert Occ(at + [p], InTract(n - 1)) == Occ(at, InTract(n - 1)) + (if p == InTract(n - 1) then 1 else 0);
    }
  }

  /** Every task slot is spare, in the general queue or queued in one of the
      first `n` tracts: the places account for the whole slab. */
  lemma {:induction false} TaskPlacesTotal(at: seq<TaskPlace>, n: nat)
    requires forall i :: 0 <= i < |at| && at[i].InTract? ==> at[i].tract < n
    ensures Occ(at, Spare) + Occ(at, General) + QueuedBelow(at, n) == |at|
  {
    if at == [] {
      QueuedBelowEmpty(n);
    } else {
      var m := |at| - 1;
      var at' := at[..m];
      TaskPlacesTotal(at', n);
      assert at == at' + [at[m]];
      QueuedBelowSnoc(at', at[m], n);
      assert Occ(at, Spare) == Occ(at', Spare) + (if at[m] == Spare then 1 else 0);
      assert Occ(at, General) == Occ(at', General) + (if at[m] == General then 1 else 0);
      assert QueuedBelow(at, n) == QueuedBelow(at', n) + (if at[m].InTract? && at[m].tract < n then 1 else 0);
      match at[m]
      case Spare =>
      case General =>
      case InTract(t) =>
    }
  }

  /** Every worker slot is in exactly one of the four states. */
  lemma {:induction false} WorkerStatesTotal(at: seq<WorkerState>)
    ensures Occ(at, Unused) + Occ(at, Idle) + Occ(at, Running) + Occ(at, Signalled) == |at|
  {
    if at != [] {
      var m := |at| - 1;
      WorkerStatesTotal(at[..m]);
      match at[m]
      case Unused =>
      case Idle =>
      case Running =>
      case Signalled =>
    }
  }

  /** When every private queue enumerates its tract's slots, their lengths add
      up to the number of queued slots. */
  lemma {:induction false} TractQueuesLength(q: seq<seq<nat>>, at: seq<TaskPlace>)
    requires forall t :: 0 <= t < |q| ==> Enumerates(q[t], at, InTract(t))
    ensures SumLengths(q) == QueuedBelow(at, |q|)
  {
    if q != [] {
      var n := |q| - 1;
      TractQueuesLength(q[..n], at);
      EnumeratesLength(q[n], at, InTract(n));
    }
  }
}
