/** When no vector is both read and added to, additions commute and all four disciplines,
    the lock-free one included, end in the same state. This covers what `main` sets up
    unless it is asked to cause a deadlock. */
module VectorEnd {
  import opened Basics
  import opened Vector
  import opened VectorInvariant
  import opened VectorSerial
  import opened VectorRuns

  ghost predicate Disjoint(p: Program)
  {
    forall t: nat, i: nat, u: nat, k: nat |
      t < |p.scripts| && i < |p.scripts[t]| && u < |p.scripts| && k < |p.scripts[u]| ::
      p.scripts[t][i].src != p.scripts[u][k].dst
  }

  /** What one call adds to element `j` of vector `v`, if its source keeps its initial value. */
  function AddedOne(init: seq<seq<int>>, c: Call, v: nat, j: nat): int
  {
    if c.dst == v && c.src < |init| && j < |init[c.src]| then init[c.src][j] else 0
  }

  function Added(init: seq<seq<int>>, calls: seq<Call>, v: nat, j: nat): int
  {
    if calls == [] then 0 else Added(init, calls[..|calls| - 1], v, j) + AddedOne(init, calls[|calls| - 1], v, j)
  }

  function AddedBy(init: seq<seq<int>>, v: nat, j: nat): (nat, seq<Call>) -> int
  {
    (t: nat, calls: seq<Call>) => Added(init, calls, v, j)
  }

  lemma AddedAppend(init: seq<seq<int>>, calls: seq<Call>, c: Call, v: nat, j: nat)
    ensures Added(init, calls + [c], v, j) == Added(init, calls, v, j) + AddedOne(init, c, v, j)
  {
    assert (calls + [c])[..|calls|] == calls;
  }

  lemma {:induction false} AddedNothing(init: seq<seq<int>>, calls: seq<Call>, v: nat, j: nat)
    requires forall i: nat | i < |calls| :: calls[i].dst != v
    ensures Added(init, calls, v, j) == 0
  {
    if calls != [] {
      AddedNothing(init, calls[..|calls| - 1], v, j);
    }
  }

  // ---- The disciplines with locks ----

  /** A serial execution adds the initial values of the sources, in whatever order. */
  lemma {:induction false} SerialAdds(init: seq<seq<int>>, log: seq<Call>, v: nat, j: nat)
    requires forall u: nat | u < |init| :: |init[u]| == VECTOR_SIZE
    requires forall i: nat | i < |log| :: log[i].dst < |init| && log[i].src < |init|
    requires forall i: nat, k: nat | i < |log| && k < |log| :: log[i].src != log[k].dst
    requires v < |init| && j < VECTOR_SIZE
    ensures Serial(init, log)[v][j] == init[v][j] + Added(init, log, v, j)
  {
    if log != [] {
      var c, log' := log[|log| - 1], log[..|log| - 1];
      SerialAdds(init, log', v, j);
      SerialAdds(init, log', c.src, j);
      AddedNothing(init, log', c.src, j);
    }
  }

  ghost function Parts(log: seq<Call>, who: seq<nat>, n: nat): seq<seq<Call>>
    requires |log| == |who|
  {
    seq(n, t requires 0 <= t => By(log, who, t))
  }

  /** Adding up a log is adding up the parts its threads wrote. */
  lemma {:induction false} PartsAdd(init: seq<seq<int>>, log: seq<Call>, who: seq<nat>, n: nat, v: nat, j: nat)
    requires |log| == |who| && forall i: nat | i < |who| :: who[i] < n
    ensures Added(init, log, v, j) == Total(AddedBy(init, v, j), Parts(log, who, n))
  {
    if log == [] {
      PartsEmpty(init, n, v, j);
    } else {
      var i := |log| - 1;
      var c, u, parts := log[i], who[i], Parts(log[..i], who[..i], n);
      PartsAdd(init, log[..i], who[..i], n, v, j);
      TotalUpdate(AddedBy(init, v, j), parts, u, parts[u] + [c]);
      AddedAppend(init, parts[u], c, v, j);
      PartsAppend(log, who, n);
    }
  }

  lemma PartsAppend(log: seq<Call>, who: seq<nat>, n: nat)
    requires |log| == |who| > 0 && who[|who| - 1] < n
    ensures var i := |log| - 1;
      var parts := Parts(log[..i], who[..i], n);
      Parts(log, who, n) == parts[who[i] := parts[who[i]] + [log[i]]]
  {
    var i := |log| - 1;
    forall t: nat | t < n
      ensures By(log, who, t) == By(log[..i], who[..i], t) + if t == who[i] then [log[i]] else []
    {
      assert log == log[..i] + [log[i]] && who == who[..i] + [who[i]];
      ByAppend(log[..i], who[..i], log[i], who[i], t);
    }
    assert forall t: nat | t < n :: t == who[i] || Parts(log, who, n)[t] == Parts(log[..i], who[..i], n)[t];
  }

  lemma {:induction false} PartsEmpty(init: seq<seq<int>>, n: nat, v: nat, j: nat)
    ensures Total(AddedBy(init, v, j), Parts([], [], n)) == 0
  {
    if n > 0 {
      PartsEmpty(init, n - 1, v, j);
      assert Parts([], [], n)[..n - 1] == Parts([], [], n - 1);
    }
  }

  lemma LockedEnd(p: Program, ts: seq<nat>, v: nat, j: nat)
    requires p.WellFormed() && Disjoint(p) && p.mode != NoLock && IsRun(p, ts) && Finished(p, After(p, ts))
    requires v < |p.init| && j < VECTOR_SIZE
    ensures |After(p, ts).values| == |p.init| && |After(p, ts).values[v]| == VECTOR_SIZE
    ensures After(p, ts).values[v][j] == p.init[v][j] + Total(AddedBy(p.init, v, j), p.scripts)
  {
    Serializable(p, ts);
    LogEnd(p, After(p, ts).log, After(p, ts).who, v, j);
  }

  /** Whatever the order of the log, a serial execution of all scripts ends in one state. */
  lemma LogEnd(p: Program, log: seq<Call>, who: seq<nat>, v: nat, j: nat)
    requires p.WellFormed() && Disjoint(p) && v < |p.init| && j < VECTOR_SIZE && |log| == |who|
    requires forall i: nat | i < |log| :: log[i].dst < |p.init| && log[i].src < |p.init| && who[i] < |p.scripts|
    requires forall t: nat | t < |p.scripts| :: By(log, who, t) == p.scripts[t]
    ensures Serial(p.init, log)[v][j] == p.init[v][j] + Total(AddedBy(p.init, v, j), p.scripts)
  {
    LogDisjoint(p, log, who);
    SerialAdds(p.init, log, v, j);
    PartsAdd(p.init, log, who, |p.scripts|, v, j);
    assert Parts(log, who, |p.scripts|) == p.scripts;
  }

  lemma LogDisjoint(p: Program, log: seq<Call>, who: seq<nat>)
    requires Disjoint(p) && |log| == |who| && forall i: nat | i < |log| :: who[i] < |p.scripts|
    requires forall t: nat | t < |p.scripts| :: By(log, who, t) == p.scripts[t]
    ensures forall i: nat, k: nat | i < |log| && k < |log| :: log[i].src != log[k].dst
  {
    forall i: nat, k: nat | i < |log| && k < |log|
      ensures log[i].src != log[k].dst
    {
      ByMember(log, who, i);
      ByMember(log, who, k);
      InScripts(p, who[i], log[i], who[k], log[k]);
    }
  }

  lemma InScripts(p: Program, t: nat, c: Call, u: nat, d: Call)
    requires Disjoint(p) && t < |p.scripts| && u < |p.scripts| && c in p.scripts[t] && d in p.scripts[u]
    ensures c.src != d.dst
  {
    var i: nat :| i < |p.scripts[t]| && p.scripts[t][i] == c;
    var k: nat :| k < |p.scripts[u]| && p.scripts[u][k] == d;
  }

  // ---- The lock-free discipline ----

  /** What thread `t` has added to element `j` of vector `v` so far. */
  function ProgressOf(p: Program, v: nat, j: nat, t: nat, th: Thread): int
  {
    if t < |p.scripts| && th.call <= |p.scripts[t]| then
      Added(p.init, p.scripts[t][..th.call], v, j) +
      (if Busy(p, t, th) && j < th.k then AddedOne(p.init, CallOf(p, t, th), v, j) else 0)
    else 0
  }

  function Progress(p: Program, v: nat, j: nat): (nat, Thread) -> int
  {
    (t: nat, th: Thread) => ProgressOf(p, v, j, t, th)
  }

  ghost predicate Summed(p: Program, s: State)
    requires Sized(p, s)
  {
    && (forall v: nat, j: nat | v < |p.init| && j < VECTOR_SIZE ::
          s.values[v][j] == p.init[v][j] + Total(Progress(p, v, j), s.threads))
    && (forall t: nat | t < |s.threads| && Busy(p, t, s.threads[t]) && s.threads[t].pc == Write ::
          s.threads[t].reg == p.init[CallOf(p, t, s.threads[t]).src][s.threads[t].k])
  }

  ghost predicate FreeState(p: Program, s: State)
  {
    p.mode == NoLock && LockedState(p, s) && Summed(p, s)
  }

  /** A vector that is a source is never added to. */
  lemma SourceUnchanged(p: Program, s: State, t: nat, j: nat)
    requires FreeState(p, s) && Disjoint(p) && t < |s.threads| && Busy(p, t, s.threads[t]) && j < VECTOR_SIZE
    ensures s.values[CallOf(p, t, s.threads[t]).src][j] == p.init[CallOf(p, t, s.threads[t]).src][j]
  {
    var v := CallOf(p, t, s.threads[t]).src;
    forall u: nat | u < |s.threads|
      ensures Progress(p, v, j)(u, s.threads[u]) == 0
    {
      AddedNothing(p.init, p.scripts[u], v, j);
      if s.threads[u].call <= |p.scripts[u]| {
        AddedNothing(p.init, p.scripts[u][..s.threads[u].call], v, j);
      }
    }
    TotalZero(Progress(p, v, j), s.threads);
  }

  lemma ProgressWrite(p: Program, t: nat, th: Thread, th': Thread, v: nat, j: nat)
    requires p.WellFormed() && p.mode == NoLock && Busy(p, t, th) && th.k < VECTOR_SIZE && j < VECTOR_SIZE
    requires th' == if th.k + 1 < VECTOR_SIZE then th.(k := th.k + 1, pc := ReadSrc)
      else Thread(ReadSrc, th.call + 1, 0, 0)
    ensures ProgressOf(p, v, j, t, th') ==
      ProgressOf(p, v, j, t, th) + if j == th.k then AddedOne(p.init, CallOf(p, t, th), v, j) else 0
  {
    AddedAppend(p.init, p.scripts[t][..th.call], CallOf(p, t, th), v, j);
    assert p.scripts[t][..th.call] + [CallOf(p, t, th)] == p.scripts[t][..th.call + 1];
  }

  lemma FreeRead(p: Program, s: State, t: nat)
    requires FreeState(p, s) && Disjoint(p) && CanStep(p, s, t) && s.threads[t].pc == ReadSrc
    ensures Sized(p, Step(p, s, t)) ==> Summed(p, Step(p, s, t))
  {
    var s' := Step(p, s, t);
    SourceUnchanged(p, s, t, s.threads[t].k);
    assert s'.threads[t] == s.threads[t].(pc := Write, reg := s'.threads[t].reg);
    forall v: nat, j: nat | v < |p.init| && j < VECTOR_SIZE
      ensures Total(Progress(p, v, j), s'.threads) == Total(Progress(p, v, j), s.threads)
    {
      TotalUpdate(Progress(p, v, j), s.threads, t, s'.threads[t]);
    }
  }

  lemma FreeWrite(p: Program, s: State, t: nat)
    requires FreeState(p, s) && CanStep(p, s, t) && s.threads[t].pc == Write
    ensures Sized(p, Step(p, s, t)) ==> Summed(p, Step(p, s, t))
  {
    var s' := Step(p, s, t);
    forall v: nat, j: nat | v < |p.init| && j < VECTOR_SIZE
      ensures |s'.values| == |p.init| && |s'.values[v]| == VECTOR_SIZE
      ensures s'.values[v][j] == p.init[v][j] + Total(Progress(p, v, j), s'.threads)
    {
      ProgressWrite(p, t, s.threads[t], s'.threads[t], v, j);
      TotalUpdate(Progress(p, v, j), s.threads, t, s'.threads[t]);
    }
  }

  lemma FreeStep(p: Program, s: State, t: nat)
    requires FreeState(p, s) && Disjoint(p) && CanStep(p, s, t)
    ensures FreeState(p, Step(p, s, t))
  {
    StepLocked(p, s, t);
    assert ThreadOk(p, t, s.threads[t]);
    if s.threads[t].pc == ReadSrc { FreeRead(p, s, t); } else { FreeWrite(p, s, t); }
  }

  lemma {:induction false} RunFree(p: Program, ts: seq<nat>)
    requires p.WellFormed() && Disjoint(p) && p.mode == NoLock && IsRun(p, ts)
    ensures FreeState(p, After(p, ts))
  {
    if ts == [] {
      RunLocked(p, ts);
      forall v: nat, j: nat | v < |p.init| && j < VECTOR_SIZE
        ensures Total(Progress(p, v, j), Init(p).threads) == 0
      {
        TotalZero(Progress(p, v, j), Init(p).threads);
      }
    } else {
      RunFree(p, ts[..|ts| - 1]);
      FreeStep(p, After(p, ts[..|ts| - 1]), ts[|ts| - 1]);
    }
  }

  lemma {:induction false} FinishedProgress(p: Program, threads: seq<Thread>, v: nat, j: nat, n: nat)
    requires n <= |threads| == |p.scripts| && forall t: nat | t < n :: threads[t].call == |p.scripts[t]|
    ensures Total(Progress(p, v, j), threads[..n]) == Total(AddedBy(p.init, v, j), p.scripts[..n])
  {
    if n > 0 {
      FinishedProgress(p, threads, v, j, n - 1);
      assert threads[..n][..n - 1] == threads[..n - 1] && p.scripts[..n][..n - 1] == p.scripts[..n - 1];
      assert p.scripts[n - 1][..|p.scripts[n - 1]|] == p.scripts[n - 1];
    }
  }

  lemma {:induction false} FreeEnd(p: Program, ts: seq<nat>, v: nat, j: nat)
    requires p.WellFormed() && Disjoint(p) && p.mode == NoLock && IsRun(p, ts) && Finished(p, After(p, ts))
    requires v < |p.init| && j < VECTOR_SIZE
    ensures |After(p, ts).values| == |p.init| && |After(p, ts).values[v]| == VECTOR_SIZE
    ensures After(p, ts).values[v][j] == p.init[v][j] + Total(AddedBy(p.init, v, j), p.scripts)
  {
    RunFree(p, ts);
    var s := After(p, ts);
    forall t: nat | t < |s.threads|
      ensures s.threads[t].call == |p.scripts[t]|
    {
      assert ThreadOk(p, t, s.threads[t]) && !Busy(p, t, s.threads[t]);
    }
    FinishedProgress(p, s.threads, v, j, |s.threads|);
    assert s.threads[..|s.threads|] == s.threads && p.scripts[..|s.threads|] == p.scripts;
  }

  /** All disciplines and all interleavings end in the same state. */
  lemma SameEnd(p: Program, ts: seq<nat>)
    requires p.WellFormed() && Disjoint(p) && IsRun(p, ts) && Finished(p, After(p, ts))
    ensures var s := After(p, ts);
      && |s.values| == |p.init|
      && forall v: nat, j: nat | v < |p.init| && j < VECTOR_SIZE ::
           |s.values[v]| == VECTOR_SIZE && s.values[v][j] == p.init[v][j] + Total(AddedBy(p.init, v, j), p.scripts)
  {
    RunLocked(p, ts);
    forall v: nat, j: nat | v < |p.init| && j < VECTOR_SIZE
      ensures After(p, ts).values[v][j] == p.init[v][j] + Total(AddedBy(p.init, v, j), p.scripts)
    {
      if p.mode == NoLock { FreeEnd(p, ts, v, j); } else { LockedEnd(p, ts, v, j); }
    }
  }

  // ---- What main sets up ----

  const MAX_THREADS: nat := 100

  /** The call thread `t` repeats: `-p` gives each thread its own pair of vectors, `-d` swaps the
      roles in every other thread. */
  function WorkerCall(t: nat, parallel: bool, deadlock: bool): Call
  {
    var v0, v1 := if parallel then 2 * t else 0, if parallel then 2 * t + 1 else 1;
    if deadlock && t % 2 == 1 then Call(v1, v0) else Call(v0, v1)
  }

  function WorkerProgram(mode: Mode, numThreads: nat, loops: nat, parallel: bool, deadlock: bool): Program
  {
    Program(mode,
            seq(numThreads, t requires 0 <= t => seq(loops, i => WorkerCall(t, parallel, deadlock))),
            seq(2 * MAX_THREADS, i => seq(VECTOR_SIZE, j => i)))
  }

  /** Does no worker add to a vector another one reads? Only `-d` without `-p` and with two threads
      or more makes them. */
  predicate Apart(numThreads: nat, loops: nat, parallel: bool, deadlock: bool)
  {
    parallel || !deadlock || numThreads <= 1 || loops == 0
  }

  /** `worker` never names one vector twice, so none of the locking disciplines deadlocks even with
      `-d`; and it keeps sources and destinations disjoint exactly if the workers are apart. */
  lemma WorkerCalls(mode: Mode, numThreads: nat, loops: nat, parallel: bool, deadlock: bool)
    requires numThreads < MAX_THREADS
    ensures var p := WorkerProgram(mode, numThreads, loops, parallel, deadlock);
      p.WellFormed() && NoSelfCalls(p) && (Disjoint(p) <==> Apart(numThreads, loops, parallel, deadlock))
  {
    var p := WorkerProgram(mode, numThreads, loops, parallel, deadlock);
    if !Apart(numThreads, loops, parallel, deadlock) {
      assert p.scripts[0][0].src == p.scripts[1][0].dst;
    }
  }

  lemma {:induction false} AddedRepeat(init: seq<seq<int>>, c: Call, n: nat, v: nat, j: nat)
    ensures Added(init, seq(n, i => c), v, j) == n * AddedOne(init, c, v, j)
  {
    if n > 0 {
      AddedRepeat(init, c, n - 1, v, j);
      assert seq(n, i => c)[..n - 1] == seq(n - 1, i => c);
    }
  }

  /** What the first `n` workers together add to each element of vector `v`. */
  function WorkerSum(n: nat, loops: nat, parallel: bool, deadlock: bool, v: nat): int
  {
    if !parallel then if v == 0 then n * loops else 0
    else if v / 2 >= n then 0
    else if v % 2 == 0 then if deadlock && v / 2 % 2 == 1 then 0 else loops * (v + 1)
    else if deadlock && v / 2 % 2 == 1 then loops * (v - 1) else 0
  }

  lemma {:induction false} AddedByWorkers(p: Program, numThreads: nat, loops: nat, parallel: bool, deadlock: bool,
                                          n: nat, v: nat, j: nat)
    requires numThreads < MAX_THREADS && p == WorkerProgram(p.mode, numThreads, loops, parallel, deadlock)
    requires Apart(numThreads, loops, parallel, deadlock) && n <= numThreads && v < |p.init| && j < VECTOR_SIZE
    ensures Total(AddedBy(p.init, v, j), p.scripts[..n]) == WorkerSum(n, loops, parallel, deadlock, v)
  {
    if n > 0 {
      var t := n - 1;
      AddedByWorkers(p, numThreads, loops, parallel, deadlock, t, v, j);
      AddedByWorker(p, numThreads, loops, parallel, deadlock, t, v, j);
      assert p.scripts[..n][..t] == p.scripts[..t];
      NextWorker(t, loops, parallel, deadlock, v);
    }
  }

  lemma NextWorker(t: nat, loops: nat, parallel: bool, deadlock: bool, v: nat)
    requires Apart(t + 1, loops, parallel, deadlock)
    ensures var c := WorkerCall(t, parallel, deadlock);
      WorkerSum(t + 1, loops, parallel, deadlock, v) ==
      WorkerSum(t, loops, parallel, deadlock, v) + if c.dst == v then loops * c.src else 0
  {
    assert (t + 1) * loops == t * loops + loops;
  }

  lemma AddedByWorker(p: Program, numThreads: nat, loops: nat, parallel: bool, deadlock: bool, t: nat, v: nat, j: nat)
    requires numThreads < MAX_THREADS && p == WorkerProgram(p.mode, numThreads, loops, parallel, deadlock)
    requires t < numThreads && v < |p.init| && j < VECTOR_SIZE
    ensures var c := WorkerCall(t, parallel, deadlock);
      Added(p.init, p.scripts[t], v, j) == if c.dst == v then loops * c.src else 0
  {
    AddedRepeat(p.init, WorkerCall(t, parallel, deadlock), loops, v, j);
    assert p.scripts[t] == seq(loops, i => WorkerCall(t, parallel, deadlock));
  }

  /** While the workers are apart, whatever the discipline and the interleaving: all of `v[0]` ends as
      num_threads * loops and the others as they began, or with `-p`, for each thread `t`, all of
      `v[2t]` as 2t + loops * (2t + 1) and `v[2t + 1]` as it began, or, with `-d` and an odd `t`,
      `v[2t]` as it began and all of `v[2t + 1]` as 2t + 1 + loops * 2t. */
  lemma {:induction false} WorkersEnd(mode: Mode, numThreads: nat, loops: nat, parallel: bool, deadlock: bool,
                                      ts: seq<nat>)
    requires numThreads < MAX_THREADS && Apart(numThreads, loops, parallel, deadlock)
    requires var p := WorkerProgram(mode, numThreads, loops, parallel, deadlock);
      IsRun(p, ts) && Finished(p, After(p, ts))
    ensures var s := After(WorkerProgram(mode, numThreads, loops, parallel, deadlock), ts);
      && |s.values| == 2 * MAX_THREADS
      && forall v: nat | v < |s.values| ::
           s.values[v] == seq(VECTOR_SIZE, j => v + WorkerSum(numThreads, loops, parallel, deadlock, v))
  {
    var p := WorkerProgram(mode, numThreads, loops, parallel, deadlock);
    WorkerCalls(mode, numThreads, loops, parallel, deadlock);
    SameEnd(p, ts);
    WorkerVectors(p, numThreads, loops, parallel, deadlock, After(p, ts).values);
  }

  lemma WorkerVectors(p: Program, numThreads: nat, loops: nat, parallel: bool, deadlock: bool, values: seq<seq<int>>)
    requires numThreads < MAX_THREADS && p == WorkerProgram(p.mode, numThreads, loops, parallel, deadlock)
    requires Apart(numThreads, loops, parallel, deadlock) && |values| == |p.init|
    requires forall v: nat, j: nat | v < |p.init| && j < VECTOR_SIZE ::
      |values[v]| == VECTOR_SIZE && values[v][j] == p.init[v][j] + Total(AddedBy(p.init, v, j), p.scripts)
    ensures |values| == 2 * MAX_THREADS
    ensures forall v: nat | v < |values| ::
      values[v] == seq(VECTOR_SIZE, j => v + WorkerSum(numThreads, loops, parallel, deadlock, v))
  {
    forall v: nat | v < |p.init|
      ensures values[v] == seq(VECTOR_SIZE, j => v + WorkerSum(numThreads, loops, parallel, deadlock, v))
    {
      assert |p.init[v]| == VECTOR_SIZE && p.init[v][0] == v;
      WorkerVector(p, numThreads, loops, parallel, deadlock, v, values[v]);
    }
  }

  lemma WorkerVector(p: Program, numThreads: nat, loops: nat, parallel: bool, deadlock: bool, v: nat, values: seq<int>)
    requires numThreads < MAX_THREADS && p == WorkerProgram(p.mode, numThreads, loops, parallel, deadlock)
    requires Apart(numThreads, loops, parallel, deadlock) && v < |p.init| && |values| == |p.init[v]| == VECTOR_SIZE
    requires forall j: nat | j < VECTOR_SIZE :: values[j] == p.init[v][j] + Total(AddedBy(p.init, v, j), p.scripts)
    ensures values == seq(VECTOR_SIZE, j => v + WorkerSum(numThreads, loops, parallel, deadlock, v))
  {
    forall j: nat | j < VECTOR_SIZE
      ensures values[j] == v + WorkerSum(numThreads, loops, parallel, deadlock, v)
    {
      AddedByWorkers(p, numThreads, loops, parallel, deadlock, numThreads, v, j);
      assert p.scripts[..numThreads] == p.scripts;
    }
  }
}
