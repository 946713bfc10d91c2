/** Whole runs of the vector machine: serializability, progress of each discipline and exactly
    when it is lost, and the state in which all four disciplines end. */
module VectorRuns {
  import opened Basics
  import opened Vector
  import opened VectorInvariant
  import opened VectorSerial

  // ---- Runs ----

  /** The state after the scheduler ran the threads `ts` for one step each, oldest first. */
  ghost function After(p: Program, ts: seq<nat>): State
  {
    if ts == [] then Init(p)
    else
      var s := After(p, ts[..|ts| - 1]);
      if Sized(p, s) && CanStep(p, s, ts[|ts| - 1]) then Step(p, s, ts[|ts| - 1]) else s
  }

  ghost predicate IsRun(p: Program, ts: seq<nat>)
  {
    ts == [] ||
    var s := After(p, ts[..|ts| - 1]);
    IsRun(p, ts[..|ts| - 1]) && Sized(p, s) && CanStep(p, s, ts[|ts| - 1])
  }

  ghost predicate Finished(p: Program, s: State)
  {
    forall t: nat | t < |s.threads| :: !Busy(p, t, s.threads[t])
  }

  /** No call names the same vector twice; `worker` only makes such calls. */
  ghost predicate NoSelfCalls(p: Program)
  {
    forall t: nat, i: nat | t < |p.scripts| && i < |p.scripts[t]| :: p.scripts[t][i].dst != p.scripts[t][i].src
  }

  lemma {:induction false} RunLocked(p: Program, ts: seq<nat>)
    requires p.WellFormed() && IsRun(p, ts)
    ensures LockedState(p, After(p, ts))
  {
    if ts != [] {
      RunLocked(p, ts[..|ts| - 1]);
      StepLocked(p, After(p, ts[..|ts| - 1]), ts[|ts| - 1]);
    }
  }

  lemma {:induction false} RunSerial(p: Program, ts: seq<nat>)
    requires p.WellFormed() && p.mode != NoLock && IsRun(p, ts)
    ensures SerialState(p, After(p, ts))
  {
    if ts == [] {
      InitSerial(p);
    } else {
      RunSerial(p, ts[..|ts| - 1]);
      StepSerial(p, After(p, ts[..|ts| - 1]), ts[|ts| - 1]);
    }
  }

  lemma MoreRun(p: Program, ts: seq<nat>, t: nat)
    requires IsRun(p, ts) && Sized(p, After(p, ts)) && CanStep(p, After(p, ts), t)
    ensures IsRun(p, ts + [t]) && After(p, ts + [t]) == Step(p, After(p, ts), t)
  {
    assert (ts + [t])[..|ts|] == ts;
  }

  // ---- Serializability ----

  /** Under any discipline with locks, in any reachable state: a thread writes only while it holds
      both locks, and a vector nobody has locked is what the committed calls, made one after
      the other, make it; each thread's calls are committed in the order of its script. */
  lemma {:induction false} AlwaysSerial(p: Program, ts: seq<nat>)
    requires p.WellFormed() && p.mode != NoLock && IsRun(p, ts)
    ensures var s := After(p, ts);
      && |s.log| == |s.who|
      && (forall i: nat | i < |s.log| :: s.log[i].dst < |p.init| && s.log[i].src < |p.init|)
      && (forall t: nat | t < |s.threads| && Busy(p, t, s.threads[t]) && s.threads[t].pc == Write ::
            var c := CallOf(p, t, s.threads[t]);
            c.dst < |s.locks| && c.src < |s.locks| && s.locks[c.dst] == s.locks[c.src] == Some(t))
      && (forall t: nat | t < |s.threads| :: t < |p.scripts| && By(s.log, s.who, t) <= p.scripts[t])
      && |s.values| == |s.locks| == |p.init|
      && (forall v: nat | v < |s.values| && s.locks[v] == None :: s.values[v] == Serial(p.init, s.log)[v])
  {
    RunSerial(p, ts);
    var s := After(p, ts);
    forall t: nat | t < |s.threads| && Busy(p, t, s.threads[t]) && s.threads[t].pc == Write
      ensures var c := CallOf(p, t, s.threads[t]);
        c.dst < |s.locks| && c.src < |s.locks| && s.locks[c.dst] == s.locks[c.src] == Some(t)
    {
      var c := CallOf(p, t, s.threads[t]);
      assert Has(p, t, s.threads[t], c.dst) && Has(p, t, s.threads[t], c.src);
    }
    forall v: nat | v < |s.values| && s.locks[v] == None
      ensures s.values[v] == Serial(p.init, s.log)[v]
    {
      assert VectorOk(p, s.threads, s.locks[v], s.values, Serial(p.init, s.log)[v], v);
    }
  }

  lemma HolderBusy(p: Program, s: State, v: nat, t: nat)
    requires LockedState(p, s) && v < |s.locks| && s.locks[v] == Some(t)
    ensures t < |s.threads| && Has(p, t, s.threads[t], v)
  {
  }

  /** A finished run leaves every vector as the serial execution of its log would, and the log is
      an interleaving of all scripts. */
  lemma {:induction false} Serializable(p: Program, ts: seq<nat>)
    requires p.WellFormed() && p.mode != NoLock && IsRun(p, ts) && Finished(p, After(p, ts))
    ensures var s := After(p, ts);
      && |s.log| == |s.who|
      && (forall i: nat | i < |s.log| :: s.log[i].dst < |p.init| && s.log[i].src < |p.init| && s.who[i] < |p.scripts|)
      && (forall t: nat | t < |p.scripts| :: By(s.log, s.who, t) == p.scripts[t])
      && s.values == Serial(p.init, s.log)
  {
    RunSerial(p, ts);
    RunWho(p, ts);
    var s := After(p, ts);
    AlwaysSerial(p, ts);
    forall v: nat | v < |s.locks|
      ensures s.locks[v] == None
    {
      if s.locks[v].Some? {
        HolderBusy(p, s, v, s.locks[v].value);
      }
    }
    forall t: nat | t < |p.scripts|
      ensures By(s.log, s.who, t) == p.scripts[t]
    {
      assert ThreadOk(p, t, s.threads[t]) && !Busy(p, t, s.threads[t]);
      assert By(s.log, s.who, t) == p.scripts[t][..|p.scripts[t]|];
    }
  }

  lemma StepWho(p: Program, s: State, t: nat)
    requires Sized(p, s) && CanStep(p, s, t)
    ensures Step(p, s, t).who == s.who || Step(p, s, t).who == s.who + [t]
  {
  }

  lemma {:induction false} RunWho(p: Program, ts: seq<nat>)
    requires p.WellFormed() && IsRun(p, ts)
    ensures forall i: nat | i < |After(p, ts).who| :: After(p, ts).who[i] < |p.scripts|
  {
    if ts != [] {
      RunWho(p, ts[..|ts| - 1]);
      StepWho(p, After(p, ts[..|ts| - 1]), ts[|ts| - 1]);
    }
  }

  // ---- Every step uses something up, except a failed trylock ----

  predicate Share(c: Call, d: Call)
  {
    c.dst == d.dst || c.dst == d.src || c.src == d.dst || c.src == d.src
  }

  /** No two threads ever name the same vector. */
  ghost predicate Separate(p: Program)
  {
    forall t: nat, i: nat, u: nat, k: nat |
      t < |p.scripts| && i < |p.scripts[t]| && u < |p.scripts| && k < |p.scripts[u]| && t != u ::
      !Share(p.scripts[t][i], p.scripts[u][k])
  }

  /** Can no trylock fail? */
  ghost predicate NoRetries(p: Program)
  {
    p.mode != TryLock || (NoSelfCalls(p) && Separate(p))
  }

  const CALL_COST := 310

  function Cost(pc: Point, k: nat): int
  {
    if pc == Enter then 309
    else if pc == First then 308
    else if pc == Second then 307
    else if pc == Leave then 306
    else if pc == ReadDst then 3 * (VECTOR_SIZE - k) + 3
    else if pc == ReadSrc then 3 * (VECTOR_SIZE - k) + 2
    else if pc == Write then 3 * (VECTOR_SIZE - k) + 1
    else if pc == Release1 then 2
    else if pc == Release2 then 1
    else 309
  }

  function WeightOf(p: Program, t: nat, th: Thread): int
  {
    if Busy(p, t, th) then CALL_COST * (|p.scripts[t]| - th.call - 1) + Cost(th.pc, th.k) else 0
  }

  function Weight(p: Program): (nat, Thread) -> int
  {
    (t: nat, th: Thread) => WeightOf(p, t, th)
  }

  /** Where threads are separate, a vector's lock is held by no thread but one that names it. */
  lemma OwnLock(p: Program, s: State, t: nat, l: nat, u: nat)
    requires LockedState(p, s) && Separate(p) && t < |s.threads| && Busy(p, t, s.threads[t])
    requires l == CallOf(p, t, s.threads[t]).dst || l == CallOf(p, t, s.threads[t]).src
    requires l < |s.locks| && s.locks[l] == Some(u)
    ensures u == t && Has(p, t, s.threads[t], l)
  {
    HolderBusy(p, s, l, u);
    assert u != t ==> Share(CallOf(p, t, s.threads[t]), CallOf(p, u, s.threads[u]));
  }

  lemma TrySucceeds(p: Program, s: State, t: nat)
    requires LockedState(p, s) && CanStep(p, s, t) && p.mode == TryLock && NoRetries(p)
    ensures s.threads[t].pc == First ==> s.locks[CallOf(p, t, s.threads[t]).dst] == None
    ensures s.threads[t].pc == Second ==> s.locks[CallOf(p, t, s.threads[t]).src] == None
  {
    var c := CallOf(p, t, s.threads[t]);
    if s.threads[t].pc == First && s.locks[c.dst].Some? {
      OwnLock(p, s, t, c.dst, s.locks[c.dst].value);
    }
    if s.threads[t].pc == Second && s.locks[c.src].Some? {
      OwnLock(p, s, t, c.src, s.locks[c.src].value);
    }
  }

  /** A step that does not fail to lock costs something. */
  lemma SuccessCheaper(p: Program, s: State, t: nat)
    requires Sized(p, s) && CanStep(p, s, t) && ThreadOk(p, t, s.threads[t])
    requires s.threads[t].pc == First ==> s.locks[FirstLock(p.mode, CallOf(p, t, s.threads[t]))] == None
    requires s.threads[t].pc == Second ==> s.locks[SecondLock(p.mode, CallOf(p, t, s.threads[t]))] == None
    ensures var s' := Step(p, s, t);
      s'.threads == s.threads[t := s'.threads[t]] && WeightOf(p, t, s'.threads[t]) < WeightOf(p, t, s.threads[t])
  {
  }

  lemma StepCheaper(p: Program, s: State, t: nat)
    requires LockedState(p, s) && CanStep(p, s, t) && NoRetries(p)
    ensures var s' := Step(p, s, t);
      s'.threads == s.threads[t := s'.threads[t]] && WeightOf(p, t, s'.threads[t]) < WeightOf(p, t, s.threads[t])
  {
    assert ThreadOk(p, t, s.threads[t]);
    if p.mode == TryLock {
      TrySucceeds(p, s, t);
    }
    SuccessCheaper(p, s, t);
  }

  lemma StepFalls(p: Program, s: State, t: nat)
    requires LockedState(p, s) && CanStep(p, s, t) && NoRetries(p)
    ensures Total(Weight(p), Step(p, s, t).threads) < Total(Weight(p), s.threads)
  {
    StepCheaper(p, s, t);
    TotalUpdate(Weight(p), s.threads, t, Step(p, s, t).threads[t]);
  }

  lemma WeightNonNegative(p: Program, s: State)
    requires LockedState(p, s)
    ensures Total(Weight(p), s.threads) >= 0
  {
    forall t: nat | t < |s.threads|
      ensures Weight(p)(t, s.threads[t]) >= 0
    {
      assert ThreadOk(p, t, s.threads[t]);
    }
    TotalNonNegative(Weight(p), s.threads);
  }

  function Calls(scripts: seq<seq<Call>>): nat
  {
    if scripts == [] then 0 else Calls(scripts[..|scripts| - 1]) + |scripts[|scripts| - 1]|
  }

  lemma {:induction false} InitWeight(p: Program, threads: seq<Thread>)
    requires |threads| <= |p.scripts| && forall t: nat | t < |threads| :: threads[t] == Thread(Start(p.mode), 0, 0, 0)
    ensures Total(Weight(p), threads) <= CALL_COST * Calls(p.scripts[..|threads|])
  {
    var n := |threads|;
    if n > 0 {
      InitWeight(p, threads[..n - 1]);
      assert p.scripts[..n][..n - 1] == p.scripts[..n - 1];
    }
  }

  /** Where no trylock can fail, runs are finite: at most `CALL_COST` steps for each call. */
  lemma {:induction false} RunsAreShort(p: Program, ts: seq<nat>)
    requires p.WellFormed() && NoRetries(p) && IsRun(p, ts)
    ensures |ts| <= CALL_COST * Calls(p.scripts)
  {
    WeightAfter(p, ts);
    RunLocked(p, ts);
    WeightNonNegative(p, After(p, ts));
  }

  lemma {:induction false} WeightAfter(p: Program, ts: seq<nat>)
    requires p.WellFormed() && NoRetries(p) && IsRun(p, ts)
    ensures Total(Weight(p), After(p, ts).threads) + |ts| <= CALL_COST * Calls(p.scripts)
  {
    if ts == [] {
      InitWeight(p, Init(p).threads);
      assert p.scripts[..|p.scripts|] == p.scripts;
    } else {
      WeightAfter(p, ts[..|ts| - 1]);
      RunLocked(p, ts[..|ts| - 1]);
      StepFalls(p, After(p, ts[..|ts| - 1]), ts[|ts| - 1]);
    }
  }

  // ---- Progress ----

  ghost predicate Stuck(p: Program, s: State)
  {
    Sized(p, s) && !Finished(p, s) && forall t: nat | t < |s.threads| :: !CanStep(p, s, t)
  }

  /** The lock a thread is about to take. */
  function Wanted(p: Program, t: nat, th: Thread): nat
    requires Busy(p, t, th)
  {
    if th.pc == First then FirstLock(p.mode, CallOf(p, t, th)) else SecondLock(p.mode, CallOf(p, t, th))
  }

  /** A blocked thread waits at a lock another thread holds. */
  lemma Blocked(p: Program, s: State, t: nat) returns (u: nat)
    requires LockedState(p, s) && p.mode == Ordered
    requires t < |s.threads| && Busy(p, t, s.threads[t]) && !CanStep(p, s, t)
    ensures (s.threads[t].pc == First || s.threads[t].pc == Second) && Wanted(p, t, s.threads[t]) < |p.init|
    ensures u < |s.threads| && Has(p, u, s.threads[u], Wanted(p, t, s.threads[t]))
  {
    assert ThreadOk(p, t, s.threads[t]);
    var l := Wanted(p, t, s.threads[t]);
    u := s.locks[l].value;
    HolderBusy(p, s, l, u);
  }

  /** With ordered locks, follow the blocked threads: each one waits for a higher lock than the
      last, so the chain ends at a thread that can step. */
  lemma Runnable(p: Program, s: State, t: nat) returns (u: nat)
    requires LockedState(p, s) && p.mode == Ordered
    requires t < |s.threads| && Busy(p, t, s.threads[t])
    ensures u < |s.threads| && CanStep(p, s, u)
    decreases if CanStep(p, s, t) then 0 else 1 + |p.init| - Wanted(p, t, s.threads[t])
  {
    if CanStep(p, s, t) {
      u := t;
    } else {
      var v := Blocked(p, s, t);
      if CanStep(p, s, v) {
        u := v;
      } else {
        var _ := Blocked(p, s, v);
        u := Runnable(p, s, v);
      }
    }
  }

  /** Address order never deadlocks, whatever the scripts, equal vectors included. */
  lemma OrderedNeverStuck(p: Program, ts: seq<nat>)
    requires p.WellFormed() && p.mode == Ordered && IsRun(p, ts)
    ensures !Stuck(p, After(p, ts))
  {
    RunLocked(p, ts);
    var s := After(p, ts);
    if t: nat :| t < |s.threads| && Busy(p, t, s.threads[t]) {
      var u := Runnable(p, s, t);
    }
  }

  /** Only the holder of the global lock ever waits while it holds a vector lock. */
  lemma WaiterHoldsGlobal(p: Program, s: State, t: nat, v: nat)
    requires LockedState(p, s) && p.mode == GlobalLock
    requires t < |s.threads| && v < |s.locks| && Has(p, t, s.threads[t], v) && !CanStep(p, s, t)
    ensures s.global == Some(t)
  {
    assert ThreadOk(p, t, s.threads[t]);
    assert HasGlobal(p, t, s.threads[t]);
  }

  /** The global lock is only for acquiring: no thread ever has it while it adds. */
  lemma {:induction false} AddsWithoutGlobal(p: Program, ts: seq<nat>, t: nat)
    requires p.WellFormed() && IsRun(p, ts) && t < |After(p, ts).threads|
    requires Busy(p, t, After(p, ts).threads[t]) && InLoop(After(p, ts).threads[t].pc)
    ensures After(p, ts).global != Some(t)
  {
    RunLocked(p, ts);
    assert !HasGlobal(p, t, After(p, ts).threads[t]);
  }

  lemma GlobalRunnable(p: Program, s: State, t: nat) returns (u: nat)
    requires LockedState(p, s) && p.mode == GlobalLock && NoSelfCalls(p)
    requires t < |s.threads| && Busy(p, t, s.threads[t])
    ensures u < |s.threads| && CanStep(p, s, u)
  {
    assert ThreadOk(p, t, s.threads[t]);
    if CanStep(p, s, t) {
      u := t;
    } else if s.threads[t].pc == Enter {
      var g := s.global.value;
      assert HasGlobal(p, g, s.threads[g]);
      u := HolderRunnable(p, s, g);
    } else {
      assert HasGlobal(p, t, s.threads[t]);
      u := HolderRunnable(p, s, t);
    }
  }

  /** The holder of the global lock can step, or whoever holds the vector lock it wants can. */
  lemma HolderRunnable(p: Program, s: State, g: nat) returns (u: nat)
    requires LockedState(p, s) && p.mode == GlobalLock && NoSelfCalls(p)
    requires g < |s.threads| && HasGlobal(p, g, s.threads[g])
    ensures u < |s.threads| && CanStep(p, s, u)
  {
    if CanStep(p, s, g) {
      u := g;
    } else {
      var l := Wanted(p, g, s.threads[g]);
      u := s.locks[l].value;
      HolderBusy(p, s, l, u);
      if !CanStep(p, s, u) {
        WaiterHoldsGlobal(p, s, u, l);
      }
    }
  }

  ghost predicate Over(p: Program, s: State)
  {
    Finished(p, s) || Stuck(p, s)
  }

  lemma OneMore(p: Program, ts: seq<nat>) returns (longer: seq<nat>)
    requires p.WellFormed() && p.mode != TryLock && IsRun(p, ts) && !Over(p, After(p, ts))
    ensures IsRun(p, longer) && ts <= longer
    ensures 0 <= Total(Weight(p), After(p, longer).threads) < Total(Weight(p), After(p, ts).threads)
  {
    RunLocked(p, ts);
    var s := After(p, ts);
    var t: nat :| t < |s.threads| && CanStep(p, s, t);
    longer := ts + [t];
    MoreRun(p, ts, t);
    StepFalls(p, s, t);
    RunLocked(p, longer);
    WeightNonNegative(p, After(p, longer));
  }

  /** Any run without trylock can be continued until it is finished or stuck. */
  lemma {:induction false} RunOn(p: Program, ts: seq<nat>) returns (full: seq<nat>)
    requires p.WellFormed() && p.mode != TryLock && IsRun(p, ts)
    ensures IsRun(p, full) && ts <= full && Over(p, After(p, full))
    decreases Total(Weight(p), After(p, ts).threads)
  {
    if Over(p, After(p, ts)) {
      full := ts;
    } else {
      var longer := OneMore(p, ts);
      full := RunOn(p, longer);
    }
  }

  /** Where two locks are always taken, a completed call named two vectors. */
  ghost predicate Passed(p: Program, threads: seq<Thread>)
  {
    forall t: nat, i: nat | t < |threads| && t < |p.scripts| && i < threads[t].call && i < |p.scripts[t]| ::
      p.scripts[t][i].dst != p.scripts[t][i].src
  }

  lemma PassedStep(p: Program, s: State, t: nat)
    requires LockedState(p, s) && CanStep(p, s, t) && (p.mode == GlobalLock || p.mode == TryLock)
    requires Passed(p, s.threads)
    ensures Passed(p, Step(p, s, t).threads)
  {
    var th, s' := s.threads[t], Step(p, s, t);
    assert ThreadOk(p, t, th);
    assert s'.threads == s.threads[t := s'.threads[t]];
    assert s'.threads[t].call != th.call ==>
      s'.threads[t].call == th.call + 1 && p.scripts[t][th.call].dst != p.scripts[t][th.call].src;
  }

  lemma {:induction false} RunPassed(p: Program, ts: seq<nat>)
    requires p.WellFormed() && IsRun(p, ts) && (p.mode == GlobalLock || p.mode == TryLock)
    ensures Passed(p, After(p, ts).threads)
  {
    if ts != [] {
      RunPassed(p, ts[..|ts| - 1]);
      RunLocked(p, ts[..|ts| - 1]);
      PassedStep(p, After(p, ts[..|ts| - 1]), ts[|ts| - 1]);
    }
  }

  lemma FinishedMeansNoSelfCalls(p: Program, ts: seq<nat>)
    requires p.WellFormed() && IsRun(p, ts) && (p.mode == GlobalLock || p.mode == TryLock)
    requires Finished(p, After(p, ts))
    ensures NoSelfCalls(p)
  {
    RunPassed(p, ts);
    RunLocked(p, ts);
    var s := After(p, ts);
    forall t: nat, i: nat | t < |p.scripts| && i < |p.scripts[t]|
      ensures p.scripts[t][i].dst != p.scripts[t][i].src
    {
      assert !Busy(p, t, s.threads[t]);
    }
  }

  ghost predicate CanEndStuck(p: Program, ts: seq<nat>)
  {
    IsRun(p, ts) && Stuck(p, After(p, ts))
  }

  /** The global lock around acquisition prevents deadlock exactly when no call names one vector twice. */
  lemma GlobalStuckExactly(p: Program)
    requires p.WellFormed() && p.mode == GlobalLock
    ensures (exists ts :: CanEndStuck(p, ts)) <==> !NoSelfCalls(p)
  {
    if NoSelfCalls(p) {
      forall ts | IsRun(p, ts)
        ensures !CanEndStuck(p, ts)
      {
        RunLocked(p, ts);
        var s := After(p, ts);
        if t: nat :| t < |s.threads| && Busy(p, t, s.threads[t]) {
          var u := GlobalRunnable(p, s, t);
        }
      }
    } else {
      var ts := RunOn(p, []);
      if Finished(p, After(p, ts)) {
        FinishedMeansNoSelfCalls(p, ts);
      }
      assert CanEndStuck(p, ts);
    }
  }

  /** Without locks nobody ever waits. */
  lemma FreeNeverStuck(p: Program, ts: seq<nat>)
    requires p.WellFormed() && p.mode == NoLock && IsRun(p, ts)
    ensures !Stuck(p, After(p, ts))
  {
    RunLocked(p, ts);
    var s := After(p, ts);
    if t: nat :| t < |s.threads| && Busy(p, t, s.threads[t]) {
      assert ThreadOk(p, t, s.threads[t]) && CanStep(p, s, t);
    }
  }

  /** With ordered locks, without locks, or with a global lock and no self calls, every run can be finished. */
  lemma {:induction false} EveryRunCanFinish(p: Program, ts: seq<nat>) returns (full: seq<nat>)
    requires p.WellFormed() && IsRun(p, ts)
    requires p.mode == Ordered || p.mode == NoLock || (p.mode == GlobalLock && NoSelfCalls(p))
    ensures IsRun(p, full) && ts <= full && Finished(p, After(p, full))
  {
    full := RunOn(p, ts);
    if p.mode == Ordered {
      OrderedNeverStuck(p, full);
    } else if p.mode == NoLock {
      FreeNeverStuck(p, full);
    } else {
      GlobalStuckExactly(p);
      assert !CanEndStuck(p, full);
    }
  }

  // ---- Trylock and back-off ----

  /** Like `WeightOf`, but blind to where in acquiring its locks a thread is. */
  function WorkOf(p: Program, t: nat, th: Thread): int
  {
    if Busy(p, t, th) && (th.pc == First || th.pc == Second || th.pc == Backoff)
    then CALL_COST * (|p.scripts[t]| - th.call - 1) + 308
    else WeightOf(p, t, th)
  }

  function Work(p: Program): (nat, Thread) -> int
  {
    (t: nat, th: Thread) => WorkOf(p, t, th)
  }

  /** How much of acquiring its locks a thread would have to undo. */
  function HalfwayOf(p: Program, t: nat, th: Thread): int
  {
    if !Busy(p, t, th) then 0 else if th.pc == Second then 2 else if th.pc == Backoff then 1 else 0
  }

  function Halfway(p: Program): (nat, Thread) -> int
  {
    (t: nat, th: Thread) => HalfwayOf(p, t, th)
  }

  /** What the steps of a thread that holds a lock cost. */
  lemma TryStep(p: Program, s: State, t: nat)
    requires LockedState(p, s) && CanStep(p, s, t) && p.mode == TryLock && s.threads[t].pc != First
    ensures var th, th' := s.threads[t], Step(p, s, t).threads[t];
      && Step(p, s, t).threads == s.threads[t := th']
      && (WorkOf(p, t, th') < WorkOf(p, t, th)
          || (WorkOf(p, t, th') == WorkOf(p, t, th) && HalfwayOf(p, t, th') < HalfwayOf(p, t, th)
              && (th.pc == Second ==> s.locks[CallOf(p, t, th).src] != None)
              && th.pc != ReadDst && th.pc != ReadSrc && th.pc != Write && th.pc != Release1 && th.pc != Release2))
  {
    assert ThreadOk(p, t, s.threads[t]);
  }

  /** If nobody holds a lock, a thread that runs alone for two steps gets both of its locks. */
  lemma TryAlone(p: Program, s: State, t: nat)
    requires LockedState(p, s) && CanStep(p, s, t) && p.mode == TryLock && s.threads[t].pc == First && NoSelfCalls(p)
    requires forall v: nat | v < |s.locks| :: s.locks[v] == None
    ensures var s' := Step(p, s, t);
      && LockedState(p, s') && CanStep(p, s', t)
      && var s'' := Step(p, s', t);
         s''.threads == s.threads[t := s''.threads[t]] && WorkOf(p, t, s''.threads[t]) < WorkOf(p, t, s.threads[t])
  {
    StepLocked(p, s, t);
    var c, s' := CallOf(p, t, s.threads[t]), Step(p, s, t);
    assert c.dst != c.src;
    assert s'.threads[t] == s.threads[t].(pc := Second);
    assert s'.locks[c.src] == None;
  }

  ghost predicate Nearer(p: Program, s: State, s': State)
  {
    var w, w' := Total(Work(p), s.threads), Total(Work(p), s'.threads);
    var h, h' := Total(Halfway(p), s.threads), Total(Halfway(p), s'.threads);
    0 <= w' && 0 <= h' && (w' < w || (w' == w && h' < h))
  }

  lemma TryNonNegative(p: Program, s: State)
    requires LockedState(p, s)
    ensures Total(Work(p), s.threads) >= 0 && Total(Halfway(p), s.threads) >= 0
  {
    forall t: nat | t < |s.threads|
      ensures Work(p)(t, s.threads[t]) >= 0
    {
      assert ThreadOk(p, t, s.threads[t]);
    }
    TotalNonNegative(Work(p), s.threads);
    TotalNonNegative(Halfway(p), s.threads);
  }

  lemma NobodyHolds(p: Program, s: State)
    requires LockedState(p, s) && p.mode == TryLock
    requires forall t: nat | t < |s.threads| && Busy(p, t, s.threads[t]) :: s.threads[t].pc == First
    ensures forall v: nat | v < |s.locks| :: s.locks[v] == None
  {
    forall v: nat | v < |s.locks|
      ensures s.locks[v] == None
    {
      if s.locks[v].Some? {
        HolderBusy(p, s, v, s.locks[v].value);
      }
    }
  }

  /** From every unfinished state some schedule gets nearer to the end. */
  lemma TryAdvance(p: Program, ts: seq<nat>) returns (longer: seq<nat>)
    requires p.WellFormed() && p.mode == TryLock && NoSelfCalls(p) && IsRun(p, ts) && !Finished(p, After(p, ts))
    ensures IsRun(p, longer) && ts <= longer && Nearer(p, After(p, ts), After(p, longer))
  {
    RunLocked(p, ts);
    var s := After(p, ts);
    if t: nat :| t < |s.threads| && Busy(p, t, s.threads[t]) && s.threads[t].pc != First {
      assert ThreadOk(p, t, s.threads[t]);
      longer := ts + [t];
      MoreRun(p, ts, t);
      TryStep(p, s, t);
      var th' := Step(p, s, t).threads[t];
      TotalUpdate(Work(p), s.threads, t, th');
      TotalUpdate(Halfway(p), s.threads, t, th');
    } else {
      var t: nat :| t < |s.threads| && Busy(p, t, s.threads[t]);
      NobodyHolds(p, s);
      TryAlone(p, s, t);
      MoreRun(p, ts, t);
      MoreRun(p, ts + [t], t);
      longer := ts + [t] + [t];
      TotalUpdate(Work(p), s.threads, t, After(p, longer).threads[t]);
    }
    RunLocked(p, longer);
    TryNonNegative(p, After(p, longer));
  }

  lemma {:induction false} TryRunOn(p: Program, ts: seq<nat>) returns (full: seq<nat>)
    requires p.WellFormed() && p.mode == TryLock && NoSelfCalls(p) && IsRun(p, ts)
    ensures IsRun(p, full) && ts <= full && Finished(p, After(p, full))
    decreases Total(Work(p), After(p, ts).threads), Total(Halfway(p), After(p, ts).threads)
  {
    if Finished(p, After(p, ts)) {
      full := ts;
    } else {
      var longer := TryAdvance(p, ts);
      full := TryRunOn(p, longer);
    }
  }

  ghost predicate CanFinish(p: Program, ts: seq<nat>)
  {
    exists full :: IsRun(p, full) && ts <= full && Finished(p, After(p, full))
  }

  /** With trylock and back-off some schedule completes all additions from every reachable state
      exactly when no call names one vector twice. */
  lemma TryFinishesExactly(p: Program)
    requires p.WellFormed() && p.mode == TryLock
    ensures (forall ts | IsRun(p, ts) :: CanFinish(p, ts)) <==> NoSelfCalls(p)
  {
    if NoSelfCalls(p) {
      forall ts | IsRun(p, ts)
        ensures CanFinish(p, ts)
      {
        var full := TryRunOn(p, ts);
      }
    } else {
      if CanFinish(p, []) {
        var full :| IsRun(p, full) && Finished(p, After(p, full));
        FinishedMeansNoSelfCalls(p, full);
      }
      assert IsRun(p, []);
    }
  }
}
