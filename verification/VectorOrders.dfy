/** Calls made one after the other, as wholes: every order of them is a run, under any discipline,
    so that the locking disciplines can end exactly as the serial orders do. */
module VectorOrders {
  import opened Basics
  import opened Vector
  import opened VectorInvariant
  import opened VectorSerial
  import opened VectorRuns

  // ---- Orders of calls ----

  /** How often thread `t` occurs in an order. */
  function Count(order: seq<nat>, t: nat): nat
  {
    if order == [] then 0 else Count(order[..|order| - 1], t) + if order[|order| - 1] == t then 1 else 0
  }

  /** Each occurrence of a thread stands for the next call of its script. */
  predicate Fits(p: Program, order: seq<nat>)
  {
    order == [] ||
    var init, t := order[..|order| - 1], order[|order| - 1];
    Fits(p, init) && t < |p.scripts| && Count(init, t) < |p.scripts[t]|
  }

  function CallsIn(p: Program, order: seq<nat>): seq<Call>
    requires Fits(p, order)
  {
    if order == [] then []
    else
      var init, t := order[..|order| - 1], order[|order| - 1];
      CallsIn(p, init) + [p.scripts[t][Count(init, t)]]
  }

  ghost predicate Complete(p: Program, order: seq<nat>)
  {
    Fits(p, order) && forall t: nat | t < |p.scripts| :: Count(order, t) == |p.scripts[t]|
  }

  lemma {:induction false} CallsInRange(p: Program, order: seq<nat>)
    requires p.WellFormed() && Fits(p, order)
    ensures var calls := CallsIn(p, order);
      |calls| == |order| && forall i: nat | i < |calls| :: calls[i].dst < |p.init| && calls[i].src < |p.init|
  {
    if order != [] {
      CallsInRange(p, order[..|order| - 1]);
    }
  }

  lemma OneMoreCall(p: Program, order: seq<nat>, t: nat)
    requires Fits(p, order) && t < |p.scripts| && Count(order, t) < |p.scripts[t]|
    ensures Fits(p, order + [t]) && CallsIn(p, order + [t]) == CallsIn(p, order) + [p.scripts[t][Count(order, t)]]
  {
    assert (order + [t])[..|order|] == order;
  }

  lemma {:induction false} CountAdds(a: seq<nat>, b: seq<nat>, t: nat)
    ensures Count(a + b, t) == Count(a, t) + Count(b, t)
  {
    if b == [] {
      assert a + b == a;
    } else {
      var n := |b| - 1;
      CountAdds(a, b[..n], t);
      assert (a + b)[..|a| + n] == a + b[..n];
    }
  }

  lemma {:induction false} FitsIf(p: Program, order: seq<nat>)
    requires forall k: nat | k < |order| :: order[k] < |p.scripts|
    requires forall t: nat | t < |p.scripts| :: Count(order, t) <= |p.scripts[t]|
    ensures Fits(p, order)
  {
    if order != [] {
      var init, t := order[..|order| - 1], order[|order| - 1];
      assert Count(init, t) < Count(order, t);
      FitsIf(p, init);
    }
  }

  /** A thread `k` times in a row. */
  function Repeat(t: nat, k: nat): seq<nat>
  {
    seq(k, i => t)
  }

  lemma {:induction false} CountRepeat(t: nat, k: nat, u: nat)
    ensures Count(Repeat(t, k), u) == if u == t then k else 0
  {
    if k > 0 {
      CountRepeat(t, k - 1, u);
      assert Repeat(t, k)[..k - 1] == Repeat(t, k - 1);
    }
  }

  lemma CountMore(order: seq<nat>, t: nat, u: nat)
    ensures Count(order + [t], u) == Count(order, u) + if u == t then 1 else 0
  {
    assert (order + [t])[..|order|] == order;
  }

  // ---- One thread alone ----

  ghost predicate Linked(next: State -> Option<State>, path: seq<State>, i: nat)
  {
    i + 1 < |path| && next(path[i]) == Some(path[i + 1])
  }

  ghost predicate IsPath(next: State -> Option<State>, s: State, n: nat, s': State, path: seq<State>)
  {
    |path| == n + 1 && path[0] == s && path[n] == s' && forall i: nat | i < n :: Linked(next, path, i)
  }

  /** `n` steps of `next` lead from `s` to `s'`. */
  ghost predicate Chain(next: State -> Option<State>, s: State, n: nat, s': State)
  {
    exists path :: IsPath(next, s, n, s', path)
  }

  lemma ChainOn(next: State -> Option<State>, s: State, m: nat, s1: State, n: nat, s2: State)
    requires Chain(next, s, m, s1) && Chain(next, s1, n, s2)
    ensures Chain(next, s, m + n, s2)
  {
    var a :| IsPath(next, s, m, s1, a);
    var b :| IsPath(next, s1, n, s2, b);
    var path := a + b[1..];
    forall i: nat | i < m + n
      ensures Linked(next, path, i)
    {
      assert if i < m then Linked(next, a, i) else Linked(next, b, i - m);
    }
    assert IsPath(next, s, m + n, s2, path);
  }

  lemma ChainFirst(next: State -> Option<State>, s: State, n: nat, s': State)
    requires Chain(next, s, n, s')
    ensures n == 0 ==> s == s'
    ensures n > 0 ==> next(s).Some? && Chain(next, next(s).value, n - 1, s')
  {
    var path :| IsPath(next, s, n, s', path);
    if n > 0 {
      assert Linked(next, path, 0);
      forall i: nat | i < n - 1
        ensures Linked(next, path[1..], i)
      {
        assert Linked(next, path, i + 1);
      }
      assert IsPath(next, path[1], n - 1, s', path[1..]);
    }
  }

  ghost function Next(p: Program, t: nat): State -> Option<State>
  {
    s => if Sized(p, s) && CanStep(p, s, t) then Some(Step(p, s, t)) else None
  }

  /** Thread `t`, stepping `n` times, takes state `s` to `s'`. */
  ghost predicate Leads(p: Program, s: State, t: nat, n: nat, s': State)
  {
    Chain(Next(p, t), s, n, s')
  }

  lemma AloneOn(p: Program, s: State, t: nat, m: nat, s1: State, n: nat, s2: State)
    requires Leads(p, s, t, m, s1) && Leads(p, s1, t, n, s2)
    ensures Leads(p, s, t, m + n, s2)
  {
    ChainOn(Next(p, t), s, m, s1, n, s2);
  }

  /** A step of `next` at the end of the run `ts` is a step of thread `t`. */
  ghost predicate GoesOn(p: Program, next: State -> Option<State>, t: nat, ts: seq<nat>)
  {
    IsRun(p, ts) && next(After(p, ts)).Some? ==>
      IsRun(p, ts + [t]) && After(p, ts + [t]) == next(After(p, ts)).value
  }

  lemma {:induction false} ChainRuns(p: Program, next: State -> Option<State>, ts: seq<nat>, t: nat, n: nat, s': State)
    returns (longer: seq<nat>)
    requires forall us :: GoesOn(p, next, t, us)
    requires IsRun(p, ts) && Chain(next, After(p, ts), n, s')
    ensures IsRun(p, longer) && ts <= longer && |longer| == |ts| + n && After(p, longer) == s'
    decreases n
  {
    ChainFirst(next, After(p, ts), n, s');
    if n == 0 {
      longer := ts;
    } else {
      assert GoesOn(p, next, t, ts);
      longer := ChainRuns(p, next, ts + [t], t, n - 1, s');
    }
  }

  lemma AloneRuns(p: Program, ts: seq<nat>, t: nat, n: nat, s': State) returns (longer: seq<nat>)
    requires IsRun(p, ts) && Leads(p, After(p, ts), t, n, s')
    ensures IsRun(p, longer) && ts <= longer && |longer| == |ts| + n && After(p, longer) == s'
  {
    forall us
      ensures GoesOn(p, Next(p, t), t, us)
    {
      if IsRun(p, us) && Next(p, t)(After(p, us)).Some? {
        MoreRun(p, us, t);
      }
    }
    longer := ChainRuns(p, Next(p, t), ts, t, n, s');
  }

  lemma OneStep(p: Program, s: State, t: nat)
    requires Sized(p, s) && CanStep(p, s, t)
    ensures Leads(p, s, t, 1, Step(p, s, t)) && Sized(p, Step(p, s, t))
  {
    StepSized(p, s, t);
    assert Linked(Next(p, t), [s, Step(p, s, t)], 0);
    assert IsPath(Next(p, t), s, 1, Step(p, s, t), [s, Step(p, s, t)]);
  }

  /** Can a thread get through this call? A second lock of the same vector only works in address order. */
  predicate Callable(mode: Mode, c: Call)
  {
    mode == Ordered || mode == NoLock || c.dst != c.src
  }

  ghost predicate Unlocked(s: State)
  {
    s.global == None && forall v: nat | v < |s.locks| :: s.locks[v] == None
  }

  /** Thread `t` has all its locks and is about to enter its loop. */
  function Acquired(s: State, t: nat, c: Call): State
    requires t < |s.threads| && c.dst < |s.locks| && c.src < |s.locks|
  {
    s.(threads := s.threads[t := s.threads[t].(pc := ReadDst)],
       locks := s.locks[c.dst := Some(t)][c.src := Some(t)], log := s.log + [c], who := s.who + [t])
  }

  ghost predicate Ready(p: Program, s: State, t: nat, c: Call)
  {
    && Sized(p, s) && Unlocked(s) && t < |s.threads| && Busy(p, t, s.threads[t])
    && c == CallOf(p, t, s.threads[t]) && Callable(p.mode, c)
    && s.threads[t].pc == Start(p.mode) && s.threads[t].k == 0
    && c.dst < |s.locks| == |s.values| && c.src < |s.locks|
    && |s.values[c.dst]| == |s.values[c.src]| == VECTOR_SIZE
  }

  lemma EnterAlone(p: Program, s: State, t: nat, c: Call)
    requires Ready(p, s, t, c) && p.mode == GlobalLock
    ensures var s1 := s.(threads := s.threads[t := s.threads[t].(pc := First)], global := Some(t));
      Leads(p, s, t, 1, s1) && Sized(p, s1)
  {
    OneStep(p, s, t);
  }

  lemma LeaveAlone(p: Program, s: State, t: nat)
    requires Sized(p, s) && t < |s.threads| && Busy(p, t, s.threads[t]) && s.threads[t].pc == Leave
    ensures var s1 := s.(threads := s.threads[t := s.threads[t].(pc := ReadDst)], global := None);
      Leads(p, s, t, 1, s1) && Sized(p, s1)
  {
    OneStep(p, s, t);
  }

  /** Taking both locks, or the one lock of a call that names one vector twice. */
  lemma LocksAlone(p: Program, s: State, t: nat, c: Call) returns (n: nat)
    requires Sized(p, s) && t < |s.threads| && Busy(p, t, s.threads[t]) && c == CallOf(p, t, s.threads[t])
    requires p.mode != NoLock && Callable(p.mode, c) && s.threads[t].pc == First && s.threads[t].k == 0
    requires s.locks[c.dst] == None && s.locks[c.src] == None
    ensures var s' := Acquired(s, t, c);
      var s'' := s'.(threads := s.threads[t := s.threads[t].(pc := if p.mode == GlobalLock then Leave else ReadDst)]);
      Leads(p, s, t, n, s'') && Sized(p, s'')
  {
    OneStep(p, s, t);
    var s1 := Step(p, s, t);
    if c.dst == c.src {
      n := 1;
      assert s.locks[c.dst := Some(t)][c.src := Some(t)] == s.locks[c.dst := Some(t)];
    } else {
      n := 2;
      OneStep(p, s1, t);
      BothLocks(s.locks, c, t);
      AloneOn(p, s, t, 1, s1, 1, Step(p, s1, t));
    }
  }

  lemma BothLocks(locks: seq<Option<nat>>, c: Call, t: nat)
    requires c.dst < |locks| && c.src < |locks| && c.dst != c.src
    ensures locks[c.dst := Some(t)][c.src := Some(t)] == locks[c.src := Some(t)][c.dst := Some(t)]
  {
  }

  lemma AcquireGlobally(p: Program, s: State, t: nat, c: Call) returns (n: nat)
    requires Ready(p, s, t, c) && p.mode == GlobalLock
    ensures Leads(p, s, t, n, Acquired(s, t, c)) && Sized(p, Acquired(s, t, c))
  {
    EnterAlone(p, s, t, c);
    var s1 := s.(threads := s.threads[t := s.threads[t].(pc := First)], global := Some(t));
    n := LocksAlone(p, s1, t, c);
    var s2 := Acquired(s1, t, c).(threads := s1.threads[t := s1.threads[t].(pc := Leave)]);
    LeaveAlone(p, s2, t);
    var s3 := s2.(threads := s2.threads[t := s2.threads[t].(pc := ReadDst)], global := None);
    Twice(s.threads, t, s1.threads[t], s2.threads[t]);
    Twice(s.threads, t, s2.threads[t], s3.threads[t]);
    AloneOn(p, s, t, 1, s1, n, s2);
    AloneOn(p, s, t, 1 + n, s2, 1, s3);
    n := 1 + n + 1;
  }

  lemma AcquireAlone(p: Program, s: State, t: nat, c: Call) returns (n: nat)
    requires Ready(p, s, t, c) && p.mode != NoLock
    ensures Leads(p, s, t, n, Acquired(s, t, c)) && Sized(p, Acquired(s, t, c))
  {
    if p.mode == GlobalLock {
      n := AcquireGlobally(p, s, t, c);
    } else {
      n := LocksAlone(p, s, t, c);
    }
  }

  /** The first `k` elements have been added. */
  function Part(a: seq<int>, b: seq<int>, k: nat): (r: seq<int>)
    requires |a| == |b| && k <= |a|
    ensures |r| == |a|
  {
    seq(|a|, j requires 0 <= j < |a| => if j < k then a[j] + b[j] else a[j])
  }

  /** Thread `t` in the loop of call `c`, `k` elements done, `a` and `b` the vectors before. */
  ghost predicate Looping(p: Program, s: State, t: nat, c: Call, k: nat, a: seq<int>, b: seq<int>)
  {
    && Sized(p, s) && t < |s.threads| && Busy(p, t, s.threads[t]) && c == CallOf(p, t, s.threads[t])
    && |a| == |b| == VECTOR_SIZE && k < VECTOR_SIZE
    && s.threads[t].pc == (if p.mode == NoLock then ReadSrc else ReadDst) && s.threads[t].k == k
    && s.values[c.dst] == Part(a, b, k) && (if c.dst == c.src then a == b else s.values[c.src] == b)
  }

  /** Where the thread is after its `k`-th element. */
  function AfterElement(mode: Mode, th: Thread, k: nat, reg: int): Thread
  {
    if k + 1 < VECTOR_SIZE then Thread(if mode == NoLock then ReadSrc else ReadDst, th.call, k + 1, reg)
    else if mode == NoLock then Thread(ReadSrc, th.call + 1, 0, 0)
    else Thread(Release1, th.call, k, reg)
  }

  lemma FreeElement(p: Program, s: State, t: nat, c: Call, k: nat, a: seq<int>, b: seq<int>)
    requires Looping(p, s, t, c, k, a, b) && p.mode == NoLock
    ensures var s' := s.(threads := s.threads[t := AfterElement(p.mode, s.threads[t], k, b[k])],
                         values := s.values[c.dst := Part(a, b, k + 1)]);
      Leads(p, s, t, 2, s') && Sized(p, s')
  {
    OneStep(p, s, t);
    var s1 := Step(p, s, t);
    OneStep(p, s1, t);
    AloneOn(p, s, t, 1, s1, 1, Step(p, s1, t));
    PartNext(a, b, k);
    Twice(s.threads, t, s1.threads[t], AfterElement(p.mode, s.threads[t], k, b[k]));
  }

  lemma ReadBoth(p: Program, s: State, t: nat, c: Call, k: nat, a: seq<int>, b: seq<int>)
    requires Looping(p, s, t, c, k, a, b) && p.mode != NoLock
    ensures var s2 := s.(threads := s.threads[t := Thread(Write, s.threads[t].call, k, a[k] + b[k])]);
      Leads(p, s, t, 2, s2) && Sized(p, s2)
  {
    OneStep(p, s, t);
    var s1 := Step(p, s, t);
    OneStep(p, s1, t);
    assert s1.threads[t] == Thread(ReadSrc, s.threads[t].call, k, a[k]);
    Twice(s.threads, t, s1.threads[t], Thread(Write, s.threads[t].call, k, a[k] + b[k]));
    AloneOn(p, s, t, 1, s1, 1, Step(p, s1, t));
  }

  lemma LockedElement(p: Program, s: State, t: nat, c: Call, k: nat, a: seq<int>, b: seq<int>)
    requires Looping(p, s, t, c, k, a, b) && p.mode != NoLock
    ensures var s' := s.(threads := s.threads[t := AfterElement(p.mode, s.threads[t], k, a[k] + b[k])],
                         values := s.values[c.dst := Part(a, b, k + 1)]);
      Leads(p, s, t, 3, s') && Sized(p, s')
  {
    ReadBoth(p, s, t, c, k, a, b);
    var s2 := s.(threads := s.threads[t := Thread(Write, s.threads[t].call, k, a[k] + b[k])]);
    WriteAlone(p, s2, t, c, k);
    PartNext(a, b, k);
    Twice(s.threads, t, s2.threads[t], AfterElement(p.mode, s2.threads[t], k, s2.threads[t].reg));
    AloneOn(p, s, t, 2, s2, 1, Step(p, s2, t));
  }

  lemma WriteAlone(p: Program, s: State, t: nat, c: Call, k: nat)
    requires Sized(p, s) && p.mode != NoLock && t < |s.threads| && Busy(p, t, s.threads[t])
    requires c == CallOf(p, t, s.threads[t])
    requires s.threads[t].pc == Write && s.threads[t].k == k
    ensures var s' := s.(threads := s.threads[t := AfterElement(p.mode, s.threads[t], k, s.threads[t].reg)],
                         values := s.values[c.dst := s.values[c.dst][k := s.threads[t].reg]]);
      CanStep(p, s, t) && Step(p, s, t) == s' && Leads(p, s, t, 1, s') && Sized(p, s')
  {
    OneStep(p, s, t);
  }

  lemma PartNext(a: seq<int>, b: seq<int>, k: nat)
    requires |a| == |b| && k < |a|
    ensures Part(a, b, k)[k := a[k] + b[k]] == Part(a, b, k + 1)
  {
  }

  lemma Twice(threads: seq<Thread>, t: nat, th: Thread, th': Thread)
    requires t < |threads|
    ensures threads[t := th][t := th'] == threads[t := th']
  {
  }

  /** The state when thread `t` has left the loop. */
  ghost predicate Looped(p: Program, s: State, t: nat, c: Call, a: seq<int>, b: seq<int>, s': State)
    requires t < |s.threads| && c.dst < |s.values| && |a| == |b|
  {
    && |s'.threads| == |s.threads|
    && s' == s.(threads := s.threads[t := s'.threads[t]], values := s.values[c.dst := Sum(a, b)])
    && var th' := s'.threads[t];
       if p.mode == NoLock then th' == Thread(ReadSrc, s.threads[t].call + 1, 0, 0)
       else th'.pc == Release1 && th'.call == s.threads[t].call
  }

  /** One element: what the loop has come to. */
  lemma ElementAlone(p: Program, s: State, t: nat, c: Call, k: nat, a: seq<int>, b: seq<int>)
    returns (n: nat, s1: State)
    requires Looping(p, s, t, c, k, a, b)
    ensures Leads(p, s, t, n, s1) && Sized(p, s1)
    ensures if k + 1 == VECTOR_SIZE then Looped(p, s, t, c, a, b, s1)
            else Looping(p, s1, t, c, k + 1, a, b) && forall s2 | Looped(p, s1, t, c, a, b, s2) ::
              Looped(p, s, t, c, a, b, s2)
  {
    var reg := if p.mode == NoLock then b[k] else a[k] + b[k];
    var th := AfterElement(p.mode, s.threads[t], k, reg);
    s1 := s.(threads := s.threads[t := th], values := s.values[c.dst := Part(a, b, k + 1)]);
    n := if p.mode == NoLock then 2 else 3;
    if p.mode == NoLock { FreeElement(p, s, t, c, k, a, b); } else { LockedElement(p, s, t, c, k, a, b); }
    LoopGoesOn(p, s, t, c, k, a, b, th, s1);
  }

  lemma LoopGoesOn(p: Program, s: State, t: nat, c: Call, k: nat, a: seq<int>, b: seq<int>, th: Thread, s1: State)
    requires Looping(p, s, t, c, k, a, b) && exists reg :: th == AfterElement(p.mode, s.threads[t], k, reg)
    requires s1 == s.(threads := s.threads[t := th], values := s.values[c.dst := Part(a, b, k + 1)]) && Sized(p, s1)
    ensures k + 1 < VECTOR_SIZE ==> Looping(p, s1, t, c, k + 1, a, b)
    ensures k + 1 < VECTOR_SIZE ==> forall s2 | Looped(p, s1, t, c, a, b, s2) :: Looped(p, s, t, c, a, b, s2)
    ensures k + 1 == VECTOR_SIZE ==> Looped(p, s, t, c, a, b, s1)
  {
    assert k + 1 == VECTOR_SIZE ==> Part(a, b, k + 1) == Sum(a, b);
    assert s1.values[c.dst := Sum(a, b)] == s.values[c.dst := Sum(a, b)];
  }

  lemma {:induction false} LoopAlone(p: Program, s: State, t: nat, c: Call, k: nat, a: seq<int>, b: seq<int>)
    returns (n: nat, s': State)
    requires Looping(p, s, t, c, k, a, b)
    ensures Leads(p, s, t, n, s') && Sized(p, s') && Looped(p, s, t, c, a, b, s')
    decreases VECTOR_SIZE - k
  {
    var s1: State;
    n, s1 := ElementAlone(p, s, t, c, k, a, b);
    if k + 1 < VECTOR_SIZE {
      var m;
      m, s' := LoopAlone(p, s1, t, c, k + 1, a, b);
      AloneOn(p, s, t, n, s1, m, s');
      n := n + m;
    } else {
      s' := s1;
    }
  }

  /** Thread `t` has given its locks back and is about to make its next call. */
  function Released(mode: Mode, s: State, t: nat, c: Call): State
    requires t < |s.threads| && c.dst < |s.locks| && c.src < |s.locks|
  {
    s.(threads := s.threads[t := Thread(Start(mode), s.threads[t].call + 1, 0, 0)],
       locks := s.locks[c.dst := None][c.src := None])
  }

  lemma ReleaseAlone(p: Program, s: State, t: nat, c: Call) returns (n: nat)
    requires Sized(p, s) && t < |s.threads| && Busy(p, t, s.threads[t]) && c == CallOf(p, t, s.threads[t])
    requires p.mode != NoLock && s.threads[t].pc == Release1 && Callable(p.mode, c)
    ensures Leads(p, s, t, n, Released(p.mode, s, t, c)) && Sized(p, Released(p.mode, s, t, c))
  {
    OneStep(p, s, t);
    var s1 := Step(p, s, t);
    if c.dst == c.src {
      n := 1;
      assert s.locks[c.dst := None][c.src := None] == s.locks[c.src := None];
    } else {
      n := 2;
      OneStep(p, s1, t);
      assert s.locks[c.src := None][c.dst := None] == s.locks[c.dst := None][c.src := None];
      Twice(s.threads, t, s1.threads[t], Thread(Start(p.mode), s.threads[t].call + 1, 0, 0));
      AloneOn(p, s, t, 1, s1, 1, Step(p, s1, t));
    }
  }

  lemma FreeCallAlone(p: Program, s: State, t: nat, c: Call) returns (n: nat, s': State)
    requires Ready(p, s, t, c) && p.mode == NoLock
    ensures Leads(p, s, t, n, s') && Sized(p, s') && Unlocked(s')
    ensures s'.threads == s.threads[t := Thread(Start(p.mode), s.threads[t].call + 1, 0, 0)]
    ensures s'.values == s.values[c.dst := Sum(s.values[c.dst], s.values[c.src])]
  {
    assert Part(s.values[c.dst], s.values[c.src], 0) == s.values[c.dst];
    n, s' := LoopAlone(p, s, t, c, 0, s.values[c.dst], s.values[c.src]);
  }

  lemma AcquiredLoops(p: Program, s: State, t: nat, c: Call)
    requires Ready(p, s, t, c) && p.mode != NoLock && Sized(p, Acquired(s, t, c))
    ensures Looping(p, Acquired(s, t, c), t, c, 0, s.values[c.dst], s.values[c.src])
  {
    assert Part(s.values[c.dst], s.values[c.src], 0) == s.values[c.dst];
  }

  /** Thread `t` has done its loop and still has its locks. */
  ghost predicate HasAdded(s: State, t: nat, c: Call, s2: State)
    requires t < |s.threads| && c.dst < |s.locks| == |s.values| && c.src < |s.locks|
    requires |s.values[c.dst]| == |s.values[c.src]|
  {
    && |s2.threads| == |s.threads| && s2.threads == s.threads[t := s2.threads[t]]
    && s2.threads[t].pc == Release1 && s2.threads[t].call == s.threads[t].call
    && s2.locks == s.locks[c.dst := Some(t)][c.src := Some(t)] && s2.global == s.global
    && s2.values == s.values[c.dst := Sum(s.values[c.dst], s.values[c.src])]
  }

  lemma AddAlone(p: Program, s: State, t: nat, c: Call) returns (n: nat, s2: State)
    requires Ready(p, s, t, c) && p.mode != NoLock
    ensures Leads(p, s, t, n, s2) && Sized(p, s2) && HasAdded(s, t, c, s2)
  {
    var m := AcquireAlone(p, s, t, c);
    AcquiredLoops(p, s, t, c);
    n, s2 := LoopAlone(p, Acquired(s, t, c), t, c, 0, s.values[c.dst], s.values[c.src]);
    AloneOn(p, s, t, m, Acquired(s, t, c), n, s2);
    n := m + n;
    LoopedAdds(p, s, t, c, s2);
  }

  lemma LoopedAdds(p: Program, s: State, t: nat, c: Call, s2: State)
    requires p.mode != NoLock && t < |s.threads| && c.dst < |s.locks| == |s.values| && c.src < |s.locks|
    requires |s.values[c.dst]| == |s.values[c.src]|
    requires Looped(p, Acquired(s, t, c), t, c, s.values[c.dst], s.values[c.src], s2)
    ensures HasAdded(s, t, c, s2)
  {
    Twice(s.threads, t, Acquired(s, t, c).threads[t], s2.threads[t]);
  }

  lemma ReleaseAll(p: Program, s: State, t: nat, c: Call, s2: State) returns (n: nat, s': State)
    requires Ready(p, s, t, c) && p.mode != NoLock && Sized(p, s2) && HasAdded(s, t, c, s2)
    ensures Leads(p, s2, t, n, s') && Sized(p, s') && Unlocked(s')
    ensures s'.threads == s.threads[t := Thread(Start(p.mode), s.threads[t].call + 1, 0, 0)]
    ensures s'.values == s.values[c.dst := Sum(s.values[c.dst], s.values[c.src])]
  {
    ReadyToRelease(p, s, t, c, s2);
    n := ReleaseAlone(p, s2, t, c);
    s' := Released(p.mode, s2, t, c);
    AllBack(s, s2, p.mode, t, c);
  }

  lemma LockedCallAlone(p: Program, s: State, t: nat, c: Call) returns (n: nat, s': State)
    requires Ready(p, s, t, c) && p.mode != NoLock
    ensures Leads(p, s, t, n, s') && Sized(p, s') && Unlocked(s')
    ensures s'.threads == s.threads[t := Thread(Start(p.mode), s.threads[t].call + 1, 0, 0)]
    ensures s'.values == s.values[c.dst := Sum(s.values[c.dst], s.values[c.src])]
  {
    var s2, l;
    n, s2 := AddAlone(p, s, t, c);
    l, s' := ReleaseAll(p, s, t, c, s2);
    AloneOn(p, s, t, n, s2, l, s');
    n := n + l;
  }

  lemma ReadyToRelease(p: Program, s: State, t: nat, c: Call, s2: State)
    requires Ready(p, s, t, c) && Sized(p, s2) && HasAdded(s, t, c, s2)
    ensures t < |s2.threads| && Busy(p, t, s2.threads[t]) && c == CallOf(p, t, s2.threads[t])
    ensures s2.threads[t].pc == Release1 && c.dst < |s2.locks| && c.src < |s2.locks|
  {
  }

  lemma AllBack(s: State, s2: State, mode: Mode, t: nat, c: Call)
    requires Unlocked(s) && t < |s.threads| && c.dst < |s.locks| == |s.values| && c.src < |s.locks|
    requires |s.values[c.dst]| == |s.values[c.src]| && HasAdded(s, t, c, s2)
    ensures Unlocked(Released(mode, s2, t, c))
    ensures Released(mode, s2, t, c).threads == s.threads[t := Thread(Start(mode), s.threads[t].call + 1, 0, 0)]
    ensures Released(mode, s2, t, c).values == s.values[c.dst := Sum(s.values[c.dst], s.values[c.src])]
  {
  }

  /** One whole call of a thread that nobody disturbs. */
  lemma CallAlone(p: Program, s: State, t: nat, c: Call) returns (n: nat, s': State)
    requires Ready(p, s, t, c)
    ensures Leads(p, s, t, n, s') && Sized(p, s') && Unlocked(s')
    ensures s'.threads == s.threads[t := Thread(Start(p.mode), s.threads[t].call + 1, 0, 0)]
    ensures s'.values == s.values[c.dst := Sum(s.values[c.dst], s.values[c.src])]
  {
    if p.mode == NoLock {
      n, s' := FreeCallAlone(p, s, t, c);
    } else {
      n, s' := LockedCallAlone(p, s, t, c);
    }
  }

  // ---- Every order is a run ----

  ghost function RestThreads(p: Program, order: seq<nat>): seq<Thread>
  {
    seq(|p.scripts|, t requires 0 <= t => Thread(Start(p.mode), Count(order, t), 0, 0))
  }

  /** All threads are between calls, having made those of `order`. */
  ghost predicate AtRest(p: Program, s: State, order: seq<nat>)
  {
    Sized(p, s) && Unlocked(s) && s.threads == RestThreads(p, order)
  }

  ghost predicate AllCallable(p: Program, order: seq<nat>)
    requires Fits(p, order)
  {
    forall i: nat | i < |CallsIn(p, order)| :: Callable(p.mode, CallsIn(p, order)[i])
  }

  lemma RestNext(p: Program, order: seq<nat>, t: nat)
    requires t < |p.scripts|
    ensures RestThreads(p, order + [t]) == RestThreads(p, order)[t := Thread(Start(p.mode), Count(order, t) + 1, 0, 0)]
  {
    forall u: nat | u < |p.scripts|
      ensures Count(order + [t], u) == Count(order, u) + if u == t then 1 else 0
    {
      CountMore(order, t, u);
    }
  }

  lemma CallFromRest(p: Program, s: State, order: seq<nat>, t: nat, c: Call) returns (n: nat, s': State)
    requires AtRest(p, s, order) && t < |p.scripts| && Count(order, t) < |p.scripts[t]|
    requires c == p.scripts[t][Count(order, t)] && Callable(p.mode, c)
    ensures Leads(p, s, t, n, s') && AtRest(p, s', order + [t])
    ensures c.dst < |s.values| && c.src < |s.values| && |s.values[c.dst]| == |s.values[c.src]|
    ensures s'.values == s.values[c.dst := Sum(s.values[c.dst], s.values[c.src])]
  {
    RestReady(p, s, order, t, c);
    n, s' := CallAlone(p, s, t, c);
    RestNext(p, order, t);
  }

  lemma OneMoreRun(p: Program, order: seq<nat>, ts: seq<nat>, t: nat, c: Call) returns (longer: seq<nat>)
    requires IsRun(p, ts) && AtRest(p, After(p, ts), order)
    requires t < |p.scripts| && Count(order, t) < |p.scripts[t]|
    requires c == p.scripts[t][Count(order, t)] && Callable(p.mode, c)
    ensures IsRun(p, longer) && AtRest(p, After(p, longer), order + [t]) && ts <= longer
    ensures var v := After(p, ts).values;
      && c.dst < |v| && c.src < |v| && |v[c.dst]| == |v[c.src]|
      && After(p, longer).values == v[c.dst := Sum(v[c.dst], v[c.src])]
  {
    var n, s' := CallFromRest(p, After(p, ts), order, t, c);
    longer := AloneRuns(p, ts, t, n, s');
  }

  lemma RestReady(p: Program, s: State, order: seq<nat>, t: nat, c: Call)
    requires AtRest(p, s, order) && t < |p.scripts| && Count(order, t) < |p.scripts[t]|
    requires c == p.scripts[t][Count(order, t)] && Callable(p.mode, c)
    ensures Ready(p, s, t, c) && s.threads[t].call == Count(order, t)
  {
  }

  /** The run `ts` makes the calls of an order and ends as they do serially. */
  ghost predicate RunOf(p: Program, order: seq<nat>, ts: seq<nat>)
    requires p.WellFormed() && Fits(p, order)
  {
    && IsRun(p, ts) && AtRest(p, After(p, ts), order)
    && (forall i: nat | i < |CallsIn(p, order)| ::
          CallsIn(p, order)[i].dst < |p.init| && CallsIn(p, order)[i].src < |p.init|)
    && After(p, ts).values == Serial(p.init, CallsIn(p, order))
  }

  lemma LongerRun(p: Program, order: seq<nat>, ts: seq<nat>, t: nat) returns (longer: seq<nat>)
    requires p.WellFormed() && Fits(p, order) && RunOf(p, order, ts)
    requires t < |p.scripts| && Count(order, t) < |p.scripts[t]| && Callable(p.mode, p.scripts[t][Count(order, t)])
    ensures Fits(p, order + [t]) && RunOf(p, order + [t], longer)
  {
    var c := p.scripts[t][Count(order, t)];
    OneMoreCall(p, order, t);
    CallsInRange(p, order + [t]);
    longer := OneMoreRun(p, order, ts, t, c);
    SerialAppend(p.init, CallsIn(p, order), c);
  }

  /** The calls of any order, made one after the other, are a run that ends as they do serially. */
  lemma {:induction false} OrderRun(p: Program, order: seq<nat>) returns (ts: seq<nat>)
    requires p.WellFormed() && Fits(p, order) && AllCallable(p, order)
    ensures RunOf(p, order, ts)
  {
    if order == [] {
      ts := [];
      assert Init(p).threads == RestThreads(p, []);
    } else {
      var init, t := order[..|order| - 1], order[|order| - 1];
      CallableSplit(p, order);
      ts := OrderRun(p, init);
      ts := LongerRun(p, init, ts, t);
      assert order == init + [t];
    }
  }

  lemma CallableSplit(p: Program, order: seq<nat>)
    requires p.WellFormed() && Fits(p, order) && order != [] && AllCallable(p, order)
    ensures var init, t := order[..|order| - 1], order[|order| - 1];
      AllCallable(p, init) && Callable(p.mode, p.scripts[t][Count(init, t)])
  {
    var init := order[..|order| - 1];
    CallsInRange(p, order);
    CallsInRange(p, init);
    assert CallsIn(p, order)[|order| - 1] == p.scripts[order[|order| - 1]][Count(init, order[|order| - 1])];
    assert forall i: nat | i < |CallsIn(p, init)| :: CallsIn(p, init)[i] == CallsIn(p, order)[i];
  }

  ghost predicate Completes(p: Program, ts: seq<nat>)
  {
    IsRun(p, ts) && Finished(p, After(p, ts))
  }

  ghost predicate CanEndWith(p: Program, values: seq<seq<int>>)
  {
    exists ts :: Completes(p, ts) && After(p, ts).values == values
  }

  ghost predicate SerialEnd(p: Program, order: seq<nat>, values: seq<seq<int>>)
    requires p.WellFormed()
  {
    && Complete(p, order)
    && (forall i: nat | i < |CallsIn(p, order)| ::
          CallsIn(p, order)[i].dst < |p.init| && CallsIn(p, order)[i].src < |p.init|)
    && Serial(p.init, CallsIn(p, order)) == values
  }

  lemma {:induction false} AllAre(p: Program, order: seq<nat>)
    requires Fits(p, order) && (p.mode == Ordered || p.mode == NoLock || NoSelfCalls(p))
    ensures AllCallable(p, order)
  {
    if order != [] {
      AllAre(p, order[..|order| - 1]);
    }
  }

  lemma SerialCanEnd(p: Program, order: seq<nat>, values: seq<seq<int>>) returns (ts: seq<nat>)
    requires p.WellFormed() && SerialEnd(p, order, values)
    requires p.mode == Ordered || p.mode == NoLock || NoSelfCalls(p)
    ensures Completes(p, ts) && After(p, ts).values == values
  {
    AllAre(p, order);
    ts := OrderRun(p, order);
    assert forall t: nat | t < |p.scripts| :: After(p, ts).threads[t].call == |p.scripts[t]|;
  }

  /** A log whose parts follow the scripts is an order of their calls. */
  ghost predicate IsOrder(p: Program, log: seq<Call>, who: seq<nat>)
    requires |log| == |who|
  {
    && Fits(p, who) && CallsIn(p, who) == log
    && forall t: nat | t < |p.scripts| :: Count(who, t) == |By(log, who, t)|
  }

  lemma {:induction false} LogIsOrder(p: Program, log: seq<Call>, who: seq<nat>)
    requires |log| == |who| && (forall i: nat | i < |who| :: who[i] < |p.scripts|)
    requires forall t: nat | t < |p.scripts| :: By(log, who, t) <= p.scripts[t]
    ensures IsOrder(p, log, who)
  {
    if log != [] {
      var n := |log| - 1;
      assert log == log[..n] + [log[n]] && who == who[..n] + [who[n]];
      forall t: nat | t < |p.scripts|
        ensures By(log[..n], who[..n], t) <= p.scripts[t]
      {
        ByAppend(log[..n], who[..n], log[n], who[n], t);
      }
      LogIsOrder(p, log[..n], who[..n]);
      LongerOrder(p, log[..n], who[..n], log[n], who[n]);
    }
  }

  lemma LongerOrder(p: Program, log: seq<Call>, who: seq<nat>, c: Call, t: nat)
    requires |log| == |who| && IsOrder(p, log, who) && t < |p.scripts| && By(log + [c], who + [t], t) <= p.scripts[t]
    ensures IsOrder(p, log + [c], who + [t])
  {
    NextInScript(log, who, c, t, Count(who, t), p.scripts[t]);
    OneMoreCall(p, who, t);
    forall u: nat | u < |p.scripts|
      ensures Count(who + [t], u) == |By(log + [c], who + [t], u)|
    {
      PartGrows(log, who, c, t, u);
    }
  }

  lemma NextInScript(log: seq<Call>, who: seq<nat>, c: Call, t: nat, n: nat, script: seq<Call>)
    requires |log| == |who| && n == |By(log, who, t)| && By(log + [c], who + [t], t) <= script
    ensures n < |script| && script[n] == c
  {
    ByAppend(log, who, c, t, t);
    assert (By(log, who, t) + [c])[n] == c;
  }

  lemma PartGrows(log: seq<Call>, who: seq<nat>, c: Call, t: nat, u: nat)
    requires |log| == |who| && Count(who, u) == |By(log, who, u)|
    ensures Count(who + [t], u) == |By(log + [c], who + [t], u)|
  {
    ByAppend(log, who, c, t, u);
    CountMore(who, t, u);
  }

  /** The values with which a locking discipline can end are exactly those of the serial orders of
      all calls; with a global lock or trylock it can end at all only if no call names one vector twice. */
  lemma {:induction false} OutcomesExactly(p: Program, values: seq<seq<int>>)
    requires p.WellFormed() && p.mode != NoLock
    ensures CanEndWith(p, values) <==>
      ((p.mode == Ordered || NoSelfCalls(p)) && exists order :: SerialEnd(p, order, values))
  {
    if CanEndWith(p, values) {
      var ts :| Completes(p, ts) && After(p, ts).values == values;
      if p.mode != Ordered {
        FinishedMeansNoSelfCalls(p, ts);
      }
      Serializable(p, ts);
      var log, who := After(p, ts).log, After(p, ts).who;
      LogIsOrder(p, log, who);
      assert SerialEnd(p, who, values);
    }
    if (p.mode == Ordered || NoSelfCalls(p)) && exists order :: SerialEnd(p, order, values) {
      var order :| SerialEnd(p, order, values);
      var ts := SerialCanEnd(p, order, values);
    }
  }
}
