/** The approximate counter of `apprxcntr.c`: one local count per CPU, moved to the global count
    when it reaches the threshold. First as one thread alone uses it, updated in place; then as
    a machine that interleaves any number of updates and reads. */
module ApproxCounter {
  import opened Basics

  const NUMCPUS: nat := 8

  function Value(): (nat, int) -> int
  {
    (i: nat, x: int) => x
  }

  lemma {:induction false} ValuesBelow(local: seq<int>, bound: int)
    requires forall i: nat | i < |local| :: local[i] <= bound
    ensures Total(Value(), local) <= |local| * bound
  {
    if local != [] {
      ValuesBelow(local[..|local| - 1], bound);
      assert |local| * bound == (|local| - 1) * bound + bound;
    }
  }

  class Counter {
    var global: int
    var local: array<int>
    const threshold: int

    ghost predicate Valid()
      reads this, local
    {
      && threshold >= 1 && local.Length == NUMCPUS
      && forall i | 0 <= i < NUMCPUS :: local[i] < threshold
    }

    /** `init`. */
    constructor (threshold: int)
      requires threshold >= 1
      ensures Valid() && fresh(local) && this.threshold == threshold
      ensures global == 0 && forall i | 0 <= i < NUMCPUS :: local[i] == 0
    {
      this.threshold := threshold;
      global := 0;
      local := new int[NUMCPUS];
      new;
      for i := 0 to NUMCPUS
        invariant fresh(local) && local.Length == NUMCPUS && global == 0
        invariant forall j | 0 <= j < i :: local[j] == 0
      {
        local[i] := 0;
      }
    }

    /** `update`: the amount goes to one local count, or with it to the global one; nothing is lost. */
    method Update(threadID: nat, amt: int)
      requires Valid()
      modifies this`global, local
      ensures Valid()
      ensures global + Total(Value(), local[..]) == old(global + Total(Value(), local[..])) + amt
      ensures forall i | 0 <= i < NUMCPUS && i != threadID % NUMCPUS :: local[i] == old(local[i])
      ensures old(local[threadID % NUMCPUS]) + amt < threshold ==>
        global == old(global) && local[threadID % NUMCPUS] == old(local[threadID % NUMCPUS]) + amt
      ensures old(local[threadID % NUMCPUS]) + amt >= threshold ==> local[threadID % NUMCPUS] == 0
    {
      var cpu := threadID % NUMCPUS;
      ghost var before := local[..];
      local[cpu] := local[cpu] + amt;
      if local[cpu] >= threshold {
        global := global + local[cpu];
        local[cpu] := 0;
      }
      TotalUpdate(Value(), before, cpu, local[cpu]);
      assert local[..] == before[cpu := local[cpu]];
    }

    /** `get`: the global count, less than one threshold per CPU short of all that was added. */
    method Get() returns (val: int)
      requires Valid()
      ensures val == global
      ensures global + Total(Value(), local[..]) - val <= NUMCPUS * (threshold - 1)
    {
      val := global;
      ValuesBelow(local[..], threshold - 1);
    }
  }

  // ---- The machine ----

  /** Where a thread is, with its local variables. In `get`, `low` and `high` remember how much had
      been completed and started when it read the global count. */
  datatype Thread =
    | Idle
    | Lock(cpu: nat, amt: int)
    | Add(cpu: nat, amt: int)
    | Test(cpu: nat, amt: int)
    | LockGlobal(cpu: nat, amt: int)
    | Transfer(cpu: nat, amt: int)
    | UnlockGlobal(cpu: nat, amt: int)
    | Zero(cpu: nat, amt: int)
    | Unlock(cpu: nat, amt: int)
    | GetLock
    | GetRead
    | GetUnlock(low: int, high: int, val: int)
    | GetReturn(low: int, high: int, val: int)

  /** A local count and its lock. For the accounts: `added` is what the holder has added and not
      yet completed, `moved` says that the count is already in the global one but not yet zeroed; `log`
      are the amounts added, and `who` says by whom. */
  datatype Cpu = Cpu(local: int, lock: Option<nat>, added: int, moved: bool, log: seq<int>, who: seq<nat>)

  /** `started`, `applied` and `completed` add up the amounts of the updates that have been
      called, have reached a local count, and have returned. `gets` are the values that have been
      read, and `getters` says by whom. */
  datatype State = State(
    global: int,
    glock: Option<nat>,
    cpus: seq<Cpu>,
    threads: seq<Thread>,
    started: int,
    applied: int,
    completed: int,
    gets: seq<int>,
    getters: seq<nat>)

  function Init(n: nat): State
  {
    State(0, None, seq(NUMCPUS, i => Cpu(0, None, 0, false, [], [])), seq(n, t => Idle), 0, 0, 0, [], [])
  }

  datatype Move = Update(t: nat, threadID: nat, amt: int) | Get(t: nat) | Run(t: nat)

  function OnCpu(th: Thread): Option<nat>
  {
    if th.Lock? || th.Add? || th.Test? || th.LockGlobal? || th.Transfer? || th.UnlockGlobal? || th.Zero? || th.Unlock?
    then Some(th.cpu) else None
  }

  predicate Sized(s: State)
  {
    |s.cpus| == NUMCPUS && forall t: nat | t < |s.threads| && OnCpu(s.threads[t]).Some? ::
      OnCpu(s.threads[t]).value < NUMCPUS
  }

  predicate Legal(s: State, m: Move)
    requires Sized(s)
  {
    && m.t < |s.threads|
    && var th := s.threads[m.t];
       match m
       case Update(t, threadID, amt) => th == Idle
       case Get(t) => th == Idle
       case Run(t) =>
         && th != Idle
         && (th.Lock? ==> s.cpus[OnCpu(th).value].lock == None)
         && (th.LockGlobal? || th.GetLock? ==> s.glock == None)
  }

  function Goto(s: State, t: nat, th: Thread): State
    requires t < |s.threads|
  {
    s.(threads := s.threads[t := th])
  }

  function SetCpu(s: State, i: nat, cpu: Cpu): State
    requires i < |s.cpus|
  {
    s.(cpus := s.cpus[i := cpu])
  }

  function UpdateStep(threshold: int, s: State, t: nat): State
    requires Sized(s) && t < |s.threads| && OnCpu(s.threads[t]).Some?
  {
    var th := s.threads[t];
    var i, amt := th.cpu, th.amt;
    var cpu := s.cpus[i];
    if th.Lock? then Goto(SetCpu(s, i, cpu.(lock := Some(t))), t, Add(i, amt))
    else if th.Add? then
      var cpu' := cpu.(local := cpu.local + amt, added := amt, log := cpu.log + [amt], who := cpu.who + [t]);
      Goto(SetCpu(s, i, cpu'), t, Test(i, amt)).(applied := s.applied + amt)
    else if th.Test? then Goto(s, t, if cpu.local >= threshold then LockGlobal(i, amt) else Unlock(i, amt))
    else if th.LockGlobal? then Goto(s, t, Transfer(i, amt)).(glock := Some(t))
    else if th.Transfer? then
      Goto(SetCpu(s, i, cpu.(moved := true)), t, UnlockGlobal(i, amt)).(global := s.global + cpu.local)
    else if th.UnlockGlobal? then Goto(s, t, Zero(i, amt)).(glock := None)
    else if th.Zero? then Goto(SetCpu(s, i, cpu.(local := 0, moved := false)), t, Unlock(i, amt))
    else Goto(SetCpu(s, i, cpu.(lock := None, added := 0)), t, Idle).(completed := s.completed + amt)
  }

  function GetStep(s: State, t: nat): State
    requires t < |s.threads|
  {
    var th := s.threads[t];
    if th.GetLock? then Goto(s, t, GetRead).(glock := Some(t))
    else if th.GetRead? then
      Goto(s, t, GetUnlock(s.completed, s.started, s.global)).(gets := s.gets + [s.global], getters := s.getters + [t])
    else if th.GetUnlock? then Goto(s, t, GetReturn(th.low, th.high, th.val)).(glock := None)
    else Goto(s, t, Idle)
  }

  function Apply(threshold: int, s: State, m: Move): State
    requires Sized(s) && Legal(s, m)
  {
    match m
    case Update(t, threadID, amt) => Goto(s, t, Lock(threadID % NUMCPUS, amt)).(started := s.started + amt)
    case Get(t) => Goto(s, t, GetLock)
    case Run(t) => if OnCpu(s.threads[t]).Some? then UpdateStep(threshold, s, t) else GetStep(s, t)
  }

  // ---- The invariant ----

  /** What of a local count is not in the global count. */
  function RestOf(cpu: Cpu): int
  {
    if cpu.moved then 0 else cpu.local
  }

  function Rest(): (nat, Cpu) -> int
  {
    (i: nat, cpu: Cpu) => RestOf(cpu)
  }

  function Open(): (nat, Cpu) -> int
  {
    (i: nat, cpu: Cpu) => cpu.added
  }

  /** What of a call's amount has not reached its local count. */
  function WaitingOf(th: Thread): int
  {
    if th.Lock? || th.Add? then th.amt else 0
  }

  function Waiting(): (nat, Thread) -> int
  {
    (t: nat, th: Thread) => WaitingOf(th)
  }

  ghost predicate Accounts(s: State)
  {
    && s.applied == s.global + Total(Rest(), s.cpus)
    && s.completed == s.applied - Total(Open(), s.cpus)
    && s.started == s.applied + Total(Waiting(), s.threads)
  }

  predicate HasGlobal(th: Thread)
  {
    th.Transfer? || th.UnlockGlobal? || th.GetRead? || th.GetUnlock?
  }

  predicate HasLocal(th: Thread, i: nat)
  {
    OnCpu(th) == Some(i) && !th.Lock?
  }

  /** A CPU nobody has locked is below the threshold; one that is locked was, before its holder's
      amount. `pos` says that no amount is negative. */
  ghost predicate CpuOk(threshold: int, pos: bool, threads: seq<Thread>, cpu: Cpu, i: nat)
  {
    && (pos ==> cpu.local >= 0 && cpu.added >= 0)
    && match cpu.lock
       case None => cpu.local < threshold && cpu.added == 0 && !cpu.moved
       case Some(t) =>
         && t < |threads| && HasLocal(threads[t], i)
         && var th := threads[t];
            if th.Add? then cpu.local < threshold && cpu.added == 0 && !cpu.moved && (pos ==> th.amt >= 0)
            else
              && cpu.added == th.amt
              && (th.Test? || th.LockGlobal? || th.Transfer? ==> !cpu.moved && cpu.local - th.amt < threshold)
              && (th.UnlockGlobal? || th.Zero? ==> cpu.moved)
              && (th.Unlock? ==> !cpu.moved && cpu.local < threshold)
  }

  /** What the variables of a thread say about the amounts, if none is negative. */
  predicate GetOk(threshold: int, pos: bool, th: Thread)
  {
    pos ==>
      && (th.GetUnlock? || th.GetReturn? ==> th.low - NUMCPUS * (threshold - 1) <= th.val <= th.high)
      && (th.Lock? ==> th.amt >= 0)
  }

  ghost predicate Locked(threads: seq<Thread>, cpus: seq<Cpu>, glock: Option<nat>)
  {
    && (forall t: nat, i: nat | t < |threads| && i < |cpus| :: HasLocal(threads[t], i) <==> cpus[i].lock == Some(t))
    && (forall t: nat | t < |threads| :: HasGlobal(threads[t]) <==> glock == Some(t))
    && (glock.Some? ==> glock.value < |threads|)
  }

  ghost predicate CpusOk(threshold: int, pos: bool, threads: seq<Thread>, cpus: seq<Cpu>)
  {
    forall i: nat | i < |cpus| :: CpuOk(threshold, pos, threads, cpus[i], i)
  }

  ghost predicate GetsOk(threshold: int, pos: bool, threads: seq<Thread>)
  {
    forall t: nat | t < |threads| :: GetOk(threshold, pos, threads[t])
  }

  ghost predicate Inv(threshold: int, pos: bool, s: State)
  {
    && threshold >= 1 && Sized(s)
    && Accounts(s)
    && Locked(s.threads, s.cpus, s.glock)
    && CpusOk(threshold, pos, s.threads, s.cpus)
    && GetsOk(threshold, pos, s.threads)
  }

  lemma InitInv(threshold: int, pos: bool, n: nat)
    requires threshold >= 1
    ensures Inv(threshold, pos, Init(n))
  {
    var s := Init(n);
    TotalZero(Rest(), s.cpus);
    TotalZero(Open(), s.cpus);
    TotalZero(Waiting(), s.threads);
  }

  /** Thread `t` changes at most CPU `i`. */
  lemma LockedUpdate(threads: seq<Thread>, cpus: seq<Cpu>, glock: Option<nat>, t: nat, th: Thread, i: nat, cpu: Cpu,
                     glock': Option<nat>)
    requires Locked(threads, cpus, glock) && t < |threads| && i < |cpus|
    requires Moves(cpus[i].lock, cpu.lock, t) && Moves(glock, glock', t)
    requires HasLocal(th, i) <==> cpu.lock == Some(t)
    requires forall k: nat | k != i :: !HasLocal(th, k) && !HasLocal(threads[t], k)
    requires HasGlobal(th) <==> glock' == Some(t)
    ensures Locked(threads[t := th], cpus[i := cpu], glock')
  {
    var threads', cpus' := threads[t := th], cpus[i := cpu];
    forall u: nat, k: nat | u < |threads'| && k < |cpus'|
      ensures HasLocal(threads'[u], k) <==> cpus'[k].lock == Some(u)
    {
      assert HasLocal(threads[u], k) <==> cpus[k].lock == Some(u);
    }
  }

  lemma CpusUpdate(threshold: int, pos: bool, threads: seq<Thread>, cpus: seq<Cpu>, t: nat, th: Thread, i: nat,
                   cpu: Cpu)
    requires CpusOk(threshold, pos, threads, cpus) && t < |threads| && i < |cpus|
    requires forall k: nat | k < |cpus| && k != i :: cpus[k].lock != Some(t)
    requires CpuOk(threshold, pos, threads[t := th], cpu, i)
    ensures CpusOk(threshold, pos, threads[t := th], cpus[i := cpu])
  {
    var threads', cpus' := threads[t := th], cpus[i := cpu];
    forall k: nat | k < |cpus'|
      ensures CpuOk(threshold, pos, threads', cpus'[k], k)
    {
      assert CpuOk(threshold, pos, threads, cpus[k], k);
    }
  }

  lemma GetsUpdate(threshold: int, pos: bool, threads: seq<Thread>, t: nat, th: Thread)
    requires GetsOk(threshold, pos, threads) && t < |threads| && GetOk(threshold, pos, th)
    ensures GetsOk(threshold, pos, threads[t := th])
  {
  }

  lemma {:induction false} LateTotal(cpus: seq<Cpu>, bound: int)
    requires forall i: nat | i < |cpus| ::
      RestOf(cpus[i]) - cpus[i].added <= bound && RestOf(cpus[i]) >= 0 && cpus[i].added >= 0
    ensures Total(Rest(), cpus) - Total(Open(), cpus) <= |cpus| * bound
    ensures Total(Rest(), cpus) >= 0 && Total(Open(), cpus) >= 0
  {
    if cpus != [] {
      LateTotal(cpus[..|cpus| - 1], bound);
      assert |cpus| * bound == (|cpus| - 1) * bound + bound;
    }
  }

  lemma Waits(threshold: int, s: State)
    requires Inv(threshold, true, s)
    ensures forall t: nat | t < |s.threads| :: WaitingOf(s.threads[t]) >= 0
  {
    forall t: nat | t < |s.threads|
      ensures WaitingOf(s.threads[t]) >= 0
    {
      assert GetOk(threshold, true, s.threads[t]);
      if s.threads[t].Add? {
        assert HasLocal(s.threads[t], s.threads[t].cpu) && OnCpu(s.threads[t]) == Some(s.threads[t].cpu);
        assert CpuOk(threshold, true, s.threads, s.cpus[s.threads[t].cpu], s.threads[t].cpu);
      }
    }
  }

  /** If no amount is negative, the global count is at every moment at most what has been started,
      and lags behind what has been completed by less than one threshold per CPU. */
  lemma Bounds(threshold: int, s: State)
    requires Inv(threshold, true, s)
    ensures s.completed - NUMCPUS * (threshold - 1) <= s.global <= s.applied <= s.started && s.completed <= s.applied
  {
    forall i: nat | i < |s.cpus|
      ensures RestOf(s.cpus[i]) - s.cpus[i].added <= threshold - 1 && RestOf(s.cpus[i]) >= 0 && s.cpus[i].added >= 0
    {
      assert CpuOk(threshold, true, s.threads, s.cpus[i], i);
    }
    LateTotal(s.cpus, threshold - 1);
    Waits(threshold, s);
    TotalNonNegative(Waiting(), s.threads);
  }

  // ---- Every move keeps the invariant ----

  lemma CpuAccounts(s: State, t: nat, th: Thread, i: nat, cpu: Cpu)
    requires t < |s.threads| && i < |s.cpus|
    ensures Total(Rest(), s.cpus[i := cpu]) == Total(Rest(), s.cpus) - RestOf(s.cpus[i]) + RestOf(cpu)
    ensures Total(Open(), s.cpus[i := cpu]) == Total(Open(), s.cpus) - s.cpus[i].added + cpu.added
    ensures Total(Waiting(), s.threads[t := th]) ==
      Total(Waiting(), s.threads) - WaitingOf(s.threads[t]) + WaitingOf(th)
  {
    TotalUpdate(Rest(), s.cpus, i, cpu);
    TotalUpdate(Open(), s.cpus, i, cpu);
    TotalUpdate(Waiting(), s.threads, t, th);
  }

  /** What one step of an update changes. */
  lemma UpdateShape(threshold: int, pos: bool, s: State, t: nat)
    requires threshold >= 1 && Sized(s) && Legal(s, Run(t)) && OnCpu(s.threads[t]).Some?
    requires var th := s.threads[t];
      && CpuOk(threshold, pos, s.threads, s.cpus[OnCpu(th).value], OnCpu(th).value) && GetOk(threshold, pos, th)
      && (HasLocal(th, th.cpu) <==> s.cpus[OnCpu(th).value].lock == Some(t))
      && (HasGlobal(th) <==> s.glock == Some(t))
    ensures var th, s' := s.threads[t], UpdateStep(threshold, s, t);
      var i, th' := OnCpu(th).value, s'.threads[t];
      && s'.threads == s.threads[t := th'] && s'.cpus == s.cpus[i := s'.cpus[i]] && s'.started == s.started
      && (OnCpu(th') == None || OnCpu(th') == Some(i)) && !th'.Lock?
      && Moves(s.cpus[i].lock, s'.cpus[i].lock, t) && Moves(s.glock, s'.glock, t)
      && (HasLocal(th', i) <==> s'.cpus[i].lock == Some(t)) && (HasGlobal(th') <==> s'.glock == Some(t))
      && CpuOk(threshold, pos, s'.threads, s'.cpus[i], i) && GetOk(threshold, pos, th')
  {
  }

  lemma UpdateAccounts(threshold: int, pos: bool, s: State, t: nat)
    requires threshold >= 1 && Sized(s) && Legal(s, Run(t)) && OnCpu(s.threads[t]).Some? && Accounts(s)
    requires var th := s.threads[t]; CpuOk(threshold, pos, s.threads, s.cpus[OnCpu(th).value], OnCpu(th).value)
    requires HasLocal(s.threads[t], s.threads[t].cpu) <==> s.cpus[OnCpu(s.threads[t]).value].lock == Some(t)
    ensures Accounts(UpdateStep(threshold, s, t))
  {
    var th, s' := s.threads[t], UpdateStep(threshold, s, t);
    var i := OnCpu(th).value;
    CpuAccounts(s, t, s'.threads[t], i, s'.cpus[i]);
    assert s.cpus[i := s.cpus[i]] == s.cpus;
  }

  lemma UpdateStepInv(threshold: int, pos: bool, s: State, t: nat)
    requires Inv(threshold, pos, s) && Legal(s, Run(t)) && OnCpu(s.threads[t]).Some?
    ensures Inv(threshold, pos, UpdateStep(threshold, s, t))
  {
    var th, s' := s.threads[t], UpdateStep(threshold, s, t);
    var i := OnCpu(th).value;
    assert CpuOk(threshold, pos, s.threads, s.cpus[i], i) && GetOk(threshold, pos, th);
    assert HasLocal(th, i) <==> s.cpus[i].lock == Some(t);
    UpdateShape(threshold, pos, s, t);
    UpdateAccounts(threshold, pos, s, t);
    forall k: nat | k < |s.cpus| && k != i
      ensures s.cpus[k].lock != Some(t)
    {
      assert !HasLocal(th, k);
    }
    UpdateDone(threshold, pos, s, t, s', i);
  }

  lemma UpdateDone(threshold: int, pos: bool, s: State, t: nat, s': State, i: nat)
    requires Locked(s.threads, s.cpus, s.glock) && CpusOk(threshold, pos, s.threads, s.cpus)
    requires GetsOk(threshold, pos, s.threads)
    requires t < |s.threads| && t < |s'.threads| && i < |s.cpus| == |s'.cpus| && OnCpu(s.threads[t]) == Some(i)
    requires s'.threads == s.threads[t := s'.threads[t]] && s'.cpus == s.cpus[i := s'.cpus[i]]
    requires s'.started == s.started
    requires OnCpu(s'.threads[t]) == None || OnCpu(s'.threads[t]) == Some(i)
    requires Moves(s.cpus[i].lock, s'.cpus[i].lock, t) && Moves(s.glock, s'.glock, t)
    requires HasLocal(s'.threads[t], i) <==> s'.cpus[i].lock == Some(t)
    requires HasGlobal(s'.threads[t]) <==> s'.glock == Some(t)
    requires forall k: nat | k < |s.cpus| && k != i :: s.cpus[k].lock != Some(t)
    requires CpuOk(threshold, pos, s'.threads, s'.cpus[i], i) && GetOk(threshold, pos, s'.threads[t])
    ensures Locked(s'.threads, s'.cpus, s'.glock) && CpusOk(threshold, pos, s'.threads, s'.cpus)
    ensures GetsOk(threshold, pos, s'.threads)
  {
    LockedUpdate(s.threads, s.cpus, s.glock, t, s'.threads[t], i, s'.cpus[i], s'.glock);
    CpusUpdate(threshold, pos, s.threads, s.cpus, t, s'.threads[t], i, s'.cpus[i]);
    GetsUpdate(threshold, pos, s.threads, t, s'.threads[t]);
  }

  /** A move of a thread that is not in an update, or only begins one. */
  lemma OffCpuInv(threshold: int, pos: bool, s: State, t: nat, th: Thread, s': State)
    requires Inv(threshold, pos, s) && t < |s.threads| && OnCpu(s.threads[t]) == None
    requires s' == s.(threads := s.threads[t := th], glock := s'.glock, started := s'.started,
                      gets := s'.gets, getters := s'.getters)
    requires OnCpu(th) == None || (th.Lock? && th.cpu < NUMCPUS)
    requires s'.started == s.started + WaitingOf(th) && GetOk(threshold, pos, th)
    requires Moves(s.glock, s'.glock, t) && (HasGlobal(th) <==> s'.glock == Some(t))
    ensures Inv(threshold, pos, s')
  {
    var cpu := s.cpus[0];
    assert !HasLocal(s.threads[t], 0) && s.cpus[0].lock != Some(t);
    forall k: nat | k < |s.cpus|
      ensures s.cpus[k].lock != Some(t)
    {
      assert !HasLocal(s.threads[t], k);
    }
    assert s.cpus[0 := cpu] == s.cpus;
    CpuAccounts(s, t, th, 0, cpu);
    LockedUpdate(s.threads, s.cpus, s.glock, t, th, 0, cpu, s'.glock);
    assert CpuOk(threshold, pos, s.threads, cpu, 0);
    CpusUpdate(threshold, pos, s.threads, s.cpus, t, th, 0, cpu);
    GetsUpdate(threshold, pos, s.threads, t, th);
  }

  predicate NotNegative(m: Move)
  {
    m.Update? ==> m.amt >= 0
  }

  lemma {:induction false} MoveKeepsInv(threshold: int, pos: bool, s: State, m: Move)
    requires Inv(threshold, pos, s) && Legal(s, m) && (pos ==> NotNegative(m))
    ensures Inv(threshold, pos, Apply(threshold, s, m))
  {
    if m.Run? && OnCpu(s.threads[m.t]).Some? {
      UpdateStepInv(threshold, pos, s, m.t);
    } else {
      var s' := Apply(threshold, s, m);
      if pos {
        Bounds(threshold, s);
      }
      assert GetOk(threshold, pos, s.threads[m.t]);
      OffCpuInv(threshold, pos, s, m.t, s'.threads[m.t], s');
    }
  }

  // ---- Whole runs ----

  /** The state after the moves `ms`, oldest first, of `n` threads; illegal moves do nothing. */
  ghost function After(threshold: int, n: nat, ms: seq<Move>): State
  {
    if ms == [] then Init(n)
    else
      var s := After(threshold, n, ms[..|ms| - 1]);
      if Sized(s) && Legal(s, ms[|ms| - 1]) then Apply(threshold, s, ms[|ms| - 1]) else s
  }

  ghost predicate IsRun(threshold: int, n: nat, ms: seq<Move>)
  {
    ms == [] ||
    var s := After(threshold, n, ms[..|ms| - 1]);
    IsRun(threshold, n, ms[..|ms| - 1]) && Sized(s) && Legal(s, ms[|ms| - 1])
  }

  ghost predicate NoneNegative(ms: seq<Move>)
  {
    forall k | 0 <= k < |ms| :: NotNegative(ms[k])
  }

  lemma {:induction false} RunInv(threshold: int, pos: bool, n: nat, ms: seq<Move>)
    requires threshold >= 1 && IsRun(threshold, n, ms) && (pos ==> NoneNegative(ms))
    ensures Inv(threshold, pos, After(threshold, n, ms))
  {
    if ms == [] {
      InitInv(threshold, pos, n);
    } else {
      RunInv(threshold, pos, n, ms[..|ms| - 1]);
      MoveKeepsInv(threshold, pos, After(threshold, n, ms[..|ms| - 1]), ms[|ms| - 1]);
    }
  }

  /** In every reachable state, whatever the amounts, the global and the local counts, less the counts
      in transfer, are all amounts applied, and a local count whose lock is free is below the threshold. */
  lemma {:induction false} AlwaysExact(threshold: int, n: nat, ms: seq<Move>)
    requires threshold >= 1 && IsRun(threshold, n, ms)
    ensures var s := After(threshold, n, ms);
      && |s.cpus| == NUMCPUS
      && s.global + Total(Rest(), s.cpus) == s.applied
      && forall i: nat | i < NUMCPUS && s.cpus[i].lock == None :: s.cpus[i].local < threshold && !s.cpus[i].moved
  {
    RunInv(threshold, false, n, ms);
    var s := After(threshold, n, ms);
    forall i: nat | i < NUMCPUS && s.cpus[i].lock == None
      ensures s.cpus[i].local < threshold && !s.cpus[i].moved
    {
      assert CpuOk(threshold, false, s.threads, s.cpus[i], i);
    }
  }

  /** If no amount is negative: the global count is at most what has been started and misses less than
      one threshold per CPU of what has been completed; the value of a `get` is so too, measured
      by what had been started and completed when it was read. */
  lemma {:induction false} AlwaysClose(threshold: int, n: nat, ms: seq<Move>)
    requires threshold >= 1 && IsRun(threshold, n, ms) && NoneNegative(ms)
    ensures var s := After(threshold, n, ms);
      && s.completed - NUMCPUS * (threshold - 1) <= s.global <= s.started
      && forall t: nat | t < |s.threads| && s.threads[t].GetReturn? ::
           s.threads[t].low - NUMCPUS * (threshold - 1) <= s.threads[t].val <= s.threads[t].high
  {
    RunInv(threshold, true, n, ms);
    var s := After(threshold, n, ms);
    Bounds(threshold, s);
    forall t: nat | t < |s.threads| && s.threads[t].GetReturn?
      ensures s.threads[t].low - NUMCPUS * (threshold - 1) <= s.threads[t].val <= s.threads[t].high
    {
      assert GetOk(threshold, true, s.threads[t]);
    }
  }

  ghost predicate AllIdle(s: State)
  {
    forall t: nat | t < |s.threads| :: s.threads[t] == Idle
  }

  /** When all calls have returned, the counts add up to all amounts; if none is negative, the global
      count alone misses less than one threshold per CPU. */
  lemma {:induction false} QuietIsExact(threshold: int, n: nat, ms: seq<Move>)
    requires threshold >= 1 && IsRun(threshold, n, ms) && AllIdle(After(threshold, n, ms))
    ensures var s := After(threshold, n, ms);
      && s.started == s.applied == s.completed == s.global + Total(Rest(), s.cpus)
      && (NoneNegative(ms) ==> 0 <= s.completed - s.global <= NUMCPUS * (threshold - 1))
      && forall i: nat | i < |s.cpus| :: RestOf(s.cpus[i]) == s.cpus[i].local
  {
    RunInv(threshold, false, n, ms);
    var s := After(threshold, n, ms);
    if NoneNegative(ms) {
      RunInv(threshold, true, n, ms);
      Bounds(threshold, s);
    }
    forall i: nat | i < |s.cpus|
      ensures s.cpus[i].lock == None && s.cpus[i].added == 0 && !s.cpus[i].moved
    {
      assert CpuOk(threshold, false, s.threads, s.cpus[i], i);
    }
    TotalZero(Open(), s.cpus);
    TotalZero(Waiting(), s.threads);
  }

  // ---- Every call completes ----

  /** While a call is under way some thread with a call under way can run: the holder of the
      global lock never waits, and the holder of a local lock waits for no other local lock. */
  lemma SomeoneCanRun(threshold: int, pos: bool, s: State, t: nat) returns (u: nat)
    requires Inv(threshold, pos, s) && t < |s.threads| && s.threads[t] != Idle
    ensures Legal(s, Run(u))
  {
    u := t;
    if s.threads[t].Lock? && s.cpus[OnCpu(s.threads[t]).value].lock.Some? {
      u := s.cpus[OnCpu(s.threads[t]).value].lock.value;
      assert CpuOk(threshold, pos, s.threads, s.cpus[OnCpu(s.threads[t]).value], OnCpu(s.threads[t]).value);
    }
    if (s.threads[u].LockGlobal? || s.threads[u].GetLock?) && s.glock.Some? {
      u := s.glock.value;
      assert HasGlobal(s.threads[u]);
    }
  }

  /** Steps a call still takes, at most. */
  function LeftOf(th: Thread): nat
  {
    if th.Lock? then 8
    else if th.Add? then 7
    else if th.Test? then 6
    else if th.LockGlobal? then 5
    else if th.Transfer? then 4
    else if th.UnlockGlobal? then 3
    else if th.Zero? then 2
    else if th.Unlock? then 1
    else if th.GetLock? then 4
    else if th.GetRead? then 3
    else if th.GetUnlock? then 2
    else if th.GetReturn? then 1
    else 0
  }

  function Left(): (nat, Thread) -> int
  {
    (t: nat, th: Thread) => LeftOf(th)
  }

  /** The thread that runs next takes one of the steps that are left. */
  lemma RunCheaper(threshold: int, s: State, t: nat)
    requires Sized(s) && Legal(s, Run(t))
    ensures 0 <= Total(Left(), Apply(threshold, s, Run(t)).threads) < Total(Left(), s.threads)
  {
    var s' := Apply(threshold, s, Run(t));
    assert s'.threads == s.threads[t := s'.threads[t]];
    TotalUpdate(Left(), s.threads, t, s'.threads[t]);
    TotalNonNegative(Left(), s'.threads);
  }

  lemma NextToRun(threshold: int, s: State) returns (u: nat)
    requires Inv(threshold, false, s) && !AllIdle(s)
    ensures Legal(s, Run(u))
  {
    var t: nat :| t < |s.threads| && s.threads[t] != Idle;
    u := SomeoneCanRun(threshold, false, s, t);
  }

  lemma MoreRun(threshold: int, n: nat, ms: seq<Move>, m: Move)
    requires IsRun(threshold, n, ms) && Sized(After(threshold, n, ms)) && Legal(After(threshold, n, ms), m)
    ensures IsRun(threshold, n, ms + [m])
    ensures After(threshold, n, ms + [m]) == Apply(threshold, After(threshold, n, ms), m)
  {
    assert (ms + [m])[..|ms|] == ms;
  }

  /** Every run can be continued, without any new call, until all calls have returned, within as many
      steps as their threads have left. */
  lemma {:induction false} EveryCallCompletes(threshold: int, n: nat, ms: seq<Move>) returns (full: seq<Move>)
    requires threshold >= 1 && IsRun(threshold, n, ms)
    ensures IsRun(threshold, n, full) && ms <= full && AllIdle(After(threshold, n, full))
    ensures forall k | |ms| <= k < |full| :: full[k].Run?
    ensures |full| - |ms| <= Total(Left(), After(threshold, n, ms).threads)
    decreases Total(Left(), After(threshold, n, ms).threads)
  {
    RunInv(threshold, false, n, ms);
    var s := After(threshold, n, ms);
    if AllIdle(s) {
      full := ms;
      TotalNonNegative(Left(), s.threads);
    } else {
      var u := NextToRun(threshold, s);
      MoreRun(threshold, n, ms, Run(u));
      RunCheaper(threshold, s, u);
      full := EveryCallCompletes(threshold, n, ms + [Run(u)]);
    }
  }
}
