/** The approximate counter against the calls that have been made: what each CPU has counted, what it has
    moved to the global count, and what a `get` has read. */
module CounterHistory {
  import opened Basics
  import opened ApproxCounter

  // ---- What one CPU makes of the amounts added to it, one after the other ----

  function SumOf(log: seq<int>): int
  {
    if log == [] then 0 else SumOf(log[..|log| - 1]) + log[|log| - 1]
  }

  /** The local count after the amounts of `log`: each time it reaches the threshold it begins again. */
  function Residue(threshold: int, log: seq<int>): int
  {
    if log == [] then 0
    else
      var full := Residue(threshold, log[..|log| - 1]) + log[|log| - 1];
      if full >= threshold then 0 else full
  }

  /** What they have moved to the global count. */
  function Carried(threshold: int, log: seq<int>): int
  {
    if log == [] then 0
    else
      var full := Residue(threshold, log[..|log| - 1]) + log[|log| - 1];
      Carried(threshold, log[..|log| - 1]) + if full >= threshold then full else 0
  }

  /** Nothing is lost, and what stays behind is below the threshold. */
  lemma {:induction false} CarriedAndResidue(threshold: int, log: seq<int>)
    requires threshold >= 1
    ensures SumOf(log) == Carried(threshold, log) + Residue(threshold, log) && Residue(threshold, log) < threshold
  {
    if log != [] {
      CarriedAndResidue(threshold, log[..|log| - 1]);
    }
  }

  ghost predicate NoneBelow(log: seq<int>)
  {
    forall k | 0 <= k < |log| :: log[k] >= 0
  }

  /** While amounts that are not negative add up to less than the threshold, nothing is moved. */
  lemma {:induction false} SmallIsNotCarried(threshold: int, log: seq<int>)
    requires threshold >= 1 && NoneBelow(log) && SumOf(log) < threshold
    ensures Carried(threshold, log) == 0 && Residue(threshold, log) == SumOf(log) >= 0
  {
    if log != [] {
      SmallIsNotCarried(threshold, log[..|log| - 1]);
    }
  }

  // ---- The counts of the machine are those ----

  /** A local count that is not being changed. */
  predicate Settled(threshold: int, cpu: Cpu)
  {
    !cpu.moved && cpu.local == Residue(threshold, cpu.log)
  }

  /** A local count to which the last amount of its log has been added, and nothing else done. */
  predicate Filled(threshold: int, cpu: Cpu)
  {
    cpu.log != [] && cpu.local == Residue(threshold, cpu.log[..|cpu.log| - 1]) + cpu.log[|cpu.log| - 1]
  }

  predicate CpuExact(threshold: int, threads: seq<Thread>, cpu: Cpu)
  {
    if cpu.lock == None || cpu.lock.value >= |threads| then Settled(threshold, cpu)
    else
      var th := threads[cpu.lock.value];
      if th.Test? then !cpu.moved && Filled(threshold, cpu)
      else if th.LockGlobal? || th.Transfer? then !cpu.moved && Filled(threshold, cpu) && cpu.local >= threshold
      else if th.UnlockGlobal? || th.Zero? then cpu.moved && Filled(threshold, cpu) && cpu.local >= threshold
      else Settled(threshold, cpu)
  }

  /** What of a CPU's amounts is in the global count. */
  function ShareOf(cpu: Cpu): int
  {
    SumOf(cpu.log) - RestOf(cpu)
  }

  function Share(): (nat, Cpu) -> int
  {
    (i: nat, cpu: Cpu) => ShareOf(cpu)
  }

  ghost predicate AllExact(threshold: int, s: State)
  {
    && (forall i: nat | i < |s.cpus| :: CpuExact(threshold, s.threads, s.cpus[i]))
    && s.global == Total(Share(), s.cpus)
  }

  lemma SumMore(log: seq<int>, amt: int)
    ensures SumOf(log + [amt]) == SumOf(log) + amt && (log + [amt])[..|log|] == log
  {
    assert (log + [amt])[..|log|] == log;
  }

  /** A step of an update, on its own CPU. */
  lemma OwnExact(threshold: int, s: State, t: nat)
    requires threshold >= 1 && Sized(s) && Legal(s, Run(t)) && OnCpu(s.threads[t]).Some?
    requires var th, cpu := s.threads[t], s.cpus[OnCpu(s.threads[t]).value];
      CpuExact(threshold, s.threads, cpu) && (!th.Lock? ==> cpu.lock == Some(t))
    ensures var i, s' := OnCpu(s.threads[t]).value, UpdateStep(threshold, s, t);
      && s'.threads == s.threads[t := s'.threads[t]] && s'.cpus == s.cpus[i := s'.cpus[i]]
      && CpuExact(threshold, s'.threads, s'.cpus[i])
      && s'.global - s.global == ShareOf(s'.cpus[i]) - ShareOf(s.cpus[i])
  {
    var i := OnCpu(s.threads[t]).value;
    SumMore(s.cpus[i].log, s.threads[t].amt);
    assert s.cpus[i := s.cpus[i]] == s.cpus;
  }

  lemma UpdateExact(threshold: int, s: State, t: nat)
    requires Inv(threshold, false, s) && AllExact(threshold, s) && Legal(s, Run(t)) && OnCpu(s.threads[t]).Some?
    ensures AllExact(threshold, UpdateStep(threshold, s, t))
  {
    var th, s' := s.threads[t], UpdateStep(threshold, s, t);
    var i := OnCpu(th).value;
    assert HasLocal(th, i) <==> s.cpus[i].lock == Some(t);
    OwnExact(threshold, s, t);
    forall k: nat | k < |s'.cpus|
      ensures CpuExact(threshold, s'.threads, s'.cpus[k])
    {
      if k != i {
        assert !HasLocal(th, k) && s.cpus[k].lock != Some(t);
      }
    }
    TotalUpdate(Share(), s.cpus, i, s'.cpus[i]);
  }

  /** A move of a thread that is not in an update: no lock of a CPU is its. */
  lemma OtherExact(threshold: int, s: State, t: nat, s': State)
    requires Inv(threshold, false, s) && AllExact(threshold, s) && t < |s.threads| && OnCpu(s.threads[t]) == None
    requires |s'.threads| == |s.threads| && s'.threads == s.threads[t := s'.threads[t]]
    requires s'.cpus == s.cpus && s'.global == s.global
    ensures AllExact(threshold, s')
  {
    forall k: nat | k < |s'.cpus|
      ensures CpuExact(threshold, s'.threads, s'.cpus[k])
    {
      assert !HasLocal(s.threads[t], k) && s.cpus[k].lock != Some(t);
    }
  }

  lemma MoveExact(threshold: int, s: State, m: Move)
    requires Inv(threshold, false, s) && AllExact(threshold, s) && Legal(s, m)
    ensures AllExact(threshold, Apply(threshold, s, m))
  {
    if m.Run? && OnCpu(s.threads[m.t]).Some? {
      UpdateExact(threshold, s, m.t);
    } else {
      OtherExact(threshold, s, m.t, Apply(threshold, s, m));
    }
  }

  lemma InitExact(threshold: int, n: nat)
    requires threshold >= 1
    ensures AllExact(threshold, Init(n))
  {
    var s := Init(n);
    forall i: nat | i < |s.cpus|
      ensures CpuExact(threshold, s.threads, s.cpus[i]) && Share()(i, s.cpus[i]) == 0
    {
      NewCpu(threshold, s.threads, s.cpus[i]);
    }
    TotalZero(Share(), s.cpus);
  }

  lemma NewCpu(threshold: int, threads: seq<Thread>, cpu: Cpu)
    requires cpu.lock == None && cpu.log == [] && cpu.local == 0 && !cpu.moved
    ensures CpuExact(threshold, threads, cpu) && ShareOf(cpu) == 0
  {
  }

  lemma {:induction false} RunExact(threshold: int, n: nat, ms: seq<Move>)
    requires threshold >= 1 && IsRun(threshold, n, ms)
    ensures AllExact(threshold, After(threshold, n, ms))
  {
    if ms == [] {
      InitExact(threshold, n);
    } else {
      RunExact(threshold, n, ms[..|ms| - 1]);
      RunInv(threshold, false, n, ms[..|ms| - 1]);
      MoveExact(threshold, After(threshold, n, ms[..|ms| - 1]), ms[|ms| - 1]);
    }
  }

  /** Where each CPU stands: what it has in the global count is what its amounts carry there, or still
      without the last of them. */
  predicate ShareIs(threshold: int, cpu: Cpu)
  {
    || ShareOf(cpu) == Carried(threshold, cpu.log)
    || (cpu.lock.Some? && cpu.log != [] && ShareOf(cpu) == Carried(threshold, cpu.log[..|cpu.log| - 1]))
  }

  lemma ExactShare(threshold: int, threads: seq<Thread>, cpu: Cpu)
    requires threshold >= 1 && CpuExact(threshold, threads, cpu)
    ensures ShareIs(threshold, cpu)
    ensures cpu.lock == None ==> cpu.local == Residue(threshold, cpu.log) && ShareOf(cpu) == Carried(threshold, cpu.log)
  {
    CarriedAndResidue(threshold, cpu.log);
    if cpu.log != [] {
      CarriedAndResidue(threshold, cpu.log[..|cpu.log| - 1]);
    }
  }

  /** The global count is the sum of what the CPUs have carried there, and a local count whose lock is
      free is what its amounts leave behind. */
  ghost predicate CountsAre(threshold: int, s: State)
  {
    && s.global == Total(Share(), s.cpus)
    && forall i: nat | i < |s.cpus| ::
         && ShareIs(threshold, s.cpus[i])
         && (s.cpus[i].lock == None ==>
               s.cpus[i].local == Residue(threshold, s.cpus[i].log)
               && ShareOf(s.cpus[i]) == Carried(threshold, s.cpus[i].log))
  }

  lemma ExactCounts(threshold: int, s: State)
    requires threshold >= 1 && AllExact(threshold, s)
    ensures CountsAre(threshold, s)
  {
    forall i: nat | i < |s.cpus|
      ensures ShareIs(threshold, s.cpus[i])
      ensures s.cpus[i].lock == None ==>
        s.cpus[i].local == Residue(threshold, s.cpus[i].log) && ShareOf(s.cpus[i]) == Carried(threshold, s.cpus[i].log)
    {
      ExactShare(threshold, s.threads, s.cpus[i]);
    }
  }

  /** In every reachable state the counts are those. */
  lemma {:induction false} CountsExact(threshold: int, n: nat, ms: seq<Move>)
    requires threshold >= 1 && IsRun(threshold, n, ms)
    ensures CountsAre(threshold, After(threshold, n, ms))
  {
    RunExact(threshold, n, ms);
    ExactCounts(threshold, After(threshold, n, ms));
  }

  // ---- The amounts are those of the calls ----

  /** The amounts thread `t` is asked to add for thread ids of CPU `i`, in order. */
  function UpdatesOf(ms: seq<Move>, t: nat, i: nat): seq<int>
  {
    if ms == [] then []
    else
      var m := ms[|ms| - 1];
      UpdatesOf(ms[..|ms| - 1], t, i) + if m.Update? && m.t == t && m.threadID % NUMCPUS == i then [m.amt] else []
  }

  /** All amounts asked for, and those for CPU `i`. */
  function Amounts(ms: seq<Move>): int
  {
    if ms == [] then 0 else Amounts(ms[..|ms| - 1]) + if ms[|ms| - 1].Update? then ms[|ms| - 1].amt else 0
  }

  function AmountsOn(ms: seq<Move>, i: nat): int
  {
    if ms == [] then 0
    else
      var m := ms[|ms| - 1];
      AmountsOn(ms[..|ms| - 1], i) + if m.Update? && m.threadID % NUMCPUS == i then m.amt else 0
  }

  function GetsOf(ms: seq<Move>, t: nat): nat
  {
    if ms == [] then 0 else GetsOf(ms[..|ms| - 1], t) + if ms[|ms| - 1].Get? && ms[|ms| - 1].t == t then 1 else 0
  }

  /** The amount of an update under way that has not been added to its CPU `i`. */
  function ToAdd(th: Thread, i: nat): seq<int>
  {
    if (th.Lock? || th.Add?) && th.cpu == i then [th.amt] else []
  }

  function WaitingOnOf(i: nat, th: Thread): int
  {
    if (th.Lock? || th.Add?) && th.cpu == i then th.amt else 0
  }

  function WaitingOn(i: nat): (nat, Thread) -> int
  {
    (t: nat, th: Thread) => WaitingOnOf(i, th)
  }

  /** A thread has added to CPU `i` exactly the amounts it was asked to, in order, but for one under way. */
  ghost predicate AddsDue(th: Thread, t: nat, cpu: Cpu, i: nat, updates: seq<int>)
  {
    |cpu.log| == |cpu.who| && By(cpu.log, cpu.who, t) + ToAdd(th, i) == updates
  }

  /** Each `get` of a thread has read a value, but for one under way, and is to return what it has read. */
  predicate GetDue(th: Thread, got: seq<int>, gets: nat)
  {
    && |got| + (if th.GetLock? || th.GetRead? then 1 else 0) == gets
    && (th.GetUnlock? || th.GetReturn? ==> got != [] && got[|got| - 1] == th.val)
  }

  ghost predicate AllDue(s: State, ms: seq<Move>)
  {
    && s.started == Amounts(ms) && |s.gets| == |s.getters|
    && (forall i: nat | i < |s.cpus| :: AmountsOn(ms, i) == SumOf(s.cpus[i].log) + Total(WaitingOn(i), s.threads))
    && (forall i: nat, t: nat | i < |s.cpus| && t < |s.threads| ::
          AddsDue(s.threads[t], t, s.cpus[i], i, UpdatesOf(ms, t, i)))
    && forall t: nat | t < |s.threads| :: GetDue(s.threads[t], By(s.gets, s.getters, t), GetsOf(ms, t))
  }

  lemma CallsLonger(ms: seq<Move>, m: Move, t: nat, i: nat)
    ensures UpdatesOf(ms + [m], t, i) ==
      UpdatesOf(ms, t, i) + if m.Update? && m.t == t && m.threadID % NUMCPUS == i then [m.amt] else []
    ensures Amounts(ms + [m]) == Amounts(ms) + if m.Update? then m.amt else 0
    ensures AmountsOn(ms + [m], i) ==
      AmountsOn(ms, i) + if m.Update? && m.threadID % NUMCPUS == i then m.amt else 0
    ensures GetsOf(ms + [m], t) == GetsOf(ms, t) + if m.Get? && m.t == t then 1 else 0
  {
    assert (ms + [m])[..|ms|] == ms;
  }

  /** What a move adds to the log of CPU `i`, and to the values read. */
  function AddedBy(m: Move, th: Thread, i: nat): seq<int>
  {
    if m.Run? && th.Add? && th.cpu == i then [th.amt] else []
  }

  function GotBy(m: Move, th: Thread, global: int): seq<int>
  {
    if m.Run? && th.GetRead? then [global] else []
  }

  lemma MoveLogs(threshold: int, s: State, m: Move, i: nat)
    requires Sized(s) && Legal(s, m) && i < |s.cpus|
    ensures var th, s' := s.threads[m.t], Apply(threshold, s, m);
      var added := AddedBy(m, th, i);
      && s'.threads == s.threads[m.t := s'.threads[m.t]] && |s'.cpus| == |s.cpus|
      && s'.cpus[i].log == s.cpus[i].log + added
      && s'.cpus[i].who == s.cpus[i].who + if added == [] then [] else [m.t]
  {
  }

  lemma MoveGets(threshold: int, s: State, m: Move)
    requires Sized(s) && Legal(s, m)
    ensures var th, s' := s.threads[m.t], Apply(threshold, s, m);
      var got := GotBy(m, th, s.global);
      && s'.gets == s.gets + got && s'.getters == s.getters + if got == [] then [] else [m.t]
  {
  }

  lemma MoveStarted(threshold: int, s: State, m: Move)
    requires Sized(s) && Legal(s, m)
    ensures Apply(threshold, s, m).started == s.started + if m.Update? then m.amt else 0
  {
  }

  /** How the thread itself moves on. */
  lemma MoveWaiting(threshold: int, s: State, m: Move, i: nat)
    requires Sized(s) && Legal(s, m)
    ensures var th, th' := s.threads[m.t], Apply(threshold, s, m).threads[m.t];
      var called := if m.Update? && m.threadID % NUMCPUS == i then [m.amt] else [];
      && AddedBy(m, th, i) + ToAdd(th', i) == ToAdd(th, i) + called
      && WaitingOnOf(i, th') + SumOf(AddedBy(m, th, i)) == WaitingOnOf(i, th) + SumOf(called)
  {
    assert forall x: int :: SumOf([x]) == x by {
      forall x: int
        ensures SumOf([x]) == x
      {
        assert [x][..0] == [];
      }
    }
  }

  lemma MoveGetDue(threshold: int, s: State, m: Move, got: seq<int>, gets: nat)
    requires Sized(s) && Legal(s, m) && GetDue(s.threads[m.t], got, gets)
    ensures GetDue(Apply(threshold, s, m).threads[m.t], got + GotBy(m, s.threads[m.t], s.global),
                   gets + if m.Get? then 1 else 0)
  {
  }

  lemma {:induction false} SumAppend(a: seq<int>, b: seq<int>)
    requires |b| <= 1
    ensures SumOf(a + b) == SumOf(a) + SumOf(b)
  {
    if b == [] {
      assert a + b == a;
    } else {
      assert b[..0] == [] && b == [b[0]];
      SumMore(a, b[0]);
    }
  }

  lemma CpuAmounts(threshold: int, s: State, ms: seq<Move>, m: Move, i: nat)
    requires AllDue(s, ms) && Sized(s) && Legal(s, m) && i < |s.cpus|
    ensures var s' := Apply(threshold, s, m);
      |s'.cpus| == |s.cpus| && AmountsOn(ms + [m], i) == SumOf(s'.cpus[i].log) + Total(WaitingOn(i), s'.threads)
  {
    var th := s.threads[m.t];
    MoveLogs(threshold, s, m, i);
    MoveWaiting(threshold, s, m, i);
    CallsLonger(ms, m, m.t, i);
    SumAppend(s.cpus[i].log, AddedBy(m, th, i));
    SumAppend([], if m.Update? && m.threadID % NUMCPUS == i then [m.amt] else []);
    TotalUpdate(WaitingOn(i), s.threads, m.t, Apply(threshold, s, m).threads[m.t]);
    assert m.Update? ==> [m.amt][..0] == [];
  }

  /** What is added and still to be added, before and after. */
  lemma AddsOn(mine: seq<int>, added: seq<int>, toAdd': seq<int>, toAdd: seq<int>, called: seq<int>)
    requires added + toAdd' == toAdd + called
    ensures (mine + added) + toAdd' == (mine + toAdd) + called
  {
    assert (mine + added) + toAdd' == mine + (added + toAdd');
  }

  /** Thread `u` moves, having added `added` to CPU `i` and been called for `called`. */
  lemma DueStep(th: Thread, th': Thread, t: nat, u: nat, cpu: Cpu, cpu': Cpu, i: nat, added: seq<int>,
                called: seq<int>, updates: seq<int>)
    requires AddsDue(th, t, cpu, i, updates) && |added| <= 1
    requires cpu'.log == cpu.log + added && cpu'.who == cpu.who + if added == [] then [] else [u]
    requires if t == u then added + ToAdd(th', i) == ToAdd(th, i) + called else th' == th
    ensures AddsDue(th', t, cpu', i, updates + if t == u then called else [])
  {
    var more, toAdd', calls := if t == u then added else [], ToAdd(th', i), if t == u then called else [];
    ByLonger(cpu.log, cpu.who, added, u, t);
    assert By(cpu'.log, cpu'.who, t) == By(cpu.log, cpu.who, t) + more;
    assert t != u ==> [] + toAdd' == ToAdd(th, i) + [];
    AddsOn(By(cpu.log, cpu.who, t), more, toAdd', ToAdd(th, i), calls);
  }

  lemma CpuAdds(threshold: int, s: State, ms: seq<Move>, m: Move, i: nat, t: nat)
    requires AllDue(s, ms) && Sized(s) && Legal(s, m) && i < |s.cpus| && t < |s.threads|
    ensures var s' := Apply(threshold, s, m);
      && |s'.cpus| == |s.cpus| && |s'.threads| == |s.threads|
      && AddsDue(s'.threads[t], t, s'.cpus[i], i, UpdatesOf(ms + [m], t, i))
  {
    var s' := Apply(threshold, s, m);
    var called := if m.Update? && m.threadID % NUMCPUS == i then [m.amt] else [];
    MoveLogs(threshold, s, m, i);
    MoveWaiting(threshold, s, m, i);
    CallsLonger(ms, m, t, i);
    DueStep(s.threads[t], s'.threads[t], t, m.t, s.cpus[i], s'.cpus[i], i, AddedBy(m, s.threads[m.t], i), called,
      UpdatesOf(ms, t, i));
  }

  lemma ThreadGets(threshold: int, s: State, ms: seq<Move>, m: Move, t: nat)
    requires AllDue(s, ms) && Sized(s) && Legal(s, m) && t < |s.threads|
    ensures var s' := Apply(threshold, s, m);
      && |s'.threads| == |s.threads| && |s'.gets| == |s'.getters|
      && GetDue(s'.threads[t], By(s'.gets, s'.getters, t), GetsOf(ms + [m], t))
  {
    MoveLogs(threshold, s, m, 0);
    MoveGets(threshold, s, m);
    CallsLonger(ms, m, t, 0);
    ByLonger(s.gets, s.getters, GotBy(m, s.threads[m.t], s.global), m.t, t);
    if t == m.t {
      MoveGetDue(threshold, s, m, By(s.gets, s.getters, t), GetsOf(ms, t));
    }
  }

  lemma StillDue(threshold: int, s: State, ms: seq<Move>, m: Move)
    requires AllDue(s, ms) && Sized(s) && Legal(s, m)
    ensures AllDue(Apply(threshold, s, m), ms + [m])
  {
    var s' := Apply(threshold, s, m);
    MoveLogs(threshold, s, m, 0);
    MoveGets(threshold, s, m);
    MoveStarted(threshold, s, m);
    CallsLonger(ms, m, m.t, 0);
    forall i: nat | i < |s'.cpus|
      ensures AmountsOn(ms + [m], i) == SumOf(s'.cpus[i].log) + Total(WaitingOn(i), s'.threads)
    {
      CpuAmounts(threshold, s, ms, m, i);
    }
    forall i: nat, t: nat | i < |s'.cpus| && t < |s'.threads|
      ensures AddsDue(s'.threads[t], t, s'.cpus[i], i, UpdatesOf(ms + [m], t, i))
    {
      CpuAdds(threshold, s, ms, m, i, t);
    }
    forall t: nat | t < |s'.threads|
      ensures GetDue(s'.threads[t], By(s'.gets, s'.getters, t), GetsOf(ms + [m], t))
    {
      ThreadGets(threshold, s, ms, m, t);
    }
  }

  /** In every reachable state: what has been started is the sum of all amounts asked for; each thread has
      added to each CPU exactly the amounts it was asked to add there, in order, but for one under
      way; and each of its gets has read one value, but for one under way, and returns that. */
  lemma {:induction false} EveryCallDue(threshold: int, n: nat, ms: seq<Move>)
    requires IsRun(threshold, n, ms)
    ensures AllDue(After(threshold, n, ms), ms)
  {
    if ms == [] {
      forall i: nat
        ensures Total(WaitingOn(i), Init(n).threads) == 0
      {
        TotalZero(WaitingOn(i), Init(n).threads);
      }
    } else {
      var ms', m := ms[..|ms| - 1], ms[|ms| - 1];
      EveryCallDue(threshold, n, ms');
      StillDue(threshold, After(threshold, n, ms'), ms', m);
      assert ms == ms' + [m];
    }
  }

  // ---- Small amounts, and what a get reads ----

  /** No amount in a log is negative if none was asked for. */
  ghost predicate LogsNotNegative(s: State)
  {
    && (forall i: nat | i < |s.cpus| :: NoneBelow(s.cpus[i].log))
    && forall t: nat | t < |s.threads| && (s.threads[t].Lock? || s.threads[t].Add?) :: s.threads[t].amt >= 0
  }

  lemma MoveNotNegative(threshold: int, s: State, m: Move)
    requires Sized(s) && Legal(s, m) && LogsNotNegative(s) && NotNegative(m)
    ensures LogsNotNegative(Apply(threshold, s, m))
  {
    var s' := Apply(threshold, s, m);
    forall i: nat | i < |s'.cpus|
      ensures NoneBelow(s'.cpus[i].log)
    {
      MoveLogs(threshold, s, m, i);
    }
  }

  lemma {:induction false} RunNotNegative(threshold: int, n: nat, ms: seq<Move>)
    requires IsRun(threshold, n, ms) && NoneNegative(ms)
    ensures LogsNotNegative(After(threshold, n, ms))
  {
    if ms != [] {
      RunNotNegative(threshold, n, ms[..|ms| - 1]);
      MoveNotNegative(threshold, After(threshold, n, ms[..|ms| - 1]), ms[|ms| - 1]);
    }
  }

  lemma SmallShare(threshold: int, cpu: Cpu)
    requires threshold >= 1 && ShareIs(threshold, cpu) && NoneBelow(cpu.log) && SumOf(cpu.log) < threshold
    ensures ShareOf(cpu) == 0
  {
    SmallIsNotCarried(threshold, cpu.log);
    if cpu.log != [] {
      SmallIsNotCarried(threshold, cpu.log[..|cpu.log| - 1]);
    }
  }

  lemma SmallCpu(threshold: int, s: State, ms: seq<Move>, i: nat)
    requires threshold >= 1 && CountsAre(threshold, s) && AllDue(s, ms) && LogsNotNegative(s)
    requires i < |s.cpus| && AmountsOn(ms, i) < threshold
    ensures ShareOf(s.cpus[i]) == 0
  {
    TotalNonNegative(WaitingOn(i), s.threads);
    SmallShare(threshold, s.cpus[i]);
  }

  ghost predicate AllSmall(threshold: int, ms: seq<Move>)
  {
    forall i: nat | i < NUMCPUS :: AmountsOn(ms, i) < threshold
  }

  lemma SmallCounts(threshold: int, s: State, ms: seq<Move>)
    requires threshold >= 1 && |s.cpus| == NUMCPUS && CountsAre(threshold, s) && AllDue(s, ms) && LogsNotNegative(s)
    requires AllSmall(threshold, ms)
    ensures s.global == 0
  {
    forall i: nat | i < |s.cpus|
      ensures Share()(i, s.cpus[i]) == 0
    {
      SmallCpu(threshold, s, ms, i);
    }
    TotalZero(Share(), s.cpus);
  }

  /** While no amount is negative and those asked for on each CPU add up to less than the threshold, the
      global count stays zero. */
  lemma {:induction false} SmallStaysLocal(threshold: int, n: nat, ms: seq<Move>)
    requires threshold >= 1 && IsRun(threshold, n, ms) && NoneNegative(ms) && AllSmall(threshold, ms)
    ensures After(threshold, n, ms).global == 0
  {
    CountsExact(threshold, n, ms);
    EveryCallDue(threshold, n, ms);
    RunNotNegative(threshold, n, ms);
    AlwaysExact(threshold, n, ms);
    SmallCounts(threshold, After(threshold, n, ms), ms);
  }

  /** A step that changes the global count adds to it a local count that has reached the threshold. */
  lemma {:induction false} TransfersAreFull(threshold: int, n: nat, ms: seq<Move>, m: Move)
    requires threshold >= 1 && IsRun(threshold, n, ms)
    requires Sized(After(threshold, n, ms)) && Legal(After(threshold, n, ms), m)
    ensures var s := After(threshold, n, ms);
      var s' := Apply(threshold, s, m);
      s'.global == s.global || s'.global >= s.global + threshold
  {
    var s := After(threshold, n, ms);
    RunExact(threshold, n, ms);
    RunInv(threshold, false, n, ms);
    var th := s.threads[m.t];
    if m.Run? && th.Transfer? {
      assert HasLocal(th, OnCpu(th).value) && s.cpus[OnCpu(th).value].lock == Some(m.t);
      assert CpuExact(threshold, s.threads, s.cpus[OnCpu(th).value]);
    }
  }

  /** After `k` moves, since when thread `t` has not asked again, the global count was `th.val`, and
      `th.low` and `th.high` had been completed and started. */
  ghost predicate ReadAt(threshold: int, n: nat, ms: seq<Move>, t: nat, th: Thread, k: nat)
    requires th.GetUnlock? || th.GetReturn?
  {
    && k <= |ms|
    && (forall j | k <= j < |ms| :: !(ms[j].Get? && ms[j].t == t))
    && var s := After(threshold, n, ms[..k]);
       s.global == th.val && s.completed == th.low && s.started == th.high
  }

  ghost predicate HasReadAt(threshold: int, n: nat, ms: seq<Move>, t: nat, th: Thread)
  {
    th.GetUnlock? || th.GetReturn? ==> exists k: nat :: ReadAt(threshold, n, ms, t, th, k)
  }

  lemma ReadEarlier(threshold: int, n: nat, ms: seq<Move>, m: Move, t: nat, th: Thread, th': Thread)
    requires HasReadAt(threshold, n, ms, t, th) && (th.GetUnlock? || th.GetReturn?) && !(m.Get? && m.t == t)
    requires (th'.GetUnlock? || th'.GetReturn?) && th'.val == th.val && th'.low == th.low && th'.high == th.high
    ensures HasReadAt(threshold, n, ms + [m], t, th')
  {
    var k: nat :| ReadAt(threshold, n, ms, t, th, k);
    assert (ms + [m])[..k] == ms[..k];
    assert ReadAt(threshold, n, ms + [m], t, th', k);
  }

  lemma ReadNow(threshold: int, n: nat, ms: seq<Move>, m: Move, t: nat, th': Thread)
    requires th'.GetUnlock? && !m.Get?
    requires var s := After(threshold, n, ms); th' == GetUnlock(s.completed, s.started, s.global)
    ensures HasReadAt(threshold, n, ms + [m], t, th')
  {
    assert (ms + [m])[..|ms|] == ms;
    assert ReadAt(threshold, n, ms + [m], t, th', |ms|);
  }

  lemma GetPasses(threshold: int, s: State, m: Move, t: nat)
    requires Sized(s) && Legal(s, m) && t < |s.threads|
    requires var th' := Apply(threshold, s, m).threads[t]; th'.GetUnlock? || th'.GetReturn?
    ensures var th, th' := s.threads[t], Apply(threshold, s, m).threads[t];
      if t == m.t && th.GetRead? then m.Run? && th' == GetUnlock(s.completed, s.started, s.global)
      else
        && !(m.Get? && m.t == t) && (th.GetUnlock? || th.GetReturn?)
        && th'.val == th.val && th'.low == th.low && th'.high == th.high
  {
  }

  /** What a `get` is about to return was the global count at some moment since it was called. */
  lemma {:induction false} GetsRead(threshold: int, n: nat, ms: seq<Move>, t: nat)
    requires IsRun(threshold, n, ms) && t < n
    ensures |After(threshold, n, ms).threads| == n
    ensures HasReadAt(threshold, n, ms, t, After(threshold, n, ms).threads[t])
  {
    if ms != [] {
      var ms', m := ms[..|ms| - 1], ms[|ms| - 1];
      var s := After(threshold, n, ms');
      GetsRead(threshold, n, ms', t);
      MoveLogs(threshold, s, m, 0);
      assert ms == ms' + [m];
      var th, th' := s.threads[t], Apply(threshold, s, m).threads[t];
      if th'.GetUnlock? || th'.GetReturn? {
        GetPasses(threshold, s, m, t);
        if t == m.t && th.GetRead? {
          ReadNow(threshold, n, ms', m, t, th');
        } else {
          ReadEarlier(threshold, n, ms', m, t, th, th');
        }
      }
    }
  }
}
