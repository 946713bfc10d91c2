/** What every step of the producer/consumer machine keeps. */
module PcInvariant {
  import opened Basics
  import opened PcBuffer
  import opened ProducerConsumer

  // ---- Control: who holds the mutex, and where each kind of thread can be ----

  predicate Critical(pc: Point)
  {
    pc == Test || pc == Act || pc == Signal || pc == Unlock
  }

  predicate InLoop(pc: Point)
  {
    pc == Lock || pc == Asleep || pc == Woken || Critical(pc)
  }

  predicate ThreadOk(c: Config, t: nat, th: Thread)
  {
    if t < c.producers then
      && (InLoop(th.pc) || th.pc == Unborn || th.pc == Exit)
      && th.i <= c.loops
      && (th.pc == Exit <==> th.i == c.loops)
    else if c.Consumer(t) then
      && (InLoop(th.pc) || th.pc == Unborn || th.pc == Exit)
      && (th.pc == Exit ==> th.tmp == END_OF_STREAM)
      && (th.tmp == END_OF_STREAM ==> th.pc == Signal || th.pc == Unlock || th.pc == Exit)
    else
      && th.pc != Unborn
      && (InLoop(th.pc) ==> th.i < c.consumers)
      && (th.pc == JoinProducers ==> th.i <= c.producers)
      && (th.pc == JoinConsumers ==> th.i <= c.consumers)
      && (th.pc == Create ==> th.i <= c.Main())
  }

  ghost predicate Control(c: Config, threads: seq<Thread>, holder: Option<nat>)
  {
    && (forall t: nat | t < |threads| :: ThreadOk(c, t, threads[t]))
    && (forall t: nat | t < |threads| :: Critical(threads[t].pc) <==> holder == Some(t))
    && (holder.Some? ==> holder.value < |threads|)
  }

  /** The loop condition a thread saw before it acts still holds when it acts. */
  ghost predicate StillTrue(c: Config, threads: seq<Thread>, numFull: int)
  {
    forall t: nat | t < |threads| && threads[t].pc == Act :: Room(c.max, numFull, WaitsOn(c, t)) > 0
  }

  // ---- Phases of main: which threads are born, and which are known to have exited ----

  ghost predicate Phase(c: Config, threads: seq<Thread>, counts: seq<int>)
    requires |threads| == c.Main() + 1 && |counts| == c.consumers
  {
    var m := threads[c.Main()];
    && (forall t: nat | t < c.Main() :: threads[t].pc == Unborn ==> m.pc == Create && m.i <= t)
    && (m.pc == Create ==> forall t: nat | m.i <= t < c.Main() :: threads[t].pc == Unborn)
    && (forall t: nat | t < c.Main() && Joined(c, m, t) ::
          threads[t].pc == Exit && (c.Consumer(t) ==> counts[t - c.producers] == threads[t].i - 1))
  }

  /** Has `main` already joined thread `t`? */
  predicate Joined(c: Config, m: Thread, t: nat)
  {
    if m.pc == Create then false
    else if m.pc == JoinProducers then t < m.i
    else if m.pc == JoinConsumers then t < c.producers + m.i
    else if m.pc == Exit then t < c.Main()
    else t < c.producers
  }

  // ---- The logs and the ring ----

  ghost predicate Stored(s: State)
  {
    && |s.fillers| == |s.filled|
    && |s.takers| == |s.taken|
    && |s.taken| <= |s.filled|
    && s.taken == s.filled[..|s.taken|]
    && Holds(s.ring, s.filled[|s.taken|..])
  }

  // ---- Wakeups ----

  /** Will thread `t` act on, or hand on, a chance to act for the waiters of `v`? */
  function Hope(c: Config, v: Cond): (nat, Thread) -> int
  {
    (t: nat, th: Thread) =>
      if WaitsOn(c, t) == v then (if th.pc == Woken || th.pc == Test || th.pc == Act then 1 else 0)
      else (if th.pc == Signal then 1 else 0)
  }

  /** While anyone sleeps on `v`, there are at most as many chances to act as hopeful threads. */
  ghost predicate NoLostWakeup(c: Config, v: Cond, threads: seq<Thread>, numFull: int)
  {
    forall t: nat | t < |threads| && threads[t].pc == Asleep && WaitsOn(c, t) == v ::
      Room(c.max, numFull, v) <= Total(Hope(c, v), threads)
  }

  ghost predicate Wakeups(c: Config, threads: seq<Thread>, numFull: int)
  {
    NoLostWakeup(c, FillCond, threads, numFull) && NoLostWakeup(c, EmptyCond, threads, numFull)
  }

  lemma OneChange(c: Config, v: Cond, threads: seq<Thread>, t: nat, th: Thread)
    requires t < |threads|
    ensures Total(Hope(c, v), threads[t := th]) ==
      Total(Hope(c, v), threads) - Hope(c, v)(t, threads[t]) + Hope(c, v)(t, th)
  {
    TotalUpdate(Hope(c, v), threads, t, th);
  }

  ghost predicate Order(c: Config, s: State)
  {
    && c.Accepted()
    && Sized(c, s)
    && !s.failed
    && Control(c, s.threads, s.holder)
    && Phase(c, s.threads, s.counts)
  }

  ghost predicate Base(c: Config, s: State)
  {
    && Order(c, s)
    && Stored(s)
    && StillTrue(c, s.threads, s.ring.numFull)
    && Wakeups(c, s.threads, s.ring.numFull)
  }

  lemma ControlUpdate(c: Config, threads: seq<Thread>, holder: Option<nat>, t: nat, th: Thread, holder': Option<nat>)
    requires Control(c, threads, holder) && t < |threads| && ThreadOk(c, t, th)
    requires Critical(th.pc) <==> holder' == Some(t)
    requires holder' == holder || (holder == None && holder' == Some(t)) || (holder == Some(t) && holder' == None)
    ensures Control(c, threads[t := th], holder')
  {
  }

  /** A thread that is in its loop and does not leave the phase it is in keeps the phases. */
  lemma PhaseUpdate(c: Config, threads: seq<Thread>, counts: seq<int>, t: nat, th: Thread)
    requires |threads| == c.Main() + 1 && |counts| == c.consumers && t < |threads|
    requires Phase(c, threads, counts) && InLoop(threads[t].pc)
    requires t < c.Main() ==> InLoop(th.pc) || th.pc == Exit
    requires t == c.Main() ==> InLoop(th.pc) || th == Thread(JoinConsumers, 0, th.tmp)
    ensures Phase(c, threads[t := th], counts)
  {
  }

  /** One thread of the loop moves on, taking, keeping or releasing the mutex. */
  lemma LoopUpdate(c: Config, s: State, t: nat, th: Thread, holder: Option<nat>)
    requires Order(c, s) && t < |s.threads| && InLoop(s.threads[t].pc) && ThreadOk(c, t, th)
    requires Critical(th.pc) <==> holder == Some(t)
    requires holder == s.holder || (s.holder == None && holder == Some(t)) || (s.holder == Some(t) && holder == None)
    requires t < c.Main() ==> InLoop(th.pc) || th.pc == Exit
    requires t == c.Main() ==> InLoop(th.pc) || th == Thread(JoinConsumers, 0, th.tmp)
    ensures Control(c, s.threads[t := th], holder) && Phase(c, s.threads[t := th], s.counts)
  {
    ControlUpdate(c, s.threads, s.holder, t, th, holder);
    PhaseUpdate(c, s.threads, s.counts, t, th);
  }

  lemma BornPhase(c: Config, threads: seq<Thread>, counts: seq<int>, i: nat, born: Thread)
    requires |threads| == c.Main() + 1 && |counts| == c.consumers && Phase(c, threads, counts)
    requires i < c.Main() && threads[c.Main()].pc == Create && threads[c.Main()].i == i && born.pc == Lock
    ensures Phase(c, threads[i := born][c.Main() := threads[c.Main()].(i := i + 1)], counts)
  {
  }

  lemma CreateKept(c: Config, s: State, t: nat)
    requires Order(c, s) && CanStep(c, s, t) && s.threads[t].pc == Create
    ensures Order(c, MainStep(c, s, t))
  {
    var th := s.threads[t];
    assert ThreadOk(c, t, th);
    assert t == c.Main();
    if th.i < c.Main() {
      assert s.threads[th.i].pc == Unborn && ThreadOk(c, th.i, s.threads[th.i]);
      var born := s.threads[th.i].(pc := Lock);
      ControlUpdate(c, s.threads, s.holder, th.i, born, s.holder);
      ControlUpdate(c, s.threads[th.i := born], s.holder, t, th.(i := th.i + 1), s.holder);
      BornPhase(c, s.threads, s.counts, th.i, born);
    } else {
      ControlUpdate(c, s.threads, s.holder, t, th.(pc := JoinProducers, i := 0), s.holder);
    }
  }

  lemma JoinProducersKept(c: Config, s: State, t: nat)
    requires Order(c, s) && CanStep(c, s, t) && s.threads[t].pc == JoinProducers
    ensures Order(c, MainStep(c, s, t))
  {
    var th, th' := s.threads[t], MainStep(c, s, t).threads[t];
    assert ThreadOk(c, t, th);
    assert t == c.Main();
    ControlUpdate(c, s.threads, s.holder, t, th', s.holder);
    forall u: nat | u < c.Main() && Joined(c, th', u)
      ensures s.threads[u].pc == Exit && !c.Consumer(u)
    {
      assert u == th.i || Joined(c, th, u);
    }
  }

  lemma JoinConsumersKept(c: Config, s: State, t: nat)
    requires Order(c, s) && CanStep(c, s, t) && s.threads[t].pc == JoinConsumers
    ensures Order(c, MainStep(c, s, t))
  {
    var th, s' := s.threads[t], MainStep(c, s, t);
    assert ThreadOk(c, t, th);
    assert t == c.Main();
    ControlUpdate(c, s.threads, s.holder, t, s'.threads[t], s.holder);
    forall u: nat | u < c.Main() && Joined(c, s'.threads[t], u)
      ensures s.threads[u].pc == Exit && (c.Consumer(u) ==> s'.counts[u - c.producers] == s.threads[u].i - 1)
    {
      assert u == c.producers + th.i || Joined(c, th, u);
    }
  }

  lemma SignalKept(c: Config, s: State, t: nat, w: nat)
    requires Order(c, s) && CanStep(c, s, t) && s.threads[t].pc == Signal
    ensures Order(c, SignalStep(c, s, t, w))
  {
    var th := s.threads[t].(pc := Unlock);
    assert ThreadOk(c, t, s.threads[t]);
    LoopUpdate(c, s, t, th, s.holder);
    var s1 := Goto(s, t, th);
    if IsWaiter(c, s, Other(WaitsOn(c, t)), w) {
      assert ThreadOk(c, w, s1.threads[w]);
      LoopUpdate(c, s1, w, s1.threads[w].(pc := Woken), s.holder);
    }
  }

  lemma SpuriousKept(c: Config, s: State, t: nat)
    requires Order(c, s) && t < |s.threads| && s.threads[t].pc == Asleep
    ensures Order(c, Goto(s, t, s.threads[t].(pc := Woken)))
  {
    assert ThreadOk(c, t, s.threads[t]);
    LoopUpdate(c, s, t, s.threads[t].(pc := Woken), s.holder);
  }

  lemma ActKept(c: Config, s: State, t: nat)
    requires Order(c, s) && CanStep(c, s, t) && s.threads[t].pc == Act
    ensures var s' := ActStep(c, s, t); Control(c, s'.threads, s'.holder) && Phase(c, s'.threads, s'.counts)
  {
    assert ThreadOk(c, t, s.threads[t]);
    var s' := ActStep(c, s, t);
    if !s'.failed {
      LoopUpdate(c, s, t, s'.threads[t], s.holder);
    }
  }

  lemma LockTestUnlockKept(c: Config, s: State, t: nat, w: nat)
    requires Order(c, s) && CanStep(c, s, t)
    requires s.threads[t].pc == Lock || s.threads[t].pc == Woken || s.threads[t].pc == Test || s.threads[t].pc == Unlock
    ensures Order(c, Step(c, s, t, w))
  {
    assert ThreadOk(c, t, s.threads[t]);
    var s' := Step(c, s, t, w);
    LoopUpdate(c, s, t, s'.threads[t], s'.holder);
  }

  lemma ItemNotEmpty(c: Config, t: nat, k: nat)
    ensures Item(c, t, k) != EMPTY && (t < c.producers ==> Item(c, t, k) >= 0)
  {
    if t < c.producers {
      assert t * c.loops >= 0;
    }
  }

  // ---- Every move keeps the whole invariant ----

  /** A step that leaves the ring alone and does not lower its thread's hope, except by falling
      asleep when there is no chance to act. */
  lemma WakeupsKept(c: Config, threads: seq<Thread>, numFull: int, t: nat, th: Thread)
    requires Wakeups(c, threads, numFull) && t < |threads|
    requires threads[t].pc != Signal && th.pc != Signal
    requires th.pc == Asleep ==> Room(c.max, numFull, WaitsOn(c, t)) == 0
    requires th.pc != Asleep ==> Hope(c, WaitsOn(c, t))(t, threads[t]) <= Hope(c, WaitsOn(c, t))(t, th)
    ensures Wakeups(c, threads[t := th], numFull)
  {
    var v := WaitsOn(c, t);
    OneChange(c, v, threads, t, th);
    OneChange(c, Other(v), threads, t, th);
    HopeNonNegative(c, v, threads[t := th]);
  }

  lemma HopeNonNegative(c: Config, v: Cond, threads: seq<Thread>)
    ensures Total(Hope(c, v), threads) >= 0
  {
  }

  /** Acting uses up one chance of its own kind, together with the hope that meant it,
      and makes one of the other kind, together with the hope that its signal will announce it. */
  lemma ActWakeups(c: Config, s: State, t: nat, th: Thread, numFull: int)
    requires Base(c, s) && t < |s.threads| && s.threads[t].pc == Act && th.pc == Signal
    requires Room(c.max, numFull, WaitsOn(c, t)) == Room(c.max, s.ring.numFull, WaitsOn(c, t)) - 1
    ensures Wakeups(c, s.threads[t := th], numFull)
  {
    var v := WaitsOn(c, t);
    OneChange(c, v, s.threads, t, th);
    OneChange(c, Other(v), s.threads, t, th);
  }

  /** A signal turns its own hope into that of the thread it wakes. */
  lemma {:induction false} SignalWakeups(c: Config, s: State, t: nat, w: nat)
    requires Base(c, s) && CanStep(c, s, t) && s.threads[t].pc == Signal && LegalWake(c, s, t, w)
    ensures Wakeups(c, SignalStep(c, s, t, w).threads, s.ring.numFull)
  {
    SignalWakeupsOn(c, s, t, w, FillCond);
    SignalWakeupsOn(c, s, t, w, EmptyCond);
  }

  lemma SignalWakeupsOn(c: Config, s: State, t: nat, w: nat, u: Cond)
    requires |s.threads| == c.Main() + 1 && NoLostWakeup(c, u, s.threads, s.ring.numFull)
    requires t < |s.threads| && s.threads[t].pc == Signal && LegalWake(c, s, t, w)
    ensures NoLostWakeup(c, u, SignalStep(c, s, t, w).threads, s.ring.numFull)
  {
    var v := Other(WaitsOn(c, t));
    if IsWaiter(c, s, v, w) {
      WakeOne(c, s.threads, s.ring.numFull, t, w, u);
    } else {
      forall x: nat | x < |s.threads| && s.threads[x].pc == Asleep
        ensures WaitsOn(c, x) != v
      {
        assert !IsWaiter(c, s, v, x);
      }
      OneChange(c, u, s.threads, t, s.threads[t].(pc := Unlock));
    }
  }

  lemma WakeOne(c: Config, threads: seq<Thread>, numFull: int, t: nat, w: nat, u: Cond)
    requires NoLostWakeup(c, u, threads, numFull) && t < |threads| && w < |threads|
    requires threads[t].pc == Signal && threads[w].pc == Asleep && WaitsOn(c, w) == Other(WaitsOn(c, t))
    ensures NoLostWakeup(c, u, threads[t := threads[t].(pc := Unlock)][w := threads[w].(pc := Woken)], numFull)
  {
    var th := threads[t].(pc := Unlock);
    OneChange(c, u, threads, t, th);
    OneChange(c, u, threads[t := th], w, threads[w].(pc := Woken));
  }

  lemma GetStored(c: Config, s: State, t: nat)
    requires Sized(c, s) && Stored(s) && !s.failed && t < |s.threads| && c.Consumer(t) && s.ring.numFull > 0
    ensures var s' := ActStep(c, s, t);
      !s'.failed && Stored(s') && |s'.ring.buffer| == c.max && s'.ring.numFull == s.ring.numFull - 1
  {
    var held := s.filled[|s.taken|..];
    GetHolds(s.ring, held);
    var s' := ActStep(c, s, t);
    assert s'.filled[|s'.taken|..] == held[1..];
    assert s'.filled[..|s'.taken|] == s.filled[..|s.taken|] + [held[0]];
  }

  lemma FillStored(c: Config, s: State, t: nat)
    requires Sized(c, s) && Stored(s) && !s.failed && t < |s.threads| && !c.Consumer(t) && s.ring.numFull < c.max
    ensures var s' := ActStep(c, s, t);
      !s'.failed && Stored(s') && |s'.ring.buffer| == c.max && s'.ring.numFull == s.ring.numFull + 1
  {
    var held, value := s.filled[|s.taken|..], Item(c, t, s.threads[t].i);
    ItemNotEmpty(c, t, s.threads[t].i);
    FillHolds(s.ring, held, value);
    var s' := ActStep(c, s, t);
    assert s'.filled[|s'.taken|..] == held + [value];
    assert s'.filled[..|s'.taken|] == s.filled[..|s.taken|];
  }

  lemma ActStored(c: Config, s: State, t: nat)
    requires Base(c, s) && CanStep(c, s, t) && s.threads[t].pc == Act
    ensures var s' := ActStep(c, s, t);
      && !s'.failed && Stored(s') && |s'.ring.buffer| == c.max
      && Room(c.max, s'.ring.numFull, WaitsOn(c, t)) == Room(c.max, s.ring.numFull, WaitsOn(c, t)) - 1
  {
    assert Room(c.max, s.ring.numFull, WaitsOn(c, t)) > 0;
    if c.Consumer(t) { GetStored(c, s, t); } else { FillStored(c, s, t); }
  }

  lemma ActBaseKept(c: Config, s: State, t: nat)
    requires Base(c, s) && CanStep(c, s, t) && s.threads[t].pc == Act
    ensures Base(c, ActStep(c, s, t))
  {
    var s' := ActStep(c, s, t);
    ActKept(c, s, t);
    ActStored(c, s, t);
    ActWakeups(c, s, t, s'.threads[t], s'.ring.numFull);
    assert s'.threads == s.threads[t := s'.threads[t]];
    assert Critical(s.threads[t].pc);
  }

  lemma LockTestUnlockBaseKept(c: Config, s: State, t: nat, w: nat)
    requires Base(c, s) && CanStep(c, s, t)
    requires s.threads[t].pc == Lock || s.threads[t].pc == Woken || s.threads[t].pc == Test || s.threads[t].pc == Unlock
    ensures Base(c, Step(c, s, t, w))
  {
    var s' := Step(c, s, t, w);
    LockTestUnlockKept(c, s, t, w);
    WakeupsKept(c, s.threads, s.ring.numFull, t, s'.threads[t]);
  }

  lemma CreateWakeups(c: Config, s: State, t: nat)
    requires Sized(c, s) && Wakeups(c, s.threads, s.ring.numFull) && StillTrue(c, s.threads, s.ring.numFull)
    requires CanStep(c, s, t) && s.threads[t].pc == Create && t == c.Main()
    requires s.threads[t].i < c.Main() ==> s.threads[s.threads[t].i].pc == Unborn
    ensures var s' := MainStep(c, s, t);
      Wakeups(c, s'.threads, s.ring.numFull) && StillTrue(c, s'.threads, s.ring.numFull)
  {
    var th := s.threads[t];
    if th.i < c.Main() {
      var born := s.threads[th.i].(pc := Lock);
      WakeupsKept(c, s.threads, s.ring.numFull, th.i, born);
      WakeupsKept(c, s.threads[th.i := born], s.ring.numFull, t, th.(i := th.i + 1));
    } else {
      WakeupsKept(c, s.threads, s.ring.numFull, t, MainStep(c, s, t).threads[t]);
    }
  }

  lemma JoinWakeups(c: Config, s: State, t: nat)
    requires Sized(c, s) && Wakeups(c, s.threads, s.ring.numFull) && StillTrue(c, s.threads, s.ring.numFull)
    requires CanStep(c, s, t) && t == c.Main() && (s.threads[t].pc == JoinProducers || s.threads[t].pc == JoinConsumers)
    ensures var s' := MainStep(c, s, t);
      && Wakeups(c, s'.threads, s.ring.numFull) && StillTrue(c, s'.threads, s.ring.numFull)
      && s'.ring == s.ring && s'.filled == s.filled && s'.fillers == s.fillers
      && s'.taken == s.taken && s'.takers == s.takers
  {
    WakeupsKept(c, s.threads, s.ring.numFull, t, MainStep(c, s, t).threads[t]);
  }

  lemma CreateBaseKept(c: Config, s: State, t: nat)
    requires Base(c, s) && CanStep(c, s, t) && s.threads[t].pc == Create
    ensures Base(c, MainStep(c, s, t))
  {
    CreateKept(c, s, t);
    assert ThreadOk(c, t, s.threads[t]);
    CreateWakeups(c, s, t);
  }

  lemma JoinBaseKept(c: Config, s: State, t: nat)
    requires Base(c, s) && CanStep(c, s, t) && (s.threads[t].pc == JoinProducers || s.threads[t].pc == JoinConsumers)
    ensures Base(c, MainStep(c, s, t))
  {
    var th := s.threads[t];
    if th.pc == JoinProducers { JoinProducersKept(c, s, t); } else { JoinConsumersKept(c, s, t); }
    assert ThreadOk(c, t, th);
    JoinWakeups(c, s, t);
  }

  lemma SpuriousBaseKept(c: Config, s: State, t: nat)
    requires Base(c, s) && t < |s.threads| && s.threads[t].pc == Asleep
    ensures Base(c, Goto(s, t, s.threads[t].(pc := Woken)))
  {
    SpuriousKept(c, s, t);
    WakeupsKept(c, s.threads, s.ring.numFull, t, s.threads[t].(pc := Woken));
  }

  lemma SignalBaseKept(c: Config, s: State, t: nat, w: nat)
    requires Base(c, s) && CanStep(c, s, t) && s.threads[t].pc == Signal && LegalWake(c, s, t, w)
    ensures Base(c, SignalStep(c, s, t, w))
  {
    SignalKept(c, s, t, w);
    SignalWakeups(c, s, t, w);
  }

  /** The invariant is inductive, spurious wakeups and barging included. */
  lemma {:induction false} BaseKept(c: Config, s: State, m: Move)
    requires Base(c, s) && Legal(c, s, m)
    ensures Base(c, Apply(c, s, m))
  {
    var t := m.t;
    var pc := s.threads[t].pc;
    if m.Spurious? {
      SpuriousBaseKept(c, s, t);
    } else if pc == Act {
      ActBaseKept(c, s, t);
    } else if pc == Signal {
      SignalBaseKept(c, s, t, m.w);
    } else if pc == Create {
      CreateBaseKept(c, s, t);
    } else if pc == JoinProducers || pc == JoinConsumers {
      JoinBaseKept(c, s, t);
    } else {
      LockTestUnlockBaseKept(c, s, t, m.w);
    }
  }

  lemma InitBase(c: Config)
    requires c.Accepted()
    ensures Base(c, Init(c))
  {
    EmptyRingHolds(c.max);
    assert Init(c).filled[0..] == [];
  }
}
