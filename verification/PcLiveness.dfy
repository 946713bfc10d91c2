/** Whole runs of the producer/consumer program: they are safe, they are short, and exactly
    when they cannot stall; what a completed run has produced and consumed. */
module PcLiveness {
  import opened Basics
  import opened PcBuffer
  import opened ProducerConsumer
  import opened PcInvariant
  import opened PcAccounts

  // ---- Runs ----

  /** The state after the scheduler made the moves `ms`, oldest first; illegal moves do nothing. */
  ghost function After(c: Config, ms: seq<Move>): State
  {
    if ms == [] then Init(c)
    else
      var s := After(c, ms[..|ms| - 1]);
      if Sized(c, s) && Legal(c, s, ms[|ms| - 1]) then Apply(c, s, ms[|ms| - 1]) else s
  }

  ghost predicate IsRun(c: Config, ms: seq<Move>)
  {
    ms == [] ||
    var s := After(c, ms[..|ms| - 1]);
    IsRun(c, ms[..|ms| - 1]) && Sized(c, s) && Legal(c, s, ms[|ms| - 1])
  }

  lemma {:induction false} RunAccounts(c: Config, ms: seq<Move>)
    requires c.Accepted() && IsRun(c, ms)
    ensures Accounts(c, After(c, ms))
  {
    if ms == [] {
      InitAccounts(c);
    } else {
      RunAccounts(c, ms[..|ms| - 1]);
      AccountsKept(c, After(c, ms[..|ms| - 1]), ms[|ms| - 1]);
    }
  }

  lemma MoreRun(c: Config, ms: seq<Move>, m: Move)
    requires IsRun(c, ms) && Sized(c, After(c, ms)) && Legal(c, After(c, ms), m)
    ensures IsRun(c, ms + [m]) && After(c, ms + [m]) == Apply(c, After(c, ms), m)
  {
    assert (ms + [m])[..|ms|] == ms;
  }

  // ---- Safety ----

  /** The items in the ring, oldest first, read off the buffer by walking from `use_ptr`. */
  ghost function Window(r: Ring): seq<int>
    requires forall k: nat | k < r.numFull :: Slot(r, k) < |r.buffer|
  {
    seq(if r.numFull < 0 then 0 else r.numFull, k requires 0 <= k < r.numFull => r.buffer[Slot(r, k)])
  }

  /** `num_full`, the two pointers, the buffer and the logs fit together. */
  ghost predicate RingSafe(s: State, max: nat)
  {
    var r := s.ring;
    && 0 <= r.numFull <= |r.buffer| == max
    && r.usePtr < max && r.fillPtr == (r.usePtr + r.numFull) % max
    && (forall k: nat | k < max :: Slot(r, k) < max && (r.buffer[Slot(r, k)] != EMPTY <==> k < r.numFull))
    && s.taken + Window(r) == s.filled
  }

  lemma StoredSafe(s: State, max: nat)
    requires Stored(s) && |s.ring.buffer| == max
    ensures RingSafe(s, max)
  {
    var w := s.filled[|s.taken|..];
    assert s.filled == s.taken + w;
    assert w == Window(s.ring);
  }

  /** In every reachable state neither `ensure` has failed, at most one thread is between lock
      and unlock, the ring is the cyclic window from `use_ptr`, and the takes so far followed
      by the window are the fills so far. */
  lemma AlwaysSafe(c: Config, ms: seq<Move>)
    requires c.Accepted() && IsRun(c, ms)
    ensures var s := After(c, ms);
      && !s.failed
      && RingSafe(s, c.max)
      && forall t: nat, u: nat |
           t < |s.threads| && u < |s.threads| && Critical(s.threads[t].pc) && Critical(s.threads[u].pc) :: t == u
  {
    RunAccounts(c, ms);
    StoredSafe(After(c, ms), c.max);
  }

  // ---- Counting ----

  function Quota(c: Config): (nat, Thread) -> int
  {
    (t: nat, th: Thread) => if t < c.producers then c.loops else if c.Consumer(t) then 0 else c.consumers
  }

  function One(c: Config): (nat, Thread) -> int
  {
    (t: nat, th: Thread) => if c.Consumer(t) then 1 else 0
  }

  lemma {:induction false} QuotaTotal(c: Config, threads: seq<Thread>)
    requires |threads| <= c.Main() + 1
    ensures Total(One(c), threads) ==
      if |threads| <= c.producers then 0
      else if |threads| <= c.Main() then |threads| - c.producers else c.consumers
    ensures Total(Quota(c), threads) ==
      (if |threads| <= c.producers then |threads| * c.loops else c.producers * c.loops)
      + (if |threads| <= c.Main() then 0 else c.consumers)
  {
    if threads != [] {
      QuotaTotal(c, threads[..|threads| - 1]);
      if |threads| <= c.producers {
        assert |threads| * c.loops == (|threads| - 1) * c.loops + c.loops;
      }
    }
  }

  lemma WithinQuota(c: Config, t: nat, th: Thread)
    requires t <= c.Main() && ThreadOk(c, t, th)
    ensures FilledBy(c)(t, th) <= Quota(c)(t, th)
    ensures th.pc == Exit ==> FilledBy(c)(t, th) == Quota(c)(t, th)
  {
  }

  /** No thread fills more than its share; if producer `p` has not exited, the fills fall short. */
  lemma FillsBounded(c: Config, s: State)
    requires Accounts(c, s)
    ensures |s.taken| <= |s.filled| <= c.producers * c.loops + c.consumers
    ensures (exists p: nat :: p < c.producers && s.threads[p].pc != Exit && Done(c, p, s.threads[p]) < c.loops)
      ==> |s.filled| < c.producers * c.loops + c.consumers
  {
    forall t: nat | t < |s.threads|
      ensures FilledBy(c)(t, s.threads[t]) <= Quota(c)(t, s.threads[t])
    {
      WithinQuota(c, t, s.threads[t]);
    }
    QuotaTotal(c, s.threads);
    TotalBelow(FilledBy(c), Quota(c), s.threads);
    if p: nat :| p < c.producers && s.threads[p].pc != Exit && Done(c, p, s.threads[p]) < c.loops {
      assert FilledBy(c)(p, s.threads[p]) < Quota(c)(p, s.threads[p]);
    }
  }

  lemma {:induction false} TotalAtLeast<T>(w: (nat, T) -> int, xs: seq<T>, k: nat)
    requires k < |xs| && forall j: nat | j < |xs| :: w(j, xs[j]) >= 0
    ensures Total(w, xs) >= w(k, xs[k]) >= 0
  {
    var n := |xs| - 1;
    if k < n {
      TotalAtLeast(w, xs[..n], k);
    } else if n > 0 {
      TotalAtLeast(w, xs[..n], 0);
    }
  }

  /** Copies of `v` among the first `n` elements, when `v` stands exactly from position `m` on. */
  lemma {:induction false} TailCount(xs: seq<int>, v: int, m: int, n: nat)
    requires 0 <= m <= |xs| && n <= |xs|
    requires forall k | 0 <= k < |xs| :: xs[k] == v <==> m <= k
    ensures multiset(xs[..n])[v] == if n <= m then 0 else n - m
  {
    if n > 0 {
      TailCount(xs, v, m, n - 1);
      assert xs[..n] == xs[..n - 1] + [xs[n - 1]];
    }
  }

  lemma MarkersLast(c: Config, threads: seq<Thread>, filled: seq<int>, fillers: seq<nat>)
    requires |threads| == c.Main() + 1 && |filled| == |fillers| && FillAccount(c, threads, filled, fillers)
    ensures var d := Done(c, c.Main(), threads[c.Main()]);
      d <= |filled| && forall k: nat | k < |filled| :: filled[k] == END_OF_STREAM <==> |filled| - d <= k
  {
    var d := Done(c, c.Main(), threads[c.Main()]);
    TotalAtLeast(FilledBy(c), threads, c.Main());
    forall k: nat | k < |filled|
      ensures filled[k] == END_OF_STREAM <==> |filled| - d <= k
    {
      assert EntryOk(c, fillers[k], filled[k], |filled| - d <= k);
      NotNegative(fillers[k], c.loops);
    }
  }

  lemma NotNegative(a: nat, b: nat)
    ensures a * b >= 0
  {
  }

  /** The END_OF_STREAM markers are the last items filled, as many as `main` has filled. */
  lemma Markers(c: Config, s: State)
    requires Accounts(c, s)
    ensures var d := Done(c, c.Main(), s.threads[c.Main()]);
      && d <= c.consumers && d <= |s.filled|
      && (forall k: nat | k < |s.filled| :: s.filled[k] == END_OF_STREAM <==> |s.filled| - d <= k)
      && Total(Ended(c), s.threads) == if |s.taken| <= |s.filled| - d then 0 else |s.taken| - (|s.filled| - d)
  {
    var d := Done(c, c.Main(), s.threads[c.Main()]);
    assert ThreadOk(c, c.Main(), s.threads[c.Main()]);
    MarkersLast(c, s.threads, s.filled, s.fillers);
    TailCount(s.filled, END_OF_STREAM, |s.filled| - d, |s.taken|);
  }

  /** Every consumer has its marker exactly when as many markers are taken as there are consumers. */
  lemma EndedCount(c: Config, s: State)
    requires Accounts(c, s)
    ensures Total(Ended(c), s.threads) <= c.consumers
    ensures (forall t: nat | t < |s.threads| && c.Consumer(t) :: s.threads[t].tmp == END_OF_STREAM)
      <==> Total(Ended(c), s.threads) == c.consumers
  {
    QuotaTotal(c, s.threads);
    TotalBelow(Ended(c), One(c), s.threads);
    if t: nat :| t < |s.threads| && c.Consumer(t) && s.threads[t].tmp != END_OF_STREAM {
      assert Ended(c)(t, s.threads[t]) < One(c)(t, s.threads[t]);
    } else {
      TotalBelow(One(c), Ended(c), s.threads);
    }
  }

  // ---- Nobody is left asleep ----

  ghost predicate Finished(s: State)
  {
    forall t: nat | t < |s.threads| :: s.threads[t].pc == Exit
  }

  /** Not finished, and nobody can move unless a sleeper is woken spuriously. */
  ghost predicate Stalled(c: Config, s: State)
  {
    && Sized(c, s)
    && !Finished(s)
    && forall t: nat | t < |s.threads| :: !CanStep(c, s, t)
  }

  lemma HolderSteps(c: Config, s: State, t: nat)
    requires Order(c, s) && s.holder == Some(t)
    ensures CanStep(c, s, t)
  {
    assert Critical(s.threads[t].pc);
  }

  predicate Idle(c: Config, t: nat, pc: Point)
  {
    pc == Asleep || pc == Exit || (t == c.Main() && (pc == JoinProducers || pc == JoinConsumers))
  }

  /** In a stalled state the mutex is free, threads sleep or have exited, `main` may also be
      blocked in a join, and a sleeper means its condition has no chance left. */
  lemma StalledShape(c: Config, s: State)
    requires Order(c, s) && Wakeups(c, s.threads, s.ring.numFull) && Stalled(c, s)
    ensures forall t: nat | t < |s.threads| :: Idle(c, t, s.threads[t].pc)
    ensures forall t: nat | t < |s.threads| && s.threads[t].pc == Asleep ::
      Room(c.max, s.ring.numFull, WaitsOn(c, t)) <= 0
  {
    if s.holder.Some? {
      HolderSteps(c, s, s.holder.value);
    }
    forall t: nat | t < |s.threads|
      ensures Idle(c, t, s.threads[t].pc)
    {
      assert !CanStep(c, s, t);
      assert ThreadOk(c, t, s.threads[t]);
      assert !CanStep(c, s, c.Main());
    }
    TotalZero(Hope(c, FillCond), s.threads);
    TotalZero(Hope(c, EmptyCond), s.threads);
  }

  /** If no filler sleeps, a stalled `main` has pushed all its markers. */
  lemma MarkersPushed(c: Config, s: State)
    requires Order(c, s) && Stalled(c, s)
    requires forall t: nat | t < |s.threads| :: Idle(c, t, s.threads[t].pc)
    requires forall t: nat | t < |s.threads| && !c.Consumer(t) :: s.threads[t].pc != Asleep
    ensures Done(c, c.Main(), s.threads[c.Main()]) == c.consumers
  {
    var m := c.Main();
    assert ThreadOk(c, m, s.threads[m]);
    if s.threads[m].pc == JoinProducers {
      assert CanStep(c, s, m);
    }
  }

  lemma AllEnded(c: Config, s: State, t: nat)
    requires Accounts(c, s) && |s.taken| == |s.filled| && Done(c, c.Main(), s.threads[c.Main()]) == c.consumers
    requires t < |s.threads| && c.Consumer(t)
    ensures s.threads[t].tmp == END_OF_STREAM
  {
    Markers(c, s);
    EndedCount(c, s);
  }

  /** A sleeping consumer would mean that all fills are taken, all markers among them. */
  lemma NoConsumerAsleep(c: Config, s: State, t: nat)
    requires Accounts(c, s) && Stalled(c, s) && t < |s.threads| && c.Consumer(t)
    ensures s.threads[t].pc != Asleep
  {
    StalledShape(c, s);
    if s.threads[t].pc == Asleep {
      assert ThreadOk(c, t, s.threads[t]);
      assert s.ring.numFull <= 0;
      MarkersPushed(c, s);
      AllEnded(c, s, t);
    }
  }

  /** With all consumers gone, a sleeping filler can only be a producer nobody consumes for. */
  lemma NoFillerAsleep(c: Config, s: State, t: nat)
    requires Accounts(c, s) && Stalled(c, s) && t < |s.threads| && !c.Consumer(t) && s.threads[t].pc == Asleep
    ensures c.consumers == 0 && c.producers * c.loops > c.max
  {
    StalledShape(c, s);
    var m := c.Main();
    assert WaitsOn(c, t) == EmptyCond && ThreadOk(c, t, s.threads[t]) && ThreadOk(c, m, s.threads[m]);
    forall u: nat | u < |s.threads| && c.Consumer(u)
      ensures s.threads[u].tmp == END_OF_STREAM
    {
      NoConsumerAsleep(c, s, u);
      assert ThreadOk(c, u, s.threads[u]);
    }
    EndedCount(c, s);
    Markers(c, s);
    FillsBounded(c, s);
    if t < c.producers {
      assert !Joined(c, s.threads[m], t);
      assert Done(c, t, s.threads[t]) < c.loops;
    }
    if c.consumers == 0 {
      TotalZero(TakenBy(c), s.threads);
    }
  }

  lemma SomeoneAsleep(c: Config, s: State)
    requires Order(c, s) && Stalled(c, s)
    requires forall t: nat | t < |s.threads| :: Idle(c, t, s.threads[t].pc)
    ensures exists t: nat :: t < |s.threads| && s.threads[t].pc == Asleep
  {
    var main := s.threads[c.Main()];
    assert !CanStep(c, s, c.Main());
  }

  /** No reachable state is stalled, unless there is no consumer and the producers alone
      make more items than the buffer holds. */
  lemma NeverStalls(c: Config, ms: seq<Move>)
    requires c.Accepted() && IsRun(c, ms)
    requires c.consumers > 0 || c.producers * c.loops <= c.max
    ensures !Stalled(c, After(c, ms))
  {
    RunAccounts(c, ms);
    var s := After(c, ms);
    if Stalled(c, s) {
      StalledShape(c, s);
      SomeoneAsleep(c, s);
      var t: nat :| t < |s.threads| && s.threads[t].pc == Asleep;
      if c.Consumer(t) { NoConsumerAsleep(c, s, t); } else { NoFillerAsleep(c, s, t); }
    }
  }

  // ---- Runs are short ----

  /** What the current round of a loop may still cost. */
  function Cost(pc: Point): int
  {
    if pc == Unborn || pc == Lock || pc == Woken then 8
    else if pc == Test then 7
    else if pc == Asleep then 6
    else if pc == Act then 5
    else if pc == Signal then 4
    else if pc == Unlock then 1
    else 0
  }

  /** What thread `t` may still cost; a consumer's further rounds are paid for by the items left. */
  function WeightOf(c: Config, t: nat, th: Thread): int
  {
    if t < c.producers then
      if th.pc == Exit then 0 else Cost(th.pc) + 8 * (c.loops - 1 - th.i)
    else if t < c.Main() then
      if th.pc == Signal || th.pc == Unlock then Cost(th.pc) + 8 else Cost(th.pc)
    else if InLoop(th.pc) then Cost(th.pc) + 8 * (c.consumers - 1 - th.i) + c.consumers + 1
    else if th.pc == Create then 2 * c.producers + 10 * c.consumers + 3 - th.i
    else if th.pc == JoinProducers then c.producers + 9 * c.consumers + 2 - th.i
    else if th.pc == JoinConsumers then c.consumers + 1 - th.i
    else 0
  }

  function Weight(c: Config): (nat, Thread) -> int
  {
    (t: nat, th: Thread) => WeightOf(c, t, th)
  }

  lemma WeightChange(c: Config, threads: seq<Thread>, t: nat, th: Thread)
    requires t < |threads|
    ensures Total(Weight(c), threads[t := th]) ==
      Total(Weight(c), threads) - WeightOf(c, t, threads[t]) + WeightOf(c, t, th)
  {
    TotalUpdate(Weight(c), threads, t, th);
  }

  /** A number that bounds the moves still possible without spurious wakeups. */
  function Left(c: Config, threads: seq<Thread>, taken: nat): int
  {
    Total(Weight(c), threads) + 8 * (c.producers * c.loops + c.consumers - taken)
  }

  function SpuriousIn(ms: seq<Move>): nat
  {
    if ms == [] then 0 else SpuriousIn(ms[..|ms| - 1]) + if ms[|ms| - 1].Spurious? then 1 else 0
  }

  lemma MainCheaper(c: Config, s: State, t: nat)
    requires Sized(c, s) && CanStep(c, s, t) && t == c.Main() && ThreadOk(c, t, s.threads[t])
    requires var th := s.threads[t];
      th.pc == JoinProducers || th.pc == JoinConsumers || (th.pc == Create && th.i == t)
    ensures var s' := MainStep(c, s, t);
      s'.threads == s.threads[t := s'.threads[t]] && WeightOf(c, t, s'.threads[t]) < WeightOf(c, t, s.threads[t])
  {
  }

  lemma LeftMain(c: Config, s: State, t: nat)
    requires Sized(c, s) && CanStep(c, s, t) && t == c.Main() && ThreadOk(c, t, s.threads[t])
    requires var th := s.threads[t];
      th.pc == JoinProducers || th.pc == JoinConsumers || (th.pc == Create && th.i == t)
    ensures Total(Weight(c), MainStep(c, s, t).threads) < Total(Weight(c), s.threads)
  {
    MainCheaper(c, s, t);
    WeightChange(c, s.threads, t, MainStep(c, s, t).threads[t]);
  }

  /** Creating a thread: `main` has one less to create, and the thread's own rounds are paid for. */
  lemma CreateCheaper(c: Config, s: State, t: nat)
    requires Sized(c, s) && CanStep(c, s, t) && t == c.Main()
    requires s.threads[t].pc == Create && s.threads[t].i < t && s.threads[s.threads[t].i].pc == Unborn
    ensures var th := s.threads[t];
      var born := s.threads[th.i].(pc := Lock);
      && MainStep(c, s, t).threads == s.threads[th.i := born][t := th.(i := th.i + 1)]
      && WeightOf(c, th.i, born) == WeightOf(c, th.i, s.threads[th.i])
      && WeightOf(c, t, th.(i := th.i + 1)) < WeightOf(c, t, th)
  {
  }

  lemma LeftCreate(c: Config, s: State, t: nat)
    requires Sized(c, s) && CanStep(c, s, t) && t == c.Main()
    requires s.threads[t].pc == Create && s.threads[t].i < t && s.threads[s.threads[t].i].pc == Unborn
    ensures Total(Weight(c), MainStep(c, s, t).threads) < Total(Weight(c), s.threads)
  {
    var th := s.threads[t];
    var born := s.threads[th.i].(pc := Lock);
    CreateCheaper(c, s, t);
    WeightChange(c, s.threads, th.i, born);
    WeightChange(c, s.threads[th.i := born], t, th.(i := th.i + 1));
  }

  /** Waking a thread costs two, and signalling pays three. */
  lemma SignalCheaper(c: Config, t: nat, th: Thread)
    requires t <= c.Main() && ThreadOk(c, t, th)
    ensures th.pc == Signal ==> WeightOf(c, t, th.(pc := Unlock)) == WeightOf(c, t, th) - 3
    ensures th.pc == Asleep ==> WeightOf(c, t, th.(pc := Woken)) == WeightOf(c, t, th) + 2
  {
  }

  lemma LeftSignal(c: Config, s: State, t: nat, w: nat)
    requires t < |s.threads| == c.Main() + 1 && s.threads[t].pc == Signal && ThreadOk(c, t, s.threads[t])
    requires IsWaiter(c, s, Other(WaitsOn(c, t)), w) ==> ThreadOk(c, w, s.threads[w])
    ensures Total(Weight(c), SignalStep(c, s, t, w).threads) < Total(Weight(c), s.threads)
  {
    var th := s.threads[t].(pc := Unlock);
    var ts := s.threads[t := th];
    SignalCheaper(c, t, s.threads[t]);
    WeightChange(c, s.threads, t, th);
    if IsWaiter(c, s, Other(WaitsOn(c, t)), w) {
      SignalCheaper(c, w, s.threads[w]);
      WeightChange(c, ts, w, ts[w].(pc := Woken));
    }
  }

  lemma LeftAct(c: Config, s: State, t: nat)
    requires Sized(c, s) && CanStep(c, s, t) && s.threads[t].pc == Act && ThreadOk(c, t, s.threads[t])
    requires !ActStep(c, s, t).failed
    ensures var s' := ActStep(c, s, t); Left(c, s'.threads, |s'.taken|) < Left(c, s.threads, |s.taken|)
  {
    WeightChange(c, s.threads, t, ActStep(c, s, t).threads[t]);
  }

  lemma LoopCheaper(c: Config, s: State, t: nat, w: nat)
    requires Sized(c, s) && CanStep(c, s, t) && InLoop(s.threads[t].pc) && ThreadOk(c, t, s.threads[t])
    requires s.threads[t].pc != Signal && s.threads[t].pc != Act
    ensures var s' := Step(c, s, t, w);
      s'.threads == s.threads[t := s'.threads[t]] && WeightOf(c, t, s'.threads[t]) < WeightOf(c, t, s.threads[t])
  {
  }

  lemma LeftLoop(c: Config, s: State, t: nat, w: nat)
    requires Sized(c, s) && CanStep(c, s, t) && InLoop(s.threads[t].pc) && ThreadOk(c, t, s.threads[t])
    requires s.threads[t].pc != Signal && s.threads[t].pc != Act
    ensures Total(Weight(c), Step(c, s, t, w).threads) < Total(Weight(c), s.threads)
  {
    LoopCheaper(c, s, t, w);
    WeightChange(c, s.threads, t, Step(c, s, t, w).threads[t]);
  }

  lemma LeftMainAny(c: Config, s: State, t: nat)
    requires Order(c, s) && CanStep(c, s, t)
    requires s.threads[t].pc == Create || s.threads[t].pc == JoinProducers || s.threads[t].pc == JoinConsumers
    ensures Total(Weight(c), MainStep(c, s, t).threads) < Total(Weight(c), s.threads)
  {
    var th := s.threads[t];
    assert ThreadOk(c, t, th);
    if th.pc == Create && th.i < t {
      assert s.threads[th.i].pc == Unborn;
      LeftCreate(c, s, t);
    } else {
      LeftMain(c, s, t);
    }
  }

  /** The steps of the loops: their effect on the threads and on what has been taken. */
  lemma LeftLoopAny(c: Config, s: State, t: nat, w: nat)
    requires Order(c, s) && CanStep(c, s, t) && InLoop(s.threads[t].pc) && !Step(c, s, t, w).failed
    ensures var s' := Step(c, s, t, w); Left(c, s'.threads, |s'.taken|) < Left(c, s.threads, |s.taken|)
  {
    var th := s.threads[t];
    assert ThreadOk(c, t, th);
    if th.pc == Signal {
      assert IsWaiter(c, s, Other(WaitsOn(c, t)), w) ==> ThreadOk(c, w, s.threads[w]);
      LeftSignal(c, s, t, w);
    } else if th.pc == Act {
      LeftAct(c, s, t);
    } else {
      LeftLoop(c, s, t, w);
    }
  }

  /** Every step uses something up; a spurious wakeup costs at most two steps. */
  lemma {:induction false} LeftFalls(c: Config, s: State, m: Move)
    requires Order(c, s) && Legal(c, s, m) && !Apply(c, s, m).failed
    ensures var s' := Apply(c, s, m);
      Left(c, s'.threads, |s'.taken|) < Left(c, s.threads, |s.taken|) + if m.Spurious? then 3 else 0
  {
    var t := m.t;
    var th := s.threads[t];
    assert ThreadOk(c, t, th);
    if m.Spurious? {
      SignalCheaper(c, t, th);
      WeightChange(c, s.threads, t, th.(pc := Woken));
    } else if InLoop(th.pc) {
      LeftLoopAny(c, s, t, m.w);
    } else {
      LeftMainAny(c, s, t);
    }
  }

  lemma LeftNonNegative(c: Config, s: State)
    requires Accounts(c, s)
    ensures Left(c, s.threads, |s.taken|) >= 0
  {
    forall t: nat | t < |s.threads|
      ensures Weight(c)(t, s.threads[t]) >= 0
    {
      WeightOfNonNegative(c, t, s.threads[t]);
    }
    TotalAtLeast(Weight(c), s.threads, 0);
    FillsBounded(c, s);
  }

  lemma WeightOfNonNegative(c: Config, t: nat, th: Thread)
    requires t <= c.Main() && ThreadOk(c, t, th)
    ensures WeightOf(c, t, th) >= 0
  {
  }

  lemma {:induction false} InitWeight(c: Config, threads: seq<Thread>)
    requires |threads| <= c.Main() && forall t: nat | t < |threads| :: threads[t] == Thread(Unborn, 0, 0)
    ensures Total(Weight(c), threads) ==
      8 * if |threads| <= c.producers then |threads| * c.loops else c.producers * c.loops + |threads| - c.producers
  {
    if threads != [] {
      InitWeight(c, threads[..|threads| - 1]);
      if |threads| <= c.producers {
        assert |threads| * c.loops == (|threads| - 1) * c.loops + c.loops;
      }
    }
  }

  /** Without spurious wakeups every run is finite, and its length is bounded by the workload;
      each spurious wakeup can lengthen it by at most three moves. */
  lemma {:induction false} RunsAreShort(c: Config, ms: seq<Move>)
    requires c.Accepted() && IsRun(c, ms)
    ensures |ms| <= 16 * (c.producers * c.loops) + 2 * c.producers + 26 * c.consumers + 3 + 3 * SpuriousIn(ms)
  {
    LeftAfter(c, ms);
    RunAccounts(c, ms);
    LeftNonNegative(c, After(c, ms));
  }

  lemma {:induction false} LeftAfter(c: Config, ms: seq<Move>)
    requires c.Accepted() && IsRun(c, ms)
    ensures Left(c, After(c, ms).threads, |After(c, ms).taken|) + |ms|
      <= 16 * (c.producers * c.loops) + 2 * c.producers + 26 * c.consumers + 3 + 3 * SpuriousIn(ms)
  {
    if ms == [] {
      var threads := Init(c).threads;
      InitWeight(c, threads[..c.Main()]);
      assert threads[..|threads| - 1] == threads[..c.Main()];
    } else {
      var ms' := ms[..|ms| - 1];
      LeftAfter(c, ms');
      RunAccounts(c, ms');
      RunAccounts(c, ms);
      LeftFalls(c, After(c, ms'), ms[|ms| - 1]);
    }
  }

  // ---- Every run can be driven to its end ----

  lemma AWake(c: Config, s: State, t: nat) returns (w: nat)
    ensures LegalWake(c, s, t, w)
  {
    w := 0;
    if u: nat :| IsWaiter(c, s, Other(WaitsOn(c, t)), u) {
      w := u;
    }
  }

  ghost predicate Over(c: Config, s: State)
  {
    Finished(s) || Stalled(c, s)
  }

  /** One more step of some thread, and its effect on what is left. */
  lemma OneMore(c: Config, ms: seq<Move>) returns (longer: seq<Move>)
    requires c.Accepted() && IsRun(c, ms) && !Over(c, After(c, ms))
    ensures IsRun(c, longer) && ms <= longer && SpuriousIn(longer) == SpuriousIn(ms)
    ensures 0 <= Left(c, After(c, longer).threads, |After(c, longer).taken|)
      < Left(c, After(c, ms).threads, |After(c, ms).taken|)
  {
    var s := After(c, ms);
    RunAccounts(c, ms);
    var t: nat :| t < |s.threads| && CanStep(c, s, t);
    var w := AWake(c, s, t);
    var m := Run(t, w);
    MoreRun(c, ms, m);
    longer := ms + [m];
    assert longer[..|ms|] == ms;
    RunAccounts(c, longer);
    LeftNonNegative(c, After(c, longer));
    LeftFalls(c, s, m);
  }

  /** Any run can be continued, without spurious wakeups, until it is finished or stalled. */
  lemma {:induction false} RunOn(c: Config, ms: seq<Move>) returns (full: seq<Move>)
    requires c.Accepted() && IsRun(c, ms)
    ensures IsRun(c, full) && ms <= full && SpuriousIn(full) == SpuriousIn(ms)
    ensures Over(c, After(c, full))
    decreases Left(c, After(c, ms).threads, |After(c, ms).taken|)
  {
    if Over(c, After(c, ms)) {
      full := ms;
    } else {
      var longer := OneMore(c, ms);
      full := RunOn(c, longer);
    }
  }

  lemma AllFilled(c: Config, s: State)
    requires Accounts(c, s) && Finished(s)
    ensures |s.filled| == c.producers * c.loops + c.consumers
  {
    forall t: nat | t < |s.threads|
      ensures FilledBy(c)(t, s.threads[t]) == Quota(c)(t, s.threads[t])
    {
      WithinQuota(c, t, s.threads[t]);
    }
    QuotaTotal(c, s.threads);
    TotalBelow(FilledBy(c), Quota(c), s.threads);
    TotalBelow(Quota(c), FilledBy(c), s.threads);
  }

  /** Without consumers nothing is taken, so all items would have to fit in the buffer. */
  lemma NotFinishedWithoutConsumers(c: Config, s: State)
    requires Accounts(c, s) && c.consumers == 0 && c.producers * c.loops > c.max
    ensures !Finished(s)
  {
    if Finished(s) {
      AllFilled(c, s);
      TotalZero(TakenBy(c), s.threads);
    }
  }

  lemma CanStall(c: Config) returns (ms: seq<Move>)
    requires c.Accepted() && c.consumers == 0 && c.producers * c.loops > c.max
    ensures IsRun(c, ms) && Stalled(c, After(c, ms))
  {
    ms := RunOn(c, []);
    RunAccounts(c, ms);
    NotFinishedWithoutConsumers(c, After(c, ms));
  }

  ghost predicate CanEndStalled(c: Config, ms: seq<Move>)
  {
    IsRun(c, ms) && Stalled(c, After(c, ms))
  }

  /** The program can stall exactly when it has no consumer and more items than buffer slots. */
  lemma StallsExactly(c: Config)
    requires c.Accepted()
    ensures (exists ms :: CanEndStalled(c, ms)) <==> (c.consumers == 0 && c.producers * c.loops > c.max)
  {
    if c.consumers > 0 || c.producers * c.loops <= c.max {
      forall ms | IsRun(c, ms)
        ensures !CanEndStalled(c, ms)
      {
        NeverStalls(c, ms);
      }
    } else {
      var ms := CanStall(c);
      assert CanEndStalled(c, ms);
    }
  }

  /** Otherwise every run, whatever happened in it, can still be finished. */
  lemma {:induction false} EveryRunCanFinish(c: Config, ms: seq<Move>) returns (full: seq<Move>)
    requires c.Accepted() && IsRun(c, ms)
    requires c.consumers > 0 || c.producers * c.loops <= c.max
    ensures IsRun(c, full) && ms <= full && SpuriousIn(full) == SpuriousIn(ms)
    ensures Finished(After(c, full))
  {
    full := RunOn(c, ms);
    NeverStalls(c, full);
  }

  // ---- What a completed run has done ----

  /** Thread `p` is the only one to fill an item of its own range, so it is in the log as often
      as in that thread's part of the log. */
  lemma {:induction false} OccursBy(vals: seq<int>, who: seq<nat>, p: nat, v: int)
    requires |vals| == |who| && forall k: nat | k < |vals| && vals[k] == v :: who[k] == p
    ensures multiset(vals)[v] == multiset(By(vals, who, p))[v]
  {
    if vals != [] {
      var n := |vals| - 1;
      OccursBy(vals[..n], who[..n], p, v);
      assert vals == vals[..n] + [vals[n]];
    }
  }

  lemma {:induction false} ItemsOnce(c: Config, p: nat, n: nat, v: int)
    requires p < c.producers
    ensures multiset(Items(c, p, n))[v] == if p * c.loops <= v < p * c.loops + n then 1 else 0
  {
    if n > 0 {
      ItemsOnce(c, p, n - 1, v);
      assert Items(c, p, n) == Items(c, p, n - 1) + [Item(c, p, n - 1)];
    }
  }

  /** The ranges of different producers are disjoint and together make up 0..producers*loops. */
  lemma RangeOf(c: Config, v: int) returns (p: nat)
    requires c.loops > 0 && 0 <= v < c.producers * c.loops
    ensures p < c.producers && p * c.loops <= v < p * c.loops + c.loops
    ensures forall q: nat | q * c.loops <= v < q * c.loops + c.loops :: q == p
  {
    p := 0;
    while p * c.loops + c.loops <= v
      invariant p * c.loops <= v
      decreases v - p * c.loops
    {
      assert (p + 1) * c.loops == p * c.loops + c.loops;
      p := p + 1;
    }
    if p >= c.producers {
      MulMonotone(c.producers, p, c.loops);
    }
    forall q: nat | q * c.loops <= v < q * c.loops + c.loops
      ensures q == p
    {
      RangesApart(c.loops, p, q, v);
    }
  }

  lemma MulMonotone(a: nat, b: nat, n: nat)
    requires a <= b
    ensures a * n <= b * n
  {
  }

  lemma RangesApart(n: nat, p: nat, q: nat, v: int)
    requires p * n <= v < p * n + n && q * n <= v < q * n + n
    ensures p == q
  {
    if p < q {
      MulMonotone(p + 1, q, n);
    } else if q < p {
      MulMonotone(q + 1, p, n);
    }
  }

  /** Once all have exited and somebody consumed, every item has been taken. */
  lemma AllTaken(c: Config, s: State)
    requires Accounts(c, s) && Finished(s) && c.consumers > 0
    ensures |s.filled| == c.producers * c.loops + c.consumers && s.taken == s.filled
    ensures forall k: nat | k < |s.taken| :: s.taken[k] == END_OF_STREAM <==> c.producers * c.loops <= k
    ensures multiset(s.taken)[END_OF_STREAM] == c.consumers
  {
    AllFilled(c, s);
    Markers(c, s);
    forall t: nat | t < |s.threads| && c.Consumer(t)
      ensures s.threads[t].tmp == END_OF_STREAM
    {
      assert ThreadOk(c, t, s.threads[t]);
    }
    EndedCount(c, s);
    assert s.filled[..|s.filled|] == s.filled;
  }

  /** Every data item is filled exactly once, by its producer, in that producer's order. */
  lemma FilledOnce(c: Config, threads: seq<Thread>, filled: seq<int>, fillers: seq<nat>, v: int)
    requires |threads| == c.Main() + 1 && |filled| == |fillers| && FillAccount(c, threads, filled, fillers)
    requires forall p: nat | p < c.producers :: Done(c, p, threads[p]) == c.loops
    requires c.loops > 0 && 0 <= v < c.producers * c.loops
    ensures multiset(filled)[v] == 1
  {
    var p := RangeOf(c, v);
    forall k: nat | k < |filled| && filled[k] == v
      ensures fillers[k] == p
    {
      assert EntryOk(c, fillers[k], filled[k], |filled| - Done(c, c.Main(), threads[c.Main()]) <= k);
    }
    OccursBy(filled, fillers, p, v);
    assert By(filled, fillers, p) == Items(c, p, Done(c, p, threads[p]));
    ItemsOnce(c, p, c.loops, v);
  }

  function Itself(): (nat, int) -> int
  {
    (j: nat, x: int) => x
  }

  /** What `main` collects from consumer `t` is one less than the number of items it took. */
  predicate Collected(c: Config, threads: seq<Thread>, counts: seq<int>, t: nat)
    requires |threads| == c.Main() + 1 && |counts| == c.consumers && c.Consumer(t)
  {
    threads[t].pc == Exit && counts[t - c.producers] == threads[t].i - 1
  }

  lemma {:induction false} CountsTotal(c: Config, threads: seq<Thread>, counts: seq<int>, n: nat)
    requires |threads| == c.Main() + 1 && |counts| == c.consumers && n <= c.consumers
    requires forall t: nat | c.Consumer(t) :: Collected(c, threads, counts, t)
    ensures Total(TakenBy(c), threads[..c.producers + n]) == Total(Itself(), counts[..n]) + n
  {
    if n == 0 {
      TotalZero(TakenBy(c), threads[..c.producers]);
    } else {
      CountsTotal(c, threads, counts, n - 1);
      assert threads[..c.producers + n][..c.producers + n - 1] == threads[..c.producers + n - 1];
      assert counts[..n][..n - 1] == counts[..n - 1];
      assert Collected(c, threads, counts, c.producers + n - 1);
    }
  }

  lemma ConsumersCollected(c: Config, s: State, t: nat)
    requires Order(c, s) && Finished(s) && c.Consumer(t)
    ensures Collected(c, s.threads, s.counts, t)
  {
    assert Joined(c, s.threads[c.Main()], t);
  }

  /** The counts `main` collects add up to the number of data items. */
  lemma CountsAddUp(c: Config, s: State)
    requires Accounts(c, s) && Finished(s) && c.consumers > 0
    ensures forall t: nat | c.Consumer(t) :: Collected(c, s.threads, s.counts, t)
    ensures Total(Itself(), s.counts) == c.producers * c.loops
  {
    AllTaken(c, s);
    forall t: nat | c.Consumer(t)
      ensures Collected(c, s.threads, s.counts, t)
    {
      ConsumersCollected(c, s, t);
    }
    CountsTotal(c, s.threads, s.counts, c.consumers);
    assert s.threads[..|s.threads| - 1] == s.threads[..c.Main()];
    assert s.counts[..c.consumers] == s.counts;
  }

  function Numbers(from: int, n: nat): seq<int>
  {
    seq(n, k => from + k)
  }

  /** All data items 0..producers*loops have been taken, each exactly once, before all markers, and
      the items of each producer in the order of their numbers. */
  ghost predicate DataTaken(c: Config, s: State)
  {
    && |s.taken| == |s.takers| == |s.fillers| == c.producers * c.loops + c.consumers
    && (forall k: nat | k < |s.taken| :: s.taken[k] == END_OF_STREAM <==> c.producers * c.loops <= k)
    && (forall v | 0 <= v < c.producers * c.loops :: multiset(s.taken)[v] == 1)
    && forall p: nat | p < c.producers :: By(s.taken, s.fillers, p) == Numbers(p * c.loops, c.loops)
  }

  /** Each consumer has taken one marker, as the last thing, and `main` has counted the rest. */
  ghost predicate Counted(c: Config, s: State)
  {
    && |s.counts| == c.consumers && |s.taken| == |s.takers|
    && Total(Itself(), s.counts) == c.producers * c.loops
    && forall t: nat | c.Consumer(t) ::
         var list := By(s.taken, s.takers, t);
         && |list| == s.counts[t - c.producers] + 1
         && forall k | 0 <= k < |list| :: list[k] == END_OF_STREAM <==> k == |list| - 1
  }

  /** What a completed run has produced and consumed. */
  lemma {:induction false} CompletedRun(c: Config, ms: seq<Move>)
    requires c.Accepted() && IsRun(c, ms) && Finished(After(c, ms)) && c.consumers > 0
    ensures DataTaken(c, After(c, ms)) && Counted(c, After(c, ms))
  {
    RunAccounts(c, ms);
    AllDataTaken(c, After(c, ms));
    AllCounted(c, After(c, ms));
  }

  lemma AllDataTaken(c: Config, s: State)
    requires Accounts(c, s) && Finished(s) && c.consumers > 0
    ensures DataTaken(c, s)
  {
    AllTaken(c, s);
    EachOnce(c, s);
    InOrder(c, s);
  }

  lemma AllCounted(c: Config, s: State)
    requires Accounts(c, s) && Finished(s) && c.consumers > 0
    ensures Counted(c, s)
  {
    CountsAddUp(c, s);
    MarkerLast(c, s);
  }

  lemma EachOnce(c: Config, s: State)
    requires Accounts(c, s) && Finished(s) && s.taken == s.filled
    ensures forall v | 0 <= v < c.producers * c.loops :: multiset(s.taken)[v] == 1
  {
    forall p: nat | p < c.producers
      ensures Done(c, p, s.threads[p]) == c.loops
    {
      assert ThreadOk(c, p, s.threads[p]);
    }
    forall v | 0 <= v < c.producers * c.loops
      ensures multiset(s.filled)[v] == 1
    {
      FilledOnce(c, s.threads, s.filled, s.fillers, v);
    }
  }

  lemma InOrder(c: Config, s: State)
    requires Accounts(c, s) && Finished(s) && s.taken == s.filled
    ensures |s.taken| == |s.fillers|
    ensures forall p: nat | p < c.producers :: By(s.taken, s.fillers, p) == Numbers(p * c.loops, c.loops)
  {
    forall p: nat | p < c.producers
      ensures By(s.taken, s.fillers, p) == Numbers(p * c.loops, c.loops)
    {
      assert ThreadOk(c, p, s.threads[p]) && Done(c, p, s.threads[p]) == c.loops;
      assert By(s.filled, s.fillers, p) == Items(c, p, c.loops);
      ItemsAre(c, p, c.loops);
    }
  }

  lemma ItemsAre(c: Config, p: nat, n: nat)
    requires p < c.producers
    ensures Items(c, p, n) == Numbers(p * c.loops, n)
  {
  }

  lemma MarkerLast(c: Config, s: State)
    requires Accounts(c, s) && Finished(s)
    ensures forall t: nat | c.Consumer(t) ::
      var list := By(s.taken, s.takers, t);
      && |list| == s.threads[t].i > 0
      && forall k | 0 <= k < |list| :: list[k] == END_OF_STREAM <==> k == |list| - 1
  {
    forall t: nat | c.Consumer(t)
      ensures var list := By(s.taken, s.takers, t);
        && |list| == s.threads[t].i > 0
        && forall k | 0 <= k < |list| :: list[k] == END_OF_STREAM <==> k == |list| - 1
    {
      assert ThreadOk(c, t, s.threads[t]);
      assert Took(By(s.taken, s.takers, t), Done(c, t, s.threads[t]), s.threads[t].tmp);
    }
  }
}
