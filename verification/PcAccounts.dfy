/** Who filled and who got what: the logs against the loop counters of the threads. */
module PcAccounts {
  import opened Basics
  import opened PcBuffer
  import opened ProducerConsumer
  import opened PcInvariant

  /** How many items thread `t` has filled or got so far. */
  function Done(c: Config, t: nat, th: Thread): nat
  {
    if t < c.Main() || InLoop(th.pc) then
      th.i + if th.pc == Signal || th.pc == Unlock then 1 else 0
    else if th.pc == JoinConsumers || th.pc == Exit then c.consumers
    else 0
  }

  function FilledBy(c: Config): (nat, Thread) -> int
  {
    (t: nat, th: Thread) => if c.Consumer(t) then 0 else Done(c, t, th)
  }

  function TakenBy(c: Config): (nat, Thread) -> int
  {
    (t: nat, th: Thread) => if c.Consumer(t) then Done(c, t, th) else 0
  }

  /** Has consumer `t` got its END_OF_STREAM? */
  function Ended(c: Config): (nat, Thread) -> int
  {
    (t: nat, th: Thread) => if c.Consumer(t) && th.tmp == END_OF_STREAM then 1 else 0
  }

  /** The first `n` items thread `t` fills. */
  function Items(c: Config, t: nat, n: nat): seq<int>
  {
    seq(n, k requires 0 <= k => Item(c, t, k))
  }

  /** `list` is what a consumer has taken when it has taken `n` items, the last of them `tmp`:
      only the last can be END_OF_STREAM. */
  predicate Took(list: seq<int>, n: nat, tmp: int)
  {
    && |list| == n
    && (forall k | 0 <= k < n - 1 :: list[k] != END_OF_STREAM)
    && tmp == if n == 0 then 0 else list[n - 1]
  }

  /** Entry `k` of the fill log is an item of its filler, and the markers of `main` come last. */
  predicate EntryOk(c: Config, u: nat, value: int, late: bool)
  {
    && (u == c.Main() <==> late)
    && (u == c.Main() ==> value == END_OF_STREAM)
    && (u != c.Main() ==> u < c.producers && u * c.loops <= value < u * c.loops + c.loops)
  }

  ghost predicate FillAccount(c: Config, threads: seq<Thread>, filled: seq<int>, fillers: seq<nat>)
    requires |threads| == c.Main() + 1 && |filled| == |fillers|
  {
    && |filled| == Total(FilledBy(c), threads)
    && (forall t: nat | t < |threads| && !c.Consumer(t) ::
          By(filled, fillers, t) == Items(c, t, Done(c, t, threads[t])))
    && (forall k: nat | k < |filled| ::
          EntryOk(c, fillers[k], filled[k], |filled| - Done(c, c.Main(), threads[c.Main()]) <= k))
  }

  ghost predicate TakeAccount(c: Config, threads: seq<Thread>, taken: seq<int>, takers: seq<nat>)
    requires |threads| == c.Main() + 1 && |taken| == |takers|
  {
    && |taken| == Total(TakenBy(c), threads)
    && multiset(taken)[END_OF_STREAM] == Total(Ended(c), threads)
    && (forall t: nat | t < |threads| && c.Consumer(t) ::
          Took(By(taken, takers, t), Done(c, t, threads[t]), threads[t].tmp))
  }

  ghost predicate Books(c: Config, s: State)
  {
    && |s.threads| == c.Main() + 1 && |s.filled| == |s.fillers| && |s.taken| == |s.takers|
    && FillAccount(c, s.threads, s.filled, s.fillers)
    && TakeAccount(c, s.threads, s.taken, s.takers)
  }

  ghost predicate Accounts(c: Config, s: State)
  {
    Base(c, s) && Books(c, s)
  }

  lemma {:induction false} TotalSame<T>(w: (nat, T) -> int, xs: seq<T>, ys: seq<T>)
    requires |xs| == |ys| && forall k: nat | k < |xs| :: w(k, xs[k]) == w(k, ys[k])
    ensures Total(w, xs) == Total(w, ys)
  {
    if xs != [] {
      TotalSame(w, xs[..|xs| - 1], ys[..|ys| - 1]);
    }
  }

  ghost predicate Unmoved(c: Config, threads: seq<Thread>, threads': seq<Thread>)
  {
    && |threads'| == |threads|
    && forall u: nat | u < |threads| ::
         Done(c, u, threads'[u]) == Done(c, u, threads[u]) && threads'[u].tmp == threads[u].tmp
  }

  lemma UnmovedMain(c: Config, s: State, t: nat)
    requires Order(c, s) && CanStep(c, s, t)
    requires s.threads[t].pc == Create || s.threads[t].pc == JoinProducers || s.threads[t].pc == JoinConsumers
    ensures Unmoved(c, s.threads, MainStep(c, s, t).threads)
  {
    assert ThreadOk(c, t, s.threads[t]) && t == c.Main();
    if s.threads[t].pc == Create && s.threads[t].i < c.Main() {
      assert s.threads[s.threads[t].i].pc == Unborn;
      UnmovedCreate(c, s.threads, t, s.threads[t].i);
    } else {
      UnmovedJoin(c, s, t);
    }
  }

  lemma UnmovedJoin(c: Config, s: State, t: nat)
    requires Sized(c, s) && CanStep(c, s, t) && t == c.Main() && ThreadOk(c, t, s.threads[t])
    requires var th := s.threads[t];
      th.pc == JoinProducers || th.pc == JoinConsumers || (th.pc == Create && th.i == t)
    ensures Unmoved(c, s.threads, MainStep(c, s, t).threads)
  {
    var th' := MainStep(c, s, t).threads[t];
    assert MainStep(c, s, t).threads == s.threads[t := th'];
  }

  lemma UnmovedCreate(c: Config, threads: seq<Thread>, t: nat, i: nat)
    requires i < t == c.Main() < |threads| && threads[t].pc == Create && threads[i].pc == Unborn
    ensures Unmoved(c, threads, threads[i := threads[i].(pc := Lock)][t := threads[t].(i := threads[t].i + 1)])
  {
  }

  lemma UnmovedLoop(c: Config, s: State, t: nat, w: nat)
    requires Order(c, s) && CanStep(c, s, t) && InLoop(s.threads[t].pc)
    requires s.threads[t].pc != Act && s.threads[t].pc != Signal
    ensures Unmoved(c, s.threads, Step(c, s, t, w).threads)
  {
    assert ThreadOk(c, t, s.threads[t]);
    var th' := Step(c, s, t, w).threads[t];
    assert Step(c, s, t, w).threads == s.threads[t := th'];
  }

  /** Moves that neither fill nor get leave every thread's account as it was. */
  lemma UnmovedMove(c: Config, s: State, m: Move)
    requires Order(c, s) && Legal(c, s, m) && (m.Run? ==> s.threads[m.t].pc != Act)
    ensures Unmoved(c, s.threads, Apply(c, s, m).threads)
  {
    assert ThreadOk(c, m.t, s.threads[m.t]);
    var pc := s.threads[m.t].pc;
    if m.Run? {
      if pc == Create || pc == JoinProducers || pc == JoinConsumers {
        UnmovedMain(c, s, m.t);
      } else if pc == Signal {
        UnmovedSignal(c, s, m.t, m.w);
      } else {
        UnmovedLoop(c, s, m.t, m.w);
      }
    }
  }

  lemma UnmovedSignal(c: Config, s: State, t: nat, w: nat)
    requires t < |s.threads| && s.threads[t].pc == Signal
    ensures Unmoved(c, s.threads, SignalStep(c, s, t, w).threads)
  {
  }

  lemma BooksUnmoved(c: Config, s: State, s': State)
    requires Books(c, s) && Unmoved(c, s.threads, s'.threads)
    requires s'.filled == s.filled && s'.fillers == s.fillers && s'.taken == s.taken && s'.takers == s.takers
    ensures Books(c, s')
  {
    TotalSame(FilledBy(c), s.threads, s'.threads);
    TotalSame(TakenBy(c), s.threads, s'.threads);
    TotalSame(Ended(c), s.threads, s'.threads);
  }

  /** What a consumer does is no business of the fill account, and the other way round. */
  lemma FillAccountStable(c: Config, threads: seq<Thread>, filled: seq<int>, fillers: seq<nat>, t: nat, th: Thread)
    requires |threads| == c.Main() + 1 && |filled| == |fillers| && t < |threads| && c.Consumer(t)
    requires FillAccount(c, threads, filled, fillers)
    ensures FillAccount(c, threads[t := th], filled, fillers)
  {
    TotalUpdate(FilledBy(c), threads, t, th);
  }

  lemma TakeAccountStable(c: Config, threads: seq<Thread>, taken: seq<int>, takers: seq<nat>, t: nat, th: Thread)
    requires |threads| == c.Main() + 1 && |taken| == |takers| && t < |threads| && !c.Consumer(t)
    requires TakeAccount(c, threads, taken, takers)
    ensures TakeAccount(c, threads[t := th], taken, takers)
  {
    TotalUpdate(TakenBy(c), threads, t, th);
    TotalUpdate(Ended(c), threads, t, th);
  }

  lemma GetAccount(c: Config, threads: seq<Thread>, taken: seq<int>, takers: seq<nat>, t: nat, value: int)
    requires |threads| == c.Main() + 1 && |taken| == |takers| && t < |threads| && c.Consumer(t)
    requires TakeAccount(c, threads, taken, takers)
    requires threads[t].pc == Act && threads[t].tmp != END_OF_STREAM
    ensures TakeAccount(c, threads[t := threads[t].(pc := Signal, tmp := value)], taken + [value], takers + [t])
  {
    var th := threads[t].(pc := Signal, tmp := value);
    TotalUpdate(TakenBy(c), threads, t, th);
    TotalUpdate(Ended(c), threads, t, th);
    forall u: nat | u < |threads| && c.Consumer(u)
      ensures Took(By(taken + [value], takers + [t], u), Done(c, u, threads[t := th][u]), threads[t := th][u].tmp)
    {
      ByAppend(taken, takers, value, t, u);
    }
  }

  lemma FillAccountKept(c: Config, threads: seq<Thread>, filled: seq<int>, fillers: seq<nat>, t: nat)
    requires |threads| == c.Main() + 1 && |filled| == |fillers| && t < |threads| && !c.Consumer(t)
    requires FillAccount(c, threads, filled, fillers)
    requires threads[t].pc == Act && (t < c.producers ==> threads[t].i < c.loops)
    requires t < c.producers ==> Done(c, c.Main(), threads[c.Main()]) == 0
    ensures FillAccount(c, threads[t := threads[t].(pc := Signal)], filled + [Item(c, t, threads[t].i)], fillers + [t])
  {
    var th, value := threads[t].(pc := Signal), Item(c, t, threads[t].i);
    var late, late' := Done(c, c.Main(), threads[c.Main()]), Done(c, c.Main(), threads[t := th][c.Main()]);
    TotalUpdate(FilledBy(c), threads, t, th);
    forall u: nat | u < |threads| && !c.Consumer(u)
      ensures By(filled + [value], fillers + [t], u) == Items(c, u, Done(c, u, threads[t := th][u]))
    {
      ByAppend(filled, fillers, value, t, u);
    }
    forall k: nat | k < |filled| + 1
      ensures EntryOk(c, (fillers + [t])[k], (filled + [value])[k], |filled| + 1 - late' <= k)
    {
      if k < |filled| {
        assert EntryOk(c, fillers[k], filled[k], |filled| - late <= k);
      }
    }
  }

  lemma GetBooks(c: Config, s: State, t: nat, th: Thread, s': State)
    requires Books(c, s) && t < |s.threads| && c.Consumer(t) && s.threads[t].pc == Act
    requires s.threads[t].tmp != END_OF_STREAM
    requires th.pc == Signal && th == s.threads[t].(pc := Signal, tmp := th.tmp) && s'.threads == s.threads[t := th]
    requires s'.taken == s.taken + [th.tmp] && s'.takers == s.takers + [t]
    requires s'.filled == s.filled && s'.fillers == s.fillers
    ensures Books(c, s')
  {
    GetAccount(c, s.threads, s.taken, s.takers, t, th.tmp);
    FillAccountStable(c, s.threads, s.filled, s.fillers, t, th);
  }

  lemma FillBooks(c: Config, s: State, t: nat, s': State)
    requires Books(c, s) && t < |s.threads| && !c.Consumer(t) && s.threads[t].pc == Act
    requires t < c.producers ==> s.threads[t].i < c.loops && Done(c, c.Main(), s.threads[c.Main()]) == 0
    requires s'.threads == s.threads[t := s.threads[t].(pc := Signal)]
    requires s'.filled == s.filled + [Item(c, t, s.threads[t].i)] && s'.fillers == s.fillers + [t]
    requires s'.taken == s.taken && s'.takers == s.takers
    ensures Books(c, s')
  {
    FillAccountKept(c, s.threads, s.filled, s.fillers, t);
    TakeAccountStable(c, s.threads, s.taken, s.takers, t, s.threads[t].(pc := Signal));
  }

  /** `main` fills only after every producer has exited. */
  lemma MarkersComeLast(c: Config, s: State, t: nat)
    requires Order(c, s) && t < c.producers && s.threads[t].pc != Exit
    ensures Done(c, c.Main(), s.threads[c.Main()]) == 0
  {
    assert ThreadOk(c, c.Main(), s.threads[c.Main()]);
    assert !Joined(c, s.threads[c.Main()], t);
  }

  lemma ActBooks(c: Config, s: State, t: nat)
    requires Order(c, s) && Books(c, s) && CanStep(c, s, t) && s.threads[t].pc == Act && !ActStep(c, s, t).failed
    ensures Books(c, ActStep(c, s, t))
  {
    var s' := ActStep(c, s, t);
    assert ThreadOk(c, t, s.threads[t]);
    if c.Consumer(t) {
      GetBooks(c, s, t, s'.threads[t], s');
    } else {
      if t < c.producers {
        MarkersComeLast(c, s, t);
      }
      FillBooks(c, s, t, s');
    }
  }

  lemma SameLogs(c: Config, s: State, m: Move)
    requires Sized(c, s) && Legal(c, s, m) && (m.Run? ==> s.threads[m.t].pc != Act)
    ensures var s' := Apply(c, s, m);
      s'.filled == s.filled && s'.fillers == s.fillers && s'.taken == s.taken && s'.takers == s.takers
  {
  }

  lemma OtherBooks(c: Config, s: State, m: Move)
    requires Order(c, s) && Books(c, s) && Legal(c, s, m) && (m.Run? ==> s.threads[m.t].pc != Act)
    ensures Books(c, Apply(c, s, m))
  {
    UnmovedMove(c, s, m);
    SameLogs(c, s, m);
    BooksUnmoved(c, s, Apply(c, s, m));
  }

  lemma {:induction false} AccountsKept(c: Config, s: State, m: Move)
    requires Accounts(c, s) && Legal(c, s, m)
    ensures Accounts(c, Apply(c, s, m))
  {
    BaseKept(c, s, m);
    if m.Run? && s.threads[m.t].pc == Act {
      ActBooks(c, s, m.t);
    } else {
      OtherBooks(c, s, m);
    }
  }

  lemma InitAccounts(c: Config)
    requires c.Accepted()
    ensures Accounts(c, Init(c))
  {
    InitBase(c);
    TotalZero(FilledBy(c), Init(c).threads);
    TotalZero(TakenBy(c), Init(c).threads);
    TotalZero(Ended(c), Init(c).threads);
  }
}
