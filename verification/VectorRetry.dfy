/** Exactly when trylock with back-off can retry for ever. */
module VectorRetry {
  import opened Basics
  import opened Vector
  import opened VectorInvariant
  import opened VectorRuns
  import opened VectorOrders

  ghost predicate BoundedBy(p: Program, bound: nat)
  {
    forall ts | IsRun(p, ts) :: |ts| <= bound
  }

  ghost predicate Bounded(p: Program)
  {
    exists bound: nat :: BoundedBy(p, bound)
  }

  /** A thread whose second trylock must fail comes back to where it was. */
  lemma SpinAlone(p: Program, s: State, u: nat, d: Call)
    requires Sized(p, s) && p.mode == TryLock && u < |s.threads| && Busy(p, u, s.threads[u])
    requires d == CallOf(p, u, s.threads[u]) && s.threads[u].pc == First
    requires s.locks[d.dst] == None && (s.locks[d.src] != None || d.src == d.dst)
    ensures Leads(p, s, u, 3, s)
  {
    OneStep(p, s, u);
    var s1 := Step(p, s, u);
    OneStep(p, s1, u);
    var s2 := Step(p, s1, u);
    OneStep(p, s2, u);
    Twice(s.threads, u, s1.threads[u], s2.threads[u]);
    Twice(s.threads, u, s2.threads[u], s.threads[u]);
    assert s.locks[d.dst := Some(u)][d.dst := None] == s.locks;
    assert s.threads[u := s.threads[u]] == s.threads;
    assert Step(p, s2, u) == s;
    AloneOn(p, s, u, 1, s1, 1, s2);
    AloneOn(p, s, u, 2, s2, 1, s);
  }

  /** A thread whose first trylock must fail stays where it is. */
  lemma StayAlone(p: Program, s: State, u: nat, d: Call)
    requires Sized(p, s) && p.mode == TryLock && u < |s.threads| && Busy(p, u, s.threads[u])
    requires d == CallOf(p, u, s.threads[u]) && s.threads[u].pc == First && s.locks[d.dst] != None
    ensures Leads(p, s, u, 1, s)
  {
    OneStep(p, s, u);
  }

  lemma {:induction false} Pump(p: Program, ts: seq<nat>, u: nat, n: nat, m: nat) returns (longer: seq<nat>)
    requires IsRun(p, ts) && n > 0 && Leads(p, After(p, ts), u, n, After(p, ts))
    ensures IsRun(p, longer) && |longer| >= m
    decreases m
  {
    if m == 0 {
      longer := ts;
    } else {
      longer := Again(p, ts, u, n, m);
    }
  }

  lemma {:induction false} Again(p: Program, ts: seq<nat>, u: nat, n: nat, m: nat) returns (longer: seq<nat>)
    requires IsRun(p, ts) && n > 0 && Leads(p, After(p, ts), u, n, After(p, ts))
    ensures IsRun(p, longer) && |longer| >= |ts| + m && After(p, longer) == After(p, ts)
    decreases m
  {
    if m == 0 {
      longer := ts;
    } else {
      longer := Again(p, ts, u, n, m - 1);
      longer := AloneRuns(p, longer, u, n, After(p, ts));
    }
  }

  lemma NotBounded(p: Program, ts: seq<nat>, u: nat, n: nat)
    requires IsRun(p, ts) && n > 0 && Leads(p, After(p, ts), u, n, After(p, ts))
    ensures !Bounded(p)
  {
    forall bound: nat
      ensures !BoundedBy(p, bound)
    {
      var longer := Pump(p, ts, u, n, bound + 1);
    }
  }

  // ---- A call that names one vector twice ----

  lemma {:induction false} FirstCalls(p: Program, t: nat, i: nat)
    requires t < |p.scripts| && i <= |p.scripts[t]|
    ensures Fits(p, Repeat(t, i)) && CallsIn(p, Repeat(t, i)) == p.scripts[t][..i] && Count(Repeat(t, i), t) == i
  {
    CountRepeat(t, i, t);
    if i > 0 {
      FirstCalls(p, t, i - 1);
      assert Repeat(t, i) == Repeat(t, i - 1) + [t];
      OneMoreCall(p, Repeat(t, i - 1), t);
    }
  }

  lemma {:induction false} FirstSelfCall(p: Program, t: nat, i: nat) returns (k: nat)
    requires t < |p.scripts| && i < |p.scripts[t]| && p.scripts[t][i].dst == p.scripts[t][i].src
    ensures k < |p.scripts[t]| && p.scripts[t][k].dst == p.scripts[t][k].src
    ensures forall j: nat | j < k :: p.scripts[t][j].dst != p.scripts[t][j].src
  {
    if j: nat :| j < i && p.scripts[t][j].dst == p.scripts[t][j].src {
      k := FirstSelfCall(p, t, j);
    } else {
      k := i;
    }
  }

  lemma SelfCallRetries(p: Program, t: nat, i: nat)
    requires p.WellFormed() && p.mode == TryLock
    requires t < |p.scripts| && i < |p.scripts[t]| && p.scripts[t][i].dst == p.scripts[t][i].src
    ensures !Bounded(p)
  {
    var k := FirstSelfCall(p, t, i);
    FirstCalls(p, t, k);
    var ts := OrderRun(p, Repeat(t, k));
    SpinAlone(p, After(p, ts), t, p.scripts[t][k]);
    NotBounded(p, ts, t, 3);
  }

  // ---- Two threads that name one vector ----

  /** Thread `u`, about to take locks one of which thread `t` has, comes back to where it was. */
  lemma Contends(p: Program, s: State, t: nat, c: Call, u: nat, d: Call) returns (n: nat)
    requires Sized(p, s) && Unlocked(s) && p.mode == TryLock && t < |s.threads| && u < |s.threads| && t != u
    requires c.dst < |s.locks| && c.src < |s.locks| && Sized(p, Acquired(s, t, c)) && Share(c, d) && d.dst != d.src
    requires Busy(p, u, s.threads[u]) && d == CallOf(p, u, s.threads[u]) && s.threads[u].pc == First
    ensures n > 0 && Leads(p, Acquired(s, t, c), u, n, Acquired(s, t, c))
  {
    if d.dst == c.dst || d.dst == c.src {
      n := 1;
      StayAlone(p, Acquired(s, t, c), u, d);
    } else {
      n := 3;
      SpinAlone(p, Acquired(s, t, c), u, d);
    }
  }

  /** The first `i` calls of thread `t` and then the first `k` of thread `u`. */
  lemma TwoThreadsOrder(p: Program, t: nat, i: nat, u: nat, k: nat) returns (order: seq<nat>)
    requires t < |p.scripts| && i <= |p.scripts[t]| && u < |p.scripts| && k <= |p.scripts[u]| && t != u
    ensures Fits(p, order) && Count(order, t) == i && Count(order, u) == k
  {
    order := Repeat(t, i) + Repeat(u, k);
    forall v: nat
      ensures Count(order, v) == if v == t then i else if v == u then k else 0
    {
      CountRepeat(t, i, v);
      CountRepeat(u, k, v);
      CountAdds(Repeat(t, i), Repeat(u, k), v);
    }
    FitsIf(p, order);
  }

  lemma SharingRetries(p: Program, t: nat, i: nat, u: nat, k: nat)
    requires p.WellFormed() && p.mode == TryLock && NoSelfCalls(p) && t != u
    requires t < |p.scripts| && i < |p.scripts[t]| && u < |p.scripts| && k < |p.scripts[u]|
    requires Share(p.scripts[t][i], p.scripts[u][k])
    ensures !Bounded(p)
  {
    var c, d := p.scripts[t][i], p.scripts[u][k];
    var order := TwoThreadsOrder(p, t, i, u, k);
    AllAre(p, order);
    var ts := OrderRun(p, order);
    var s := After(p, ts);
    RestReady(p, s, order, t, c);
    RestReady(p, s, order, u, d);
    var n := AcquireAlone(p, s, t, c);
    ts := AloneRuns(p, ts, t, n, Acquired(s, t, c));
    n := Contends(p, s, t, c, u, d);
    NotBounded(p, ts, u, n);
  }

  /** The length of the runs with trylock and back-off is bounded if and only if no call names one
      vector twice and no two threads ever name the same vector. */
  lemma {:induction false} TryBoundedExactly(p: Program)
    requires p.WellFormed() && p.mode == TryLock
    ensures Bounded(p) <==> (NoSelfCalls(p) && Separate(p))
  {
    if !NoSelfCalls(p) {
      var t: nat, i: nat :| t < |p.scripts| && i < |p.scripts[t]| && p.scripts[t][i].dst == p.scripts[t][i].src;
      SelfCallRetries(p, t, i);
    } else if !Separate(p) {
      var t: nat, i: nat, u: nat, k: nat :|
        t < |p.scripts| && i < |p.scripts[t]| && u < |p.scripts| && k < |p.scripts[u]|
        && t != u && Share(p.scripts[t][i], p.scripts[u][k]);
      SharingRetries(p, t, i, u, k);
    } else {
      forall ts | IsRun(p, ts)
        ensures |ts| <= CALL_COST * Calls(p.scripts)
      {
        RunsAreShort(p, ts);
      }
      assert BoundedBy(p, CALL_COST * Calls(p.scripts));
    }
  }
}
