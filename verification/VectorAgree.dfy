/** Exactly when all finished runs of the program agree: what `main` sets up with and without `-d`
    and `-p`, under each of the four disciplines. */
module VectorAgree {
  import opened Basics
  import opened Vector
  import opened VectorInvariant
  import opened VectorSerial
  import opened VectorRuns
  import opened VectorOrders
  import opened VectorEnd

  ghost predicate Agree(p: Program)
  {
    forall ts, us | Completes(p, ts) && Completes(p, us) :: After(p, ts).values == After(p, us).values
  }

  /** The call of thread `t` with `-d` and without `-p`. */
  function Crossing(t: nat): Call
  {
    WorkerCall(t, false, true)
  }

  function Crossings(order: seq<nat>): seq<Call>
  {
    seq(|order|, k requires 0 <= k < |order| => Crossing(order[k]))
  }

  // ---- An order for the calls that are left ----

  /** The calls of the first `n` threads but for the first call of threads 0 and 1. */
  function Others(n: nat, loops: nat): seq<nat>
    requires loops >= 1
  {
    if n == 0 then [] else Others(n - 1, loops) + Repeat(n - 1, if n <= 2 then loops - 1 else loops)
  }

  lemma {:induction false} OthersCount(n: nat, loops: nat, t: nat)
    requires loops >= 1
    ensures Count(Others(n, loops), t) == if t >= n then 0 else if t < 2 then loops - 1 else loops
    ensures forall k: nat | k < |Others(n, loops)| :: Others(n, loops)[k] < n
  {
    if n > 0 {
      var m := if n <= 2 then loops - 1 else loops;
      OthersCount(n - 1, loops, t);
      CountRepeat(n - 1, m, t);
      CountAdds(Others(n - 1, loops), Repeat(n - 1, m), t);
    }
  }

  lemma FirstTwoComplete(p: Program, n: nat, loops: nat, first: nat)
    requires p == WorkerProgram(p.mode, n, loops, false, true) && 2 <= n && loops >= 1 && first < 2
    ensures Complete(p, [first, 1 - first] + Others(n, loops))
  {
    var order := [first, 1 - first] + Others(n, loops);
    forall t: nat | t < n
      ensures Count(order, t) == loops
    {
      OthersCount(n, loops, t);
      CountAdds([first, 1 - first], Others(n, loops), t);
      CountPair(first, 1 - first, t);
    }
    OthersCount(n, loops, 0);
    FitsIf(p, order);
  }

  /** Threads 0 and 1 make their first calls in either order, and then come the others. */
  lemma FirstTwo(p: Program, n: nat, loops: nat, first: nat) returns (order: seq<nat>)
    requires p == WorkerProgram(p.mode, n, loops, false, true) && 2 <= n && loops >= 1 && first < 2
    ensures Complete(p, order)
    ensures CallsIn(p, order) == [Crossing(first), Crossing(1 - first)] + Crossings(Others(n, loops))
  {
    order := [first, 1 - first] + Others(n, loops);
    FirstTwoComplete(p, n, loops, first);
    CallsAre(p, n, loops, order);
    assert Crossings(order) == [Crossing(first), Crossing(1 - first)] + Crossings(Others(n, loops));
  }

  lemma CountPair(a: nat, b: nat, t: nat)
    ensures Count([a, b], t) == (if a == t then 1 else 0) + if b == t then 1 else 0
  {
    assert [a][..0] == [] && Count([a], t) == if a == t then 1 else 0;
    assert [a, b][..1] == [a];
  }

  lemma {:induction false} CallsAre(p: Program, n: nat, loops: nat, order: seq<nat>)
    requires p == WorkerProgram(p.mode, n, loops, false, true) && Fits(p, order)
    ensures CallsIn(p, order) == Crossings(order)
  {
    if order != [] {
      CallsAre(p, n, loops, order[..|order| - 1]);
    }
  }

  // ---- A difference survives ----

  /** An element of `v[0]` and that of `v[1]` after some calls, made one after the other. */
  function PairAfter(calls: seq<Call>, x: int, y: int): (int, int)
  {
    if calls == [] then (x, y)
    else
      var q := PairAfter(calls[..|calls| - 1], x, y);
      if calls[|calls| - 1].dst == 0 then (q.0 + q.1, q.1) else (q.0, q.0 + q.1)
  }

  lemma {:induction false} SerialPair(init: seq<seq<int>>, calls: seq<Call>, k: nat)
    requires |init| >= 2 && k < VECTOR_SIZE && forall v: nat | v < |init| :: |init[v]| == VECTOR_SIZE
    requires forall i: nat | i < |calls| :: calls[i] == Call(0, 1) || calls[i] == Call(1, 0)
    ensures var r := Serial(init, calls); (r[0][k], r[1][k]) == PairAfter(calls, init[0][k], init[1][k])
  {
    if calls != [] {
      SerialPair(init, calls[..|calls| - 1], k);
    }
  }

  lemma {:induction false} StillDiffer(a: seq<Call>, b: seq<Call>, rest: seq<Call>, x: int, y: int)
    requires PairAfter(a, x, y) != PairAfter(b, x, y)
    ensures PairAfter(a + rest, x, y) != PairAfter(b + rest, x, y)
  {
    if rest == [] {
      assert a + rest == a && b + rest == b;
    } else {
      var n := |rest| - 1;
      StillDiffer(a, b, rest[..n], x, y);
      assert (a + rest)[..|a| + n] == a + rest[..n] && (b + rest)[..|b| + n] == b + rest[..n];
    }
  }

  lemma EitherOrder()
    ensures PairAfter([Crossing(0), Crossing(1)], 0, 1) == (1, 2)
    ensures PairAfter([Crossing(1), Crossing(0)], 0, 1) == (1, 1)
  {
    assert [Crossing(0), Crossing(1)][..1] == [Crossing(0)] && [Crossing(0)][..0] == [];
    assert [Crossing(1), Crossing(0)][..1] == [Crossing(1)] && [Crossing(1)][..0] == [];
  }

  lemma OrderEnd(p: Program, n: nat, loops: nat, first: nat) returns (ts: seq<nat>)
    requires p == WorkerProgram(p.mode, n, loops, false, true) && 2 <= n < MAX_THREADS && loops >= 1 && first < 2
    ensures Completes(p, ts) && |After(p, ts).values| >= 2
    ensures var v := After(p, ts).values;
      |v[0]| == |v[1]| == VECTOR_SIZE &&
      (v[0][0], v[1][0]) == PairAfter([Crossing(first), Crossing(1 - first)] + Crossings(Others(n, loops)), 0, 1)
  {
    WorkerCalls(p.mode, n, loops, false, true);
    var order := FirstTwo(p, n, loops, first);
    var calls := CallsIn(p, order);
    CallsInRange(p, order);
    ts := SerialCanEnd(p, order, Serial(p.init, calls));
    assert p.init[0][0] == 0 && p.init[1][0] == 1;
    SerialPair(p.init, calls, 0);
  }

  /** All finished runs agree, under any of the four disciplines, if and only if the workers are apart:
      with `-d` and without `-p`, two threads or more end differently in different orders. */
  lemma {:induction false} AgreeExactly(mode: Mode, numThreads: nat, loops: nat, parallel: bool, deadlock: bool)
    requires numThreads < MAX_THREADS
    ensures Agree(WorkerProgram(mode, numThreads, loops, parallel, deadlock)) <==>
      Apart(numThreads, loops, parallel, deadlock)
  {
    var p := WorkerProgram(mode, numThreads, loops, parallel, deadlock);
    WorkerCalls(mode, numThreads, loops, parallel, deadlock);
    if Apart(numThreads, loops, parallel, deadlock) {
      forall ts, us | Completes(p, ts) && Completes(p, us)
        ensures After(p, ts).values == After(p, us).values
      {
        WorkersEnd(mode, numThreads, loops, parallel, deadlock, ts);
        WorkersEnd(mode, numThreads, loops, parallel, deadlock, us);
      }
    } else {
      Disagree(p, numThreads, loops);
    }
  }

  lemma Disagree(p: Program, n: nat, loops: nat)
    requires p == WorkerProgram(p.mode, n, loops, false, true) && 2 <= n < MAX_THREADS && loops >= 1
    ensures !Agree(p)
  {
    var ts := OrderEnd(p, n, loops, 0);
    var us := OrderEnd(p, n, loops, 1);
    EitherOrder();
    StillDiffer([Crossing(0), Crossing(1)], [Crossing(1), Crossing(0)], Crossings(Others(n, loops)), 0, 1);
  }

  // ---- One call of each thread, in turn ----

  function Fib(n: nat): nat
  {
    if n <= 1 then n else Fib(n - 2) + Fib(n - 1)
  }

  function Threads(n: nat): seq<nat>
  {
    seq(n, t requires 0 <= t => t)
  }

  lemma {:induction false} ThreadsCount(n: nat, t: nat)
    ensures Count(Threads(n), t) == if t < n then 1 else 0
  {
    if n > 0 {
      ThreadsCount(n - 1, t);
      assert Threads(n)[..n - 1] == Threads(n - 1);
    }
  }

  lemma ThreadsComplete(p: Program, n: nat)
    requires p == WorkerProgram(p.mode, n, 1, false, true)
    ensures Complete(p, Threads(n)) && CallsIn(p, Threads(n)) == Crossings(Threads(n))
  {
    forall t: nat | t < n
      ensures Count(Threads(n), t) == 1
    {
      ThreadsCount(n, t);
    }
    FitsIf(p, Threads(n));
    CallsAre(p, n, 1, Threads(n));
  }

  /** Each call makes the next Fibonacci number, in the two vectors by turns. */
  lemma {:induction false} PairInTurn(n: nat)
    ensures PairAfter(Crossings(Threads(n)), 0, 1) == if n % 2 == 0 then (Fib(n), Fib(n + 1)) else (Fib(n + 1), Fib(n))
  {
    if n > 0 {
      PairInTurn(n - 1);
      assert Crossings(Threads(n))[..n - 1] == Crossings(Threads(n - 1));
      assert Crossings(Threads(n))[n - 1] == Crossing(n - 1);
    }
  }

  /** The values of `v[0]` and `v[1]` after `n` such calls. */
  ghost predicate FibEnd(v: seq<seq<int>>, n: nat)
  {
    && |v| == 2 * MAX_THREADS && |v[0]| == |v[1]| == VECTOR_SIZE
    && forall k: nat | k < VECTOR_SIZE ::
         (v[0][k], v[1][k]) == if n % 2 == 0 then (Fib(n), Fib(n + 1)) else (Fib(n + 1), Fib(n))
  }

  lemma SerialInTurn(init: seq<seq<int>>, n: nat)
    requires init == seq(2 * MAX_THREADS, i => seq(VECTOR_SIZE, j => i))
    ensures FibEnd(Serial(init, Crossings(Threads(n))), n)
  {
    PairInTurn(n);
    forall k: nat | k < VECTOR_SIZE
      ensures var v := Serial(init, Crossings(Threads(n)));
        (v[0][k], v[1][k]) == PairAfter(Crossings(Threads(n)), 0, 1)
    {
      SerialPair(init, Crossings(Threads(n)), k);
    }
  }

  /** With `-d`, without `-p`, and one call of each of `n` threads, made in the order of their numbers, all
      of v[0] and v[1] end as the Fibonacci numbers F(n) and F(n + 1), swapped if `n` is odd. */
  lemma {:induction false} InTurnEnd(mode: Mode, n: nat) returns (ts: seq<nat>)
    requires n < MAX_THREADS
    ensures Completes(WorkerProgram(mode, n, 1, false, true), ts)
    ensures FibEnd(After(WorkerProgram(mode, n, 1, false, true), ts).values, n)
  {
    var p := WorkerProgram(mode, n, 1, false, true);
    WorkerCalls(mode, n, 1, false, true);
    ThreadsComplete(p, n);
    CallsInRange(p, Threads(n));
    SerialInTurn(p.init, n);
    ts := SerialCanEnd(p, Threads(n), Serial(p.init, CallsIn(p, Threads(n))));
  }
}
