/** What every step of the vector machine keeps: who holds which lock, and how far the vectors
    are from the serial execution of the calls committed so far. */
module VectorInvariant {
  import opened Basics
  import opened Vector

  // ---- Locks ----

  predicate InLoop(pc: Point)
  {
    pc == ReadDst || pc == ReadSrc || pc == Write
  }

  /** Does a thread at `pc` of call `c` hold the lock of vector `v`? */
  predicate Holds(mode: Mode, c: Call, pc: Point, v: nat)
  {
    if mode == NoLock then false
    else if pc == Second || pc == Backoff then v == FirstLock(mode, c)
    else if pc == Leave || InLoop(pc) || pc == Release1 then v == c.dst || v == c.src
    else if pc == Release2 then v == (if mode == Ordered then c.dst else c.src)
    else false
  }

  predicate HoldsGlobal(mode: Mode, pc: Point)
  {
    mode == GlobalLock && (pc == First || pc == Second || pc == Leave)
  }

  /** Which points the discipline uses, and between which a call must name two vectors. */
  predicate PointOk(mode: Mode, c: Call, pc: Point)
  {
    match mode
    case Ordered => (pc == First || pc == Second || InLoop(pc) || pc == Release1 || pc == Release2)
      && (pc == Second || pc == Release2 ==> c.dst != c.src)
    case GlobalLock => pc != Backoff && (pc != Enter && pc != First && pc != Second ==> c.dst != c.src)
    case TryLock => pc != Enter && pc != Leave && (InLoop(pc) || pc == Release1 || pc == Release2 ==> c.dst != c.src)
    case NoLock => pc == ReadSrc || pc == Write
  }

  predicate ThreadOk(p: Program, t: nat, th: Thread)
  {
    && t < |p.scripts| && th.call <= |p.scripts[t]|
    && if Busy(p, t, th) then PointOk(p.mode, CallOf(p, t, th), th.pc) else th.pc == Start(p.mode)
  }

  predicate Has(p: Program, t: nat, th: Thread, v: nat)
  {
    Busy(p, t, th) && Holds(p.mode, CallOf(p, t, th), th.pc, v)
  }

  predicate HasGlobal(p: Program, t: nat, th: Thread)
  {
    Busy(p, t, th) && HoldsGlobal(p.mode, th.pc)
  }

  ghost predicate Locked(p: Program, threads: seq<Thread>, locks: seq<Option<nat>>, global: Option<nat>)
  {
    && (forall t: nat | t < |threads| :: ThreadOk(p, t, threads[t]))
    && (forall t: nat, v: nat | t < |threads| && v < |locks| :: Has(p, t, threads[t], v) <==> locks[v] == Some(t))
    && (forall v: nat | v < |locks| && locks[v].Some? :: locks[v].value < |threads|)
    && (forall t: nat | t < |threads| :: HasGlobal(p, t, threads[t]) <==> global == Some(t))
    && (global.Some? ==> global.value < |threads|)
  }

  lemma LockedUpdate(p: Program, threads: seq<Thread>, locks: seq<Option<nat>>, global: Option<nat>,
                     t: nat, th: Thread, locks': seq<Option<nat>>, global': Option<nat>)
    requires Locked(p, threads, locks, global) && t < |threads| && ThreadOk(p, t, th)
    requires |locks'| == |locks| && forall v: nat | v < |locks| :: Moves(locks[v], locks'[v], t)
    requires forall v: nat | v < |locks| :: Has(p, t, th, v) <==> locks'[v] == Some(t)
    requires Moves(global, global', t) && (HasGlobal(p, t, th) <==> global' == Some(t))
    ensures Locked(p, threads[t := th], locks', global')
  {
    var threads' := threads[t := th];
    forall u: nat, v: nat | u < |threads| && v < |locks|
      ensures Has(p, u, threads'[u], v) <==> locks'[v] == Some(u)
    {
      assert Moves(locks[v], locks'[v], t);
      assert Has(p, u, threads[u], v) <==> locks[v] == Some(u);
    }
  }

  lemma StepSized(p: Program, s: State, t: nat)
    requires Sized(p, s) && CanStep(p, s, t)
    ensures Sized(p, Step(p, s, t))
  {
  }

  ghost predicate LockedState(p: Program, s: State)
  {
    Sized(p, s) && Locked(p, s.threads, s.locks, s.global)
  }

  lemma FirstLocked(p: Program, s: State, t: nat)
    requires LockedState(p, s) && CanStep(p, s, t) && s.threads[t].pc == First
    ensures var s' := FirstStep(p, s, t); Locked(p, s'.threads, s'.locks, s'.global)
  {
    var s' := FirstStep(p, s, t);
    assert ThreadOk(p, t, s.threads[t]);
    LockedUpdate(p, s.threads, s.locks, s.global, t, s'.threads[t], s'.locks, s'.global);
    assert s'.threads == s.threads[t := s'.threads[t]];
  }

  lemma SecondLocked(p: Program, s: State, t: nat)
    requires LockedState(p, s) && CanStep(p, s, t) && s.threads[t].pc == Second
    ensures var s' := SecondStep(p, s, t); Locked(p, s'.threads, s'.locks, s'.global)
  {
    var s' := SecondStep(p, s, t);
    assert ThreadOk(p, t, s.threads[t]);
    LockedUpdate(p, s.threads, s.locks, s.global, t, s'.threads[t], s'.locks, s'.global);
  }

  lemma GlobalLocked(p: Program, s: State, t: nat)
    requires LockedState(p, s) && CanStep(p, s, t)
    requires s.threads[t].pc == Enter || s.threads[t].pc == Leave || s.threads[t].pc == Backoff
    ensures var s' := Step(p, s, t); Locked(p, s'.threads, s'.locks, s'.global)
  {
    var s' := Step(p, s, t);
    assert ThreadOk(p, t, s.threads[t]);
    LockedUpdate(p, s.threads, s.locks, s.global, t, s'.threads[t], s'.locks, s'.global);
  }

  lemma ReadLocked(p: Program, s: State, t: nat)
    requires LockedState(p, s) && CanStep(p, s, t)
    requires s.threads[t].pc == ReadDst || s.threads[t].pc == ReadSrc
    ensures var s' := Step(p, s, t); Locked(p, s'.threads, s'.locks, s'.global)
  {
    var s' := Step(p, s, t);
    assert ThreadOk(p, t, s.threads[t]);
    LockedUpdate(p, s.threads, s.locks, s.global, t, s'.threads[t], s'.locks, s'.global);
  }

  lemma WriteLocked(p: Program, s: State, t: nat)
    requires LockedState(p, s) && CanStep(p, s, t) && s.threads[t].pc == Write
    ensures var s' := WriteStep(p, s, t); Locked(p, s'.threads, s'.locks, s'.global)
  {
    var s' := WriteStep(p, s, t);
    assert ThreadOk(p, t, s.threads[t]);
    LockedUpdate(p, s.threads, s.locks, s.global, t, s'.threads[t], s'.locks, s'.global);
  }

  lemma ReleaseLocked(p: Program, s: State, t: nat)
    requires LockedState(p, s) && CanStep(p, s, t)
    requires s.threads[t].pc == Release1 || s.threads[t].pc == Release2
    ensures var s' := ReleaseStep(p, s, t); Locked(p, s'.threads, s'.locks, s'.global)
  {
    var s' := ReleaseStep(p, s, t);
    assert ThreadOk(p, t, s.threads[t]);
    assert forall v: nat | v < |s.locks| :: Has(p, t, s.threads[t], v) <==> s.locks[v] == Some(t);
    ReleaseShape(p, s, t);
    LockedUpdate(p, s.threads, s.locks, s.global, t, s'.threads[t], s'.locks, s'.global);
  }

  /** What a release changes. */
  lemma ReleaseShape(p: Program, s: State, t: nat)
    requires Sized(p, s) && CanStep(p, s, t) && ThreadOk(p, t, s.threads[t])
    requires forall v: nat | v < |s.locks| :: Has(p, t, s.threads[t], v) <==> s.locks[v] == Some(t)
    requires s.threads[t].pc == Release1 || s.threads[t].pc == Release2
    ensures var s' := ReleaseStep(p, s, t);
      && s'.threads == s.threads[t := s'.threads[t]] && ThreadOk(p, t, s'.threads[t])
      && |s'.locks| == |s.locks| && (forall v: nat | v < |s.locks| :: Moves(s.locks[v], s'.locks[v], t))
      && (forall v: nat | v < |s.locks| :: Has(p, t, s'.threads[t], v) <==> s'.locks[v] == Some(t))
      && s'.global == s.global && !HasGlobal(p, t, s'.threads[t]) && !HasGlobal(p, t, s.threads[t])
  {
  }

  lemma {:induction false} StepLocked(p: Program, s: State, t: nat)
    requires LockedState(p, s) && CanStep(p, s, t)
    ensures LockedState(p, Step(p, s, t))
  {
    StepSized(p, s, t);
    var pc := s.threads[t].pc;
    if pc == First { FirstLocked(p, s, t); }
    else if pc == Second { SecondLocked(p, s, t); }
    else if pc == ReadDst || pc == ReadSrc { ReadLocked(p, s, t); }
    else if pc == Write { WriteLocked(p, s, t); }
    else if pc == Release1 || pc == Release2 { ReleaseLocked(p, s, t); }
    else { GlobalLocked(p, s, t); }
  }

  // ---- Values ----

  /** Is thread `t` between acquiring its last lock and finishing its loop, with destination `v`? */
  predicate Active(p: Program, t: nat, th: Thread, v: nat)
  {
    Busy(p, t, th) && (th.pc == Leave || InLoop(th.pc)) && CallOf(p, t, th).dst == v
  }

  /** The first `k` elements already have their final value, the others have yet to be added to. */
  ghost predicate Blend(now: seq<int>, src: seq<int>, goal: seq<int>, k: nat)
  {
    && |now| == |src| == |goal| == VECTOR_SIZE
    && forall j: nat | j < VECTOR_SIZE :: goal[j] == if j < k then now[j] else now[j] + src[j]
  }

  /** Vector `v` is what the serial execution `goal` makes it, except for the part that the
      thread which is adding to it has still to do. */
  ghost predicate VectorOk(p: Program, threads: seq<Thread>, lock: Option<nat>, values: seq<seq<int>>, goal: seq<int>,
                           v: nat)
    requires v < |values|
  {
    if lock.Some? && lock.value < |threads| && Active(p, lock.value, threads[lock.value], v) then
      var t := lock.value;
      var src := CallOf(p, t, threads[t]).src;
      src < |values| && Blend(values[v], values[src], goal, threads[t].k)
    else values[v] == goal
  }

  ghost predicate VectorsOk(p: Program, threads: seq<Thread>, locks: seq<Option<nat>>, values: seq<seq<int>>,
                            goal: seq<seq<int>>)
  {
    && |locks| == |values| == |goal|
    && forall v: nat | v < |values| :: VectorOk(p, threads, locks[v], values, goal[v], v)
  }

  /** What a thread has read is still what is there. */
  ghost predicate RegOk(p: Program, t: nat, th: Thread, values: seq<seq<int>>)
  {
    Busy(p, t, th) ==>
      var c := CallOf(p, t, th);
      && (th.pc == Leave ==> th.k == 0)
      && (c.dst < |values| && c.src < |values| && th.k < |values[c.dst]| && th.k < |values[c.src]| ==>
          && (th.pc == ReadSrc ==> th.reg == values[c.dst][th.k])
          && (th.pc == Write ==> th.reg == values[c.dst][th.k] + values[c.src][th.k]))
  }

  ghost predicate RegsOk(p: Program, threads: seq<Thread>, values: seq<seq<int>>)
  {
    forall t: nat | t < |threads| :: RegOk(p, t, threads[t], values)
  }

  /** A thread that is not adding before or after its step disturbs nothing. */
  lemma Quiet(p: Program, threads: seq<Thread>, locks: seq<Option<nat>>, values: seq<seq<int>>, goal: seq<seq<int>>,
              t: nat, th: Thread, locks': seq<Option<nat>>)
    requires VectorsOk(p, threads, locks, values, goal) && t < |threads|
    requires |locks'| == |locks| && forall v: nat | v < |locks| :: Moves(locks[v], locks'[v], t)
    requires forall v: nat :: !Active(p, t, threads[t], v) && !Active(p, t, th, v)
    ensures VectorsOk(p, threads[t := th], locks', values, goal)
  {
    forall v: nat | v < |values|
      ensures VectorOk(p, threads[t := th], locks'[v], values, goal[v], v)
    {
      assert Moves(locks[v], locks'[v], t);
      assert VectorOk(p, threads, locks[v], values, goal[v], v);
    }
  }

  /** A thread that only reads keeps its part of the work. */
  lemma Reading(p: Program, threads: seq<Thread>, locks: seq<Option<nat>>, values: seq<seq<int>>, goal: seq<seq<int>>,
                t: nat, th: Thread)
    requires VectorsOk(p, threads, locks, values, goal) && t < |threads|
    requires th.call == threads[t].call && th.k == threads[t].k
    requires forall v: nat :: Active(p, t, threads[t], v) <==> Active(p, t, th, v)
    ensures VectorsOk(p, threads[t := th], locks, values, goal)
  {
    forall v: nat | v < |values|
      ensures VectorOk(p, threads[t := th], locks[v], values, goal[v], v)
    {
      assert VectorOk(p, threads, locks[v], values, goal[v], v);
    }
  }

  /** Holding both locks and about to start, a thread commits its call to the serial order. */
  lemma Committing(p: Program, threads: seq<Thread>, locks: seq<Option<nat>>, values: seq<seq<int>>,
                   goal: seq<seq<int>>,
                   t: nat, th: Thread, locks': seq<Option<nat>>, c: Call)
    requires VectorsOk(p, threads, locks, values, goal) && t < |threads|
    requires forall v: nat | v < |values| :: |values[v]| == |goal[v]| == VECTOR_SIZE
    requires |locks'| == |locks| && forall v: nat | v < |locks| :: Moves(locks[v], locks'[v], t)
    requires forall v: nat :: !Active(p, t, threads[t], v)
    requires Busy(p, t, th) && CallOf(p, t, th) == c && (th.pc == Leave || InLoop(th.pc)) && th.k == 0
    requires c.dst < |locks| && c.src < |locks| && locks'[c.dst] == locks'[c.src] == Some(t)
    ensures VectorsOk(p, threads[t := th], locks', values, goal[c.dst := Sum(goal[c.dst], goal[c.src])])
  {
    assert Moves(locks[c.dst], locks'[c.dst], t) && Moves(locks[c.src], locks'[c.src], t);
    assert VectorOk(p, threads, locks[c.dst], values, goal[c.dst], c.dst);
    assert VectorOk(p, threads, locks[c.src], values, goal[c.src], c.src);
    assert values[c.dst] == goal[c.dst] && values[c.src] == goal[c.src];
    var goal' := goal[c.dst := Sum(goal[c.dst], goal[c.src])];
    forall v: nat | v < |values|
      ensures VectorOk(p, threads[t := th], locks'[v], values, goal'[v], v)
    {
      assert Moves(locks[v], locks'[v], t);
      assert VectorOk(p, threads, locks[v], values, goal[v], v);
      assert Active(p, t, th, v) <==> v == c.dst;
    }
  }

  /** Nobody else is adding from or to a vector whose lock thread `t` holds. */
  lemma Alone(p: Program, threads: seq<Thread>, locks: seq<Option<nat>>, global: Option<nat>, t: nat, u: nat, v: nat,
              d: nat)
    requires p.mode != NoLock && Locked(p, threads, locks, global)
    requires t < |threads| && u < |threads| && u != t && d < |locks| && Has(p, t, threads[t], d)
    ensures Active(p, u, threads[u], v) ==> v != d && CallOf(p, u, threads[u]).src != d
  {
    assert Has(p, u, threads[u], d) <==> locks[d] == Some(u);
  }

  /** Writing one element brings the destination one element closer. */
  lemma Writing(p: Program, threads: seq<Thread>, locks: seq<Option<nat>>, global: Option<nat>, values: seq<seq<int>>,
                goal: seq<seq<int>>,
                t: nat, th: Thread, c: Call, k: nat)
    requires p.mode != NoLock && Locked(p, threads, locks, global) && t < |threads|
    requires VectorsOk(p, threads, locks, values, goal)
    requires Active(p, t, threads[t], c.dst) && CallOf(p, t, threads[t]) == c && threads[t].k == k < VECTOR_SIZE
    requires c.dst < |values| && c.src < |values| && |values[c.dst]| == |values[c.src]| == VECTOR_SIZE
    requires th.call == threads[t].call
    requires if k + 1 < VECTOR_SIZE then InLoop(th.pc) && th.k == k + 1 else th.pc == Release1
    ensures VectorsOk(p, threads[t := th], locks,
              values[c.dst := values[c.dst][k := values[c.dst][k] + values[c.src][k]]], goal)
  {
    var d := c.dst;
    var values' := values[d := values[d][k := values[d][k] + values[c.src][k]]];
    assert Has(p, t, threads[t], d) && locks[d] == Some(t);
    forall v: nat | v < |values|
      ensures VectorOk(p, threads[t := th], locks[v], values', goal[v], v)
    {
      assert VectorOk(p, threads, locks[v], values, goal[v], v);
      if v != d && locks[v].Some? && locks[v].value < |threads| && locks[v].value != t {
        Alone(p, threads, locks, global, t, locks[v].value, v, d);
      }
    }
  }
}
