/** Serializability of the three locking disciplines: whatever the interleaving, the vectors end
    as if the calls had been made one after the other, in the order in which they got their locks. */
module VectorSerial {
  import opened Basics
  import opened Vector
  import opened VectorInvariant

  /** How many calls of thread `t` are in the log. */
  function Committed(th: Thread): nat
  {
    th.call + if th.pc == Leave || InLoop(th.pc) || th.pc == Release1 || th.pc == Release2 then 1 else 0
  }

  ghost predicate LogOk(p: Program, threads: seq<Thread>, log: seq<Call>, who: seq<nat>)
  {
    && |log| == |who|
    && (forall i: nat | i < |log| :: log[i].dst < |p.init| && log[i].src < |p.init|)
    && (forall t: nat | t < |threads| ::
          && t < |p.scripts| && Committed(threads[t]) <= |p.scripts[t]|
          && By(log, who, t) == p.scripts[t][..Committed(threads[t])])
  }

  ghost predicate SerialState(p: Program, s: State)
  {
    && p.mode != NoLock
    && LockedState(p, s)
    && LogOk(p, s.threads, s.log, s.who)
    && VectorsOk(p, s.threads, s.locks, s.values, Serial(p.init, s.log))
    && RegsOk(p, s.threads, s.values)
  }

  lemma SameLog(p: Program, threads: seq<Thread>, log: seq<Call>, who: seq<nat>, t: nat, th: Thread)
    requires LogOk(p, threads, log, who) && t < |threads| && Committed(th) == Committed(threads[t])
    ensures LogOk(p, threads[t := th], log, who)
  {
  }

  lemma LongerLog(p: Program, threads: seq<Thread>, log: seq<Call>, who: seq<nat>, t: nat, th: Thread)
    requires LogOk(p, threads, log, who) && t < |threads| && Busy(p, t, threads[t])
    requires Committed(threads[t]) == th.call == threads[t].call && Committed(th) == th.call + 1
    requires CallOf(p, t, threads[t]).dst < |p.init| && CallOf(p, t, threads[t]).src < |p.init|
    ensures LogOk(p, threads[t := th], log + [CallOf(p, t, threads[t])], who + [t])
  {
    var c := CallOf(p, t, threads[t]);
    forall u: nat | u < |threads|
      ensures By(log + [c], who + [t], u) == p.scripts[u][..Committed(threads[t := th][u])]
    {
      ByAppend(log, who, c, t, u);
    }
  }

  lemma SerialAppend(init: seq<seq<int>>, log: seq<Call>, c: Call)
    requires forall v: nat | v < |init| :: |init[v]| == VECTOR_SIZE
    requires forall i: nat | i < |log| :: log[i].dst < |init| && log[i].src < |init|
    requires c.dst < |init| && c.src < |init|
    ensures var r := Serial(init, log); Serial(init, log + [c]) == r[c.dst := Sum(r[c.dst], r[c.src])]
  {
    assert (log + [c])[..|log|] == log;
  }

  lemma RegsWrite(p: Program, threads: seq<Thread>, locks: seq<Option<nat>>, global: Option<nat>, values: seq<seq<int>>,
                  t: nat, th: Thread, d: nat, k: nat, x: int)
    requires p.mode != NoLock && Locked(p, threads, locks, global) && RegsOk(p, threads, values)
    requires t < |threads| && d < |values| == |locks| && k < |values[d]| && Has(p, t, threads[t], d)
    requires th.pc == ReadDst || th.pc == Release1
    ensures RegsOk(p, threads[t := th], values[d := values[d][k := x]])
  {
    var values', threads' := values[d := values[d][k := x]], threads[t := th];
    forall u: nat | u < |threads'|
      ensures RegOk(p, u, threads'[u], values')
    {
      assert RegOk(p, u, threads[u], values);
      if u != t && Busy(p, u, threads[u]) && InLoop(threads[u].pc) {
        Alone(p, threads, locks, global, t, u, CallOf(p, u, threads[u]).dst, d);
      }
    }
  }

  /** What getting the last lock changes. */
  lemma CommitShape(p: Program, s: State, t: nat)
    requires Sized(p, s) && CanStep(p, s, t) && ThreadOk(p, t, s.threads[t])
    requires forall v: nat | v < |s.locks| && Has(p, t, s.threads[t], v) :: s.locks[v] == Some(t)
    requires s.threads[t].pc == First || s.threads[t].pc == Second
    requires |Step(p, s, t).log| > |s.log| && p.mode != NoLock
    ensures var th, s' := s.threads[t], Step(p, s, t);
      var c, th' := CallOf(p, t, th), s'.threads[t];
      && s'.threads == s.threads[t := th'] && s'.values == s.values && s'.log == s.log + [c] && s'.who == s.who + [t]
      && th'.call == th.call && (th'.pc == Leave || th'.pc == ReadDst) && th'.k == 0
      && c.dst < |s.locks| && c.src < |s.locks|
      && |s'.locks| == |s.locks| && (forall v: nat | v < |s.locks| :: Moves(s.locks[v], s'.locks[v], t))
      && s'.locks[c.dst] == s'.locks[c.src] == Some(t)
  {
    var th := s.threads[t];
    assert Has(p, t, th, FirstLock(p.mode, CallOf(p, t, th))) || th.pc == First;
  }

  lemma CommitSerial(p: Program, s: State, t: nat)
    requires SerialState(p, s) && CanStep(p, s, t)
    requires s.threads[t].pc == First || s.threads[t].pc == Second
    requires |Step(p, s, t).log| > |s.log|
    ensures SerialState(p, Step(p, s, t))
  {
    StepLocked(p, s, t);
    CommitShape(p, s, t);
    CommitPieces(p, s, t, Step(p, s, t), CallOf(p, t, s.threads[t]));
  }

  lemma CommitPieces(p: Program, s: State, t: nat, s': State, c: Call)
    requires SerialState(p, s) && t < |s.threads| && t < |s'.threads| && s'.threads == s.threads[t := s'.threads[t]]
    requires Busy(p, t, s.threads[t]) && c == CallOf(p, t, s.threads[t])
    requires s.threads[t].pc == First || s.threads[t].pc == Second
    requires s'.values == s.values && s'.log == s.log + [c] && s'.who == s.who + [t]
    requires var th' := s'.threads[t];
      th'.call == s.threads[t].call && (th'.pc == Leave || th'.pc == ReadDst) && th'.k == 0
    requires c.dst < |s.locks| && c.src < |s.locks|
    requires |s'.locks| == |s.locks| && forall v: nat | v < |s.locks| :: Moves(s.locks[v], s'.locks[v], t)
    requires s'.locks[c.dst] == s'.locks[c.src] == Some(t)
    ensures LogOk(p, s'.threads, s'.log, s'.who)
    ensures VectorsOk(p, s'.threads, s'.locks, s'.values, Serial(p.init, s'.log)) && RegsOk(p, s'.threads, s'.values)
  {
    LongerLog(p, s.threads, s.log, s.who, t, s'.threads[t]);
    SerialAppend(p.init, s.log, c);
    Committing(p, s.threads, s.locks, s.values, Serial(p.init, s.log), t, s'.threads[t], s'.locks, c);
    forall u: nat | u < |s'.threads|
      ensures RegOk(p, u, s'.threads[u], s'.values)
    {
      assert RegOk(p, u, s.threads[u], s.values);
    }
  }

  /** What the steps outside the loop change. */
  lemma QuietShape(p: Program, s: State, t: nat)
    requires Sized(p, s) && CanStep(p, s, t) && ThreadOk(p, t, s.threads[t])
    requires forall v: nat | v < |s.locks| && Has(p, t, s.threads[t], v) :: s.locks[v] == Some(t)
    requires s.threads[t].pc != Leave && !InLoop(s.threads[t].pc)
    requires |Step(p, s, t).log| == |s.log| && p.mode != NoLock
    ensures var s' := Step(p, s, t);
      && s'.threads == s.threads[t := s'.threads[t]]
      && s'.values == s.values && s'.log == s.log && s'.who == s.who
      && Committed(s'.threads[t]) == Committed(s.threads[t])
      && |s'.locks| == |s.locks| && (forall v: nat | v < |s.locks| :: Moves(s.locks[v], s'.locks[v], t))
      && s'.threads[t].pc != Leave && !InLoop(s'.threads[t].pc)
  {
    assert s.threads[t := s.threads[t]] == s.threads;
  }

  lemma QuietSerial(p: Program, s: State, t: nat)
    requires SerialState(p, s) && CanStep(p, s, t)
    requires s.threads[t].pc != Leave && !InLoop(s.threads[t].pc)
    requires |Step(p, s, t).log| == |s.log|
    ensures SerialState(p, Step(p, s, t))
  {
    var s' := Step(p, s, t);
    StepLocked(p, s, t);
    QuietShape(p, s, t);
    QuietPieces(p, s, t, s');
  }

  lemma QuietPieces(p: Program, s: State, t: nat, s': State)
    requires LogOk(p, s.threads, s.log, s.who) && LockedState(p, s)
    requires VectorsOk(p, s.threads, s.locks, s.values, Serial(p.init, s.log)) && RegsOk(p, s.threads, s.values)
    requires t < |s.threads| && t < |s'.threads| && s'.threads == s.threads[t := s'.threads[t]]
    requires s'.values == s.values && s'.log == s.log && s'.who == s.who
    requires Committed(s'.threads[t]) == Committed(s.threads[t])
    requires |s'.locks| == |s.locks| && forall v: nat | v < |s.locks| :: Moves(s.locks[v], s'.locks[v], t)
    requires s.threads[t].pc != Leave && !InLoop(s.threads[t].pc)
    requires s'.threads[t].pc != Leave && !InLoop(s'.threads[t].pc)
    ensures LogOk(p, s'.threads, s'.log, s'.who)
    ensures VectorsOk(p, s'.threads, s'.locks, s'.values, Serial(p.init, s'.log)) && RegsOk(p, s'.threads, s'.values)
  {
    SameLog(p, s.threads, s.log, s.who, t, s'.threads[t]);
    Quiet(p, s.threads, s.locks, s.values, Serial(p.init, s.log), t, s'.threads[t], s'.locks);
  }

  lemma ReadSerial(p: Program, s: State, t: nat)
    requires SerialState(p, s) && CanStep(p, s, t)
    requires s.threads[t].pc == Leave || s.threads[t].pc == ReadDst || s.threads[t].pc == ReadSrc
    ensures SerialState(p, Step(p, s, t))
  {
    var th, s' := s.threads[t], Step(p, s, t);
    StepLocked(p, s, t);
    assert ThreadOk(p, t, th) && RegOk(p, t, th, s.values);
    SameLog(p, s.threads, s.log, s.who, t, s'.threads[t]);
    Reading(p, s.threads, s.locks, s.values, Serial(p.init, s.log), t, s'.threads[t]);
  }

  lemma WriteSerial(p: Program, s: State, t: nat)
    requires SerialState(p, s) && CanStep(p, s, t) && s.threads[t].pc == Write
    ensures SerialState(p, Step(p, s, t))
  {
    var th, s' := s.threads[t], Step(p, s, t);
    StepLocked(p, s, t);
    SameLog(p, s.threads, s.log, s.who, t, s'.threads[t]);
    WriteValues(p, s, t);
  }

  /** What writing an element changes. */
  lemma WriteShape(p: Program, s: State, t: nat)
    requires Sized(p, s) && CanStep(p, s, t) && s.threads[t].pc == Write && p.mode != NoLock
    ensures var th, s' := s.threads[t], WriteStep(p, s, t);
      var c, th' := CallOf(p, t, th), s'.threads[t];
      && s'.locks == s.locks && s'.threads == s.threads[t := th']
      && s'.values == s.values[c.dst := s.values[c.dst][th.k := th.reg]]
      && th'.call == th.call
      && if th.k + 1 < VECTOR_SIZE then th'.pc == ReadDst && th'.k == th.k + 1 else th'.pc == Release1
  {
  }

  lemma WriteValues(p: Program, s: State, t: nat)
    requires p.mode != NoLock && LockedState(p, s) && LogOk(p, s.threads, s.log, s.who)
    requires VectorsOk(p, s.threads, s.locks, s.values, Serial(p.init, s.log)) && RegsOk(p, s.threads, s.values)
    requires CanStep(p, s, t) && s.threads[t].pc == Write
    ensures var s' := WriteStep(p, s, t);
      VectorsOk(p, s'.threads, s'.locks, s'.values, Serial(p.init, s.log)) && RegsOk(p, s'.threads, s'.values)
  {
    WriteShape(p, s, t);
    assert RegOk(p, t, s.threads[t], s.values);
    assert Has(p, t, s.threads[t], CallOf(p, t, s.threads[t]).dst);
    WritePieces(p, s, t, WriteStep(p, s, t), CallOf(p, t, s.threads[t]), Serial(p.init, s.log));
  }

  lemma WritePieces(p: Program, s: State, t: nat, s': State, c: Call, goal: seq<seq<int>>)
    requires p.mode != NoLock && Locked(p, s.threads, s.locks, s.global) && t < |s.threads| && t < |s'.threads|
    requires VectorsOk(p, s.threads, s.locks, s.values, goal) && RegsOk(p, s.threads, s.values)
    requires Busy(p, t, s.threads[t]) && c == CallOf(p, t, s.threads[t]) && s.threads[t].pc == Write
    requires s.threads[t].k < VECTOR_SIZE
    requires c.dst < |s.values| && c.src < |s.values| && |s.values[c.dst]| == |s.values[c.src]| == VECTOR_SIZE
    requires s.threads[t].reg == s.values[c.dst][s.threads[t].k] + s.values[c.src][s.threads[t].k]
    requires Has(p, t, s.threads[t], c.dst)
    requires s'.locks == s.locks && s'.threads == s.threads[t := s'.threads[t]]
    requires s'.threads[t].call == s.threads[t].call
    requires s'.values == s.values[c.dst := s.values[c.dst][s.threads[t].k := s.threads[t].reg]]
    requires if s.threads[t].k + 1 < VECTOR_SIZE
             then s'.threads[t].pc == ReadDst && s'.threads[t].k == s.threads[t].k + 1
             else s'.threads[t].pc == Release1
    ensures VectorsOk(p, s'.threads, s'.locks, s'.values, goal) && RegsOk(p, s'.threads, s'.values)
  {
    Writing(p, s.threads, s.locks, s.global, s.values, goal, t, s'.threads[t], c, s.threads[t].k);
    RegsWrite(p, s.threads, s.locks, s.global, s.values, t, s'.threads[t], c.dst, s.threads[t].k, s.threads[t].reg);
  }

  lemma StepSerial(p: Program, s: State, t: nat)
    requires SerialState(p, s) && CanStep(p, s, t)
    ensures SerialState(p, Step(p, s, t))
  {
    var pc := s.threads[t].pc;
    if pc == Write {
      WriteSerial(p, s, t);
    } else if pc == Leave || InLoop(pc) {
      ReadSerial(p, s, t);
    } else if |Step(p, s, t).log| == |s.log| {
      QuietSerial(p, s, t);
    } else {
      CommitSerial(p, s, t);
    }
  }

  lemma InitSerial(p: Program)
    requires p.WellFormed() && p.mode != NoLock
    ensures SerialState(p, Init(p))
  {
  }
}
