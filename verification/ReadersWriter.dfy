/** The readers-writer lock of `reader-writer.c`, as it is written: the last reader waits for
    `writelock` where it should post it. Readers and writers are still kept apart, but a run
    completes only if nobody ever reads. */
module ReadersWriter {
  import opened Basics

  datatype Config = Config(readers: nat, writers: nat, loops: nat)

  /** Where a thread is, named after what it does next. A reader goes from `LockIn` to `PostOut`,
      a writer from `WaitWrite` to `PostWrite`, each `loops` times. `value++` is `Load` and `Store`. */
  datatype Point =
    | LockIn | CountIn | FirstIn | PostIn
    | Read
    | LockOut | CountOut | LastOut | PostOut
    | WaitWrite | Load | Store | PostWrite
    | Done

  /** `i` is the loop variable; `reg` is what the thread last read from `value`. */
  datatype Thread = Thread(writer: bool, pc: Point, i: nat, reg: int)

  /** `lock` and `writelock` are the values of the semaphores. */
  datatype State = State(lock: nat, writelock: nat, readers: int, value: int, threads: seq<Thread>)

  function NextLoop(c: Config, writer: bool, i: nat, reg: int): Thread
  {
    Thread(writer, if i >= c.loops then Done else if writer then WaitWrite else LockIn, i, reg)
  }

  function Init(c: Config): State
  {
    State(1, 1, 0, 0, seq(c.readers + c.writers, t => NextLoop(c, t >= c.readers, 0, 0)))
  }

  predicate CanStep(s: State, t: nat)
  {
    && t < |s.threads|
    && var pc := s.threads[t].pc;
       && pc != Done
       && (pc == LockIn || pc == LockOut ==> s.lock > 0)
       && (pc == FirstIn && s.readers == 1 ==> s.writelock > 0)
       && (pc == LastOut && s.readers == 0 ==> s.writelock > 0)
       && (pc == WaitWrite ==> s.writelock > 0)
  }

  function Goto(s: State, t: nat, pc: Point): State
    requires t < |s.threads|
  {
    s.(threads := s.threads[t := s.threads[t].(pc := pc)])
  }

  function Again(c: Config, s: State, t: nat): State
    requires t < |s.threads|
  {
    s.(threads := s.threads[t := NextLoop(c, s.threads[t].writer, s.threads[t].i + 1, s.threads[t].reg)])
  }

  function Fetch(s: State, t: nat, pc: Point): State
    requires t < |s.threads|
  {
    s.(threads := s.threads[t := s.threads[t].(pc := pc, reg := s.value)])
  }

  function Step(c: Config, s: State, t: nat): State
    requires CanStep(s, t)
  {
    var th := s.threads[t];
    match th.pc
    case LockIn => Goto(s, t, CountIn).(lock := s.lock - 1)
    case CountIn => Goto(s, t, FirstIn).(readers := s.readers + 1)
    case FirstIn => Goto(s, t, PostIn).(writelock := if s.readers == 1 then s.writelock - 1 else s.writelock)
    case PostIn => Goto(s, t, Read).(lock := s.lock + 1)
    case Read => Fetch(s, t, LockOut)
    case LockOut => Goto(s, t, CountOut).(lock := s.lock - 1)
    case CountOut => Goto(s, t, LastOut).(readers := s.readers - 1)
    case LastOut => Goto(s, t, PostOut).(writelock := if s.readers == 0 then s.writelock - 1 else s.writelock)
    case PostOut => Again(c, s, t).(lock := s.lock + 1)
    case WaitWrite => Goto(s, t, Load).(writelock := s.writelock - 1)
    case Load => Fetch(s, t, Store)
    case Store => Goto(s, t, PostWrite).(value := th.reg + 1)
    case PostWrite => Again(c, s, t).(writelock := s.writelock + 1)
  }

  // ---- The invariant ----

  function AtOf(pc: Point, th: Thread): int
  {
    if th.pc == pc then 1 else 0
  }

  function At(pc: Point): (nat, Thread) -> int
  {
    (t: nat, th: Thread) => AtOf(pc, th)
  }

  /** How many threads are at a point. */
  ghost function Num(threads: seq<Thread>, pc: Point): (n: int)
  {
    Total(At(pc), threads)
  }

  ghost function Nums(threads: seq<Thread>): Point -> int
  {
    pc => Num(threads, pc)
  }

  ghost function InLock(n: Point -> int): int
  {
    n(CountIn) + n(FirstIn) + n(PostIn) + n(CountOut) + n(LastOut) + n(PostOut)
  }

  /** Readers past the wait for `writelock` and still counted. */
  ghost function Inside(n: Point -> int): int
  {
    n(PostIn) + n(Read) + n(LockOut) + n(CountOut)
  }

  ghost function Writing(n: Point -> int): int
  {
    n(Load) + n(Store) + n(PostWrite)
  }

  /** `writelock` is taken and no writer has it. */
  ghost predicate HeldBy(writelock: int, n: Point -> int)
  {
    writelock + Writing(n) == 0
  }

  ghost predicate ReadersHold(s: State)
  {
    HeldBy(s.writelock, Nums(s.threads))
  }

  ghost predicate CountedBy(lock: int, writelock: int, readers: int, n: Point -> int)
  {
    && lock + InLock(n) == 1
    && readers == n(FirstIn) + Inside(n)
    && writelock + Writing(n) <= 1
    && (Inside(n) + n(LastOut) + n(PostOut) > 0 ==> HeldBy(writelock, n))
    && (HeldBy(writelock, n) ==> Inside(n) > 0 || (n(LastOut) > 0 && readers == 0))
  }

  ghost predicate Counted(s: State)
  {
    CountedBy(s.lock, s.writelock, s.readers, Nums(s.threads))
  }

  predicate WriterPoint(pc: Point)
  {
    pc == WaitWrite || pc == Load || pc == Store || pc == PostWrite
  }

  predicate InWrite(th: Thread)
  {
    th.pc == Load || th.pc == Store || th.pc == PostWrite
  }

  /** Between the two calls of the read lock. */
  predicate InRead(th: Thread)
  {
    th.pc == Read || th.pc == LockOut || th.pc == CountOut
  }

  /** Has the reader read `value` at least once? */
  predicate HasRead(th: Thread)
  {
    !th.writer && (th.i > 0 || th.pc == LockOut || th.pc == CountOut || th.pc == LastOut || th.pc == PostOut)
  }

  predicate ThreadOk(c: Config, th: Thread, value: int, held: bool)
  {
    && (th.pc == Done <==> th.i == c.loops) && th.i <= c.loops
    && (th.pc != Done ==> (th.writer <==> WriterPoint(th.pc)))
    && (HasRead(th) ==> held && th.reg == value)
    && (th.pc == Store ==> th.reg == value)
  }

  ghost predicate ThreadsOk(c: Config, threads: seq<Thread>, value: int, held: bool)
  {
    && |threads| == c.readers + c.writers
    && forall t: nat | t < |threads| :: (threads[t].writer <==> t >= c.readers) && ThreadOk(c, threads[t], value, held)
  }

  /** The increments of a thread that have been stored. */
  function StoredOf(th: Thread): int
  {
    if th.writer then th.i + (if th.pc == PostWrite then 1 else 0) else 0
  }

  function Stored(): (nat, Thread) -> int
  {
    (t: nat, th: Thread) => StoredOf(th)
  }

  ghost predicate Inv(c: Config, s: State)
  {
    && ThreadsOk(c, s.threads, s.value, ReadersHold(s))
    && Counted(s)
    && s.value == Total(Stored(), s.threads)
  }

  lemma NumZero(threads: seq<Thread>, pc: Point)
    requires forall t: nat | t < |threads| :: threads[t].pc != pc
    ensures Num(threads, pc) == 0
  {
    TotalZero(At(pc), threads);
  }

  /** Nobody is anywhere else than before the loop, waiting for a lock, or done. */
  ghost predicate AllOutside(threads: seq<Thread>)
  {
    forall t: nat | t < |threads| :: var pc := threads[t].pc; pc == LockIn || pc == WaitWrite || pc == Done
  }

  lemma OutsideCounts(threads: seq<Thread>)
    requires AllOutside(threads)
    ensures var n := Nums(threads);
      InLock(n) == Inside(n) == Writing(n) == n(FirstIn) == n(LastOut) == n(PostOut) == 0
  {
    var n := Nums(threads);
    forall pc | pc != LockIn && pc != WaitWrite && pc != Done
      ensures n(pc) == 0
    {
      NumZero(threads, pc);
    }
    NothingInside(n);
  }

  lemma NothingInside(n: Point -> int)
    requires forall pc | pc != LockIn && pc != WaitWrite && pc != Done :: n(pc) == 0
    ensures InLock(n) == Inside(n) == Writing(n) == n(FirstIn) == n(LastOut) == n(PostOut) == 0
  {
  }

  lemma InitInv(c: Config)
    ensures Inv(c, Init(c))
  {
    InitOutside(c);
    OutsideCounts(Init(c).threads);
  }

  lemma InitOutside(c: Config)
    ensures AllOutside(Init(c).threads) && ThreadsOk(c, Init(c).threads, 0, false)
    ensures Total(Stored(), Init(c).threads) == 0
  {
    var threads := Init(c).threads;
    forall t: nat | t < |threads|
      ensures threads[t] == NextLoop(c, t >= c.readers, 0, 0) && StoredOf(threads[t]) == 0
      ensures threads[t].pc == LockIn || threads[t].pc == WaitWrite || threads[t].pc == Done
    {
    }
    TotalZero(Stored(), threads);
  }

  lemma {:induction false} NumPositive(threads: seq<Thread>, pc: Point)
    ensures Num(threads, pc) >= 0
    ensures (exists t: nat :: t < |threads| && threads[t].pc == pc) <==> Num(threads, pc) > 0
  {
    if threads != [] {
      var n := |threads| - 1;
      NumPositive(threads[..n], pc);
      assert Num(threads, pc) == Num(threads[..n], pc) + AtOf(pc, threads[n]);
      if t: nat :| t < n && threads[..n][t].pc == pc {
        assert threads[t].pc == pc;
      }
      if t: nat :| t < |threads| && threads[t].pc == pc {
        assert t < n ==> threads[..n][t].pc == pc;
      }
    }
  }

  lemma AllPositive(threads: seq<Thread>)
    ensures forall pc :: Num(threads, pc) >= 0
  {
    forall pc
      ensures Num(threads, pc) >= 0
    {
      NumPositive(threads, pc);
    }
  }

  lemma CountsUpdate(threads: seq<Thread>, t: nat, th: Thread)
    requires t < |threads|
    ensures forall pc :: Num(threads[t := th], pc) == Num(threads, pc) - AtOf(pc, threads[t]) + AtOf(pc, th)
    ensures Total(Stored(), threads[t := th]) == Total(Stored(), threads) - StoredOf(threads[t]) + StoredOf(th)
  {
    forall pc
      ensures Num(threads[t := th], pc) == Num(threads, pc) - AtOf(pc, threads[t]) + AtOf(pc, th)
    {
      TotalUpdate(At(pc), threads, t, th);
    }
    TotalUpdate(Stored(), threads, t, th);
  }

  // ---- Every step keeps the invariant ----

  lemma StepChanges(c: Config, s: State, t: nat)
    requires CanStep(s, t)
    ensures var s' := Step(c, s, t); |s'.threads| == |s.threads| && s'.threads == s.threads[t := s'.threads[t]]
  {
  }

  /** `n'` counts as `n` does, but for one thread that has gone from one point to another. */
  ghost predicate Moved(n: Point -> int, n': Point -> int, from: Point, to: Point)
  {
    && (forall pc :: n(pc) >= 0 && n'(pc) >= 0)
    && forall pc :: n'(pc) == n(pc) - (if pc == from then 1 else 0) + (if pc == to then 1 else 0)
  }

  /** What a step does to the semaphores and the counts, for each part of a thread's way. */
  lemma StepIn(c: Config, s: State, t: nat, n: Point -> int, n': Point -> int)
    requires CanStep(s, t) && CountedBy(s.lock, s.writelock, s.readers, n)
    requires var pc := s.threads[t].pc; pc == LockIn || pc == CountIn || pc == FirstIn || pc == PostIn || pc == Read
    requires Moved(n, n', s.threads[t].pc, Step(c, s, t).threads[t].pc)
    ensures var s' := Step(c, s, t);
      CountedBy(s'.lock, s'.writelock, s'.readers, n') && (HeldBy(s.writelock, n) ==> HeldBy(s'.writelock, n'))
    ensures s.threads[t].pc == Read ==> HeldBy(s.writelock, n)
  {
  }

  lemma StepOut(c: Config, s: State, t: nat, n: Point -> int, n': Point -> int)
    requires CanStep(s, t) && CountedBy(s.lock, s.writelock, s.readers, n) && !s.threads[t].writer
    requires var pc := s.threads[t].pc; pc == LockOut || pc == CountOut || pc == LastOut || pc == PostOut
    requires Moved(n, n', s.threads[t].pc, Step(c, s, t).threads[t].pc)
    ensures var s' := Step(c, s, t);
      CountedBy(s'.lock, s'.writelock, s'.readers, n') && HeldBy(s.writelock, n) && HeldBy(s'.writelock, n')
  {
  }

  lemma StepWrite(c: Config, s: State, t: nat, n: Point -> int, n': Point -> int)
    requires CanStep(s, t) && CountedBy(s.lock, s.writelock, s.readers, n) && s.threads[t].writer
    requires WriterPoint(s.threads[t].pc)
    requires Moved(n, n', s.threads[t].pc, Step(c, s, t).threads[t].pc)
    ensures var s' := Step(c, s, t); CountedBy(s'.lock, s'.writelock, s'.readers, n') && !HeldBy(s.writelock, n)
  {
  }

  lemma StepMoved(c: Config, s: State, t: nat)
    requires CanStep(s, t)
    ensures Moved(Nums(s.threads), Nums(Step(c, s, t).threads), s.threads[t].pc, Step(c, s, t).threads[t].pc)
  {
    var s' := Step(c, s, t);
    StepChanges(c, s, t);
    CountsUpdate(s.threads, t, s'.threads[t]);
    AllPositive(s.threads);
    AllPositive(s'.threads);
  }

  lemma StepCounted(c: Config, s: State, t: nat)
    requires CanStep(s, t) && Counted(s)
    requires s.threads[t].writer <==> WriterPoint(s.threads[t].pc)
    ensures Counted(Step(c, s, t))
    ensures ReadersHold(s) ==> ReadersHold(Step(c, s, t)) && Step(c, s, t).value == s.value
    ensures s.threads[t].pc == PostOut || s.threads[t].pc == Read ==> ReadersHold(s)
  {
    var pc, n, n' := s.threads[t].pc, Nums(s.threads), Nums(Step(c, s, t).threads);
    StepMoved(c, s, t);
    if WriterPoint(pc) {
      StepWrite(c, s, t, n, n');
    } else if pc == LockOut || pc == CountOut || pc == LastOut || pc == PostOut {
      StepOut(c, s, t, n, n');
    } else {
      StepIn(c, s, t, n, n');
    }
  }

  lemma StepThread(c: Config, s: State, t: nat, held: bool, held': bool)
    requires CanStep(s, t) && ThreadOk(c, s.threads[t], s.value, held)
    requires (held ==> held') && (s.threads[t].pc == PostOut || s.threads[t].pc == Read ==> held)
    requires held ==> Step(c, s, t).value == s.value
    ensures var s' := Step(c, s, t);
      ThreadOk(c, s'.threads[t], s'.value, held') && s'.threads[t].writer == s.threads[t].writer
  {
  }

  /** A step of one thread leaves what is known of another: only a writer inside changes `value`. */
  lemma StepOther(c: Config, s: State, t: nat, u: nat)
    requires CanStep(s, t) && Counted(s) && u < |s.threads| && u != t
    requires ThreadOk(c, s.threads[u], s.value, ReadersHold(s))
    requires s.threads[t].writer <==> WriterPoint(s.threads[t].pc)
    ensures ThreadOk(c, s.threads[u], Step(c, s, t).value, ReadersHold(Step(c, s, t)))
  {
    StepCounted(c, s, t);
    if s.threads[u].pc == Store && s.threads[t].pc == Store {
      TwoWriters(s.threads, t, u);
    }
  }

  lemma TwoWriters(threads: seq<Thread>, t: nat, u: nat)
    requires t < |threads| && u < |threads| && t != u && InWrite(threads[t]) && InWrite(threads[u])
    ensures Writing(Nums(threads)) >= 2
  {
    var gone := threads[t := threads[t].(pc := Done)];
    CountsUpdate(threads, t, threads[t].(pc := Done));
    AllPositive(gone);
    assert gone[u].pc == threads[u].pc;
    NumPositive(gone, threads[u].pc);
  }

  lemma StepThreads(c: Config, s: State, t: nat)
    requires ThreadsOk(c, s.threads, s.value, ReadersHold(s)) && Counted(s) && CanStep(s, t)
    ensures ThreadsOk(c, Step(c, s, t).threads, Step(c, s, t).value, ReadersHold(Step(c, s, t)))
  {
    var s' := Step(c, s, t);
    assert ThreadOk(c, s.threads[t], s.value, ReadersHold(s));
    StepChanges(c, s, t);
    StepCounted(c, s, t);
    StepThread(c, s, t, ReadersHold(s), ReadersHold(s'));
    forall u: nat | u < |s'.threads|
      ensures (s'.threads[u].writer <==> u >= c.readers) && ThreadOk(c, s'.threads[u], s'.value, ReadersHold(s'))
    {
      if u != t {
        StepOther(c, s, t, u);
      }
    }
  }

  lemma StepStored(c: Config, s: State, t: nat)
    requires CanStep(s, t) && s.value == Total(Stored(), s.threads)
    requires ThreadOk(c, s.threads[t], s.value, ReadersHold(s))
    ensures Step(c, s, t).value == Total(Stored(), Step(c, s, t).threads)
  {
    StepChanges(c, s, t);
    TotalUpdate(Stored(), s.threads, t, Step(c, s, t).threads[t]);
  }

  lemma {:induction false} StepKeepsInv(c: Config, s: State, t: nat)
    requires Inv(c, s) && CanStep(s, t)
    ensures Inv(c, Step(c, s, t))
    ensures ReadersHold(s) ==> ReadersHold(Step(c, s, t)) && Step(c, s, t).value == s.value
  {
    assert ThreadOk(c, s.threads[t], s.value, ReadersHold(s));
    StepCounted(c, s, t);
    StepThreads(c, s, t);
    StepStored(c, s, t);
  }

  // ---- Whole runs ----

  /** The state after the threads in `ts` have stepped, oldest first; a step that cannot be taken does nothing. */
  ghost function After(c: Config, ts: seq<nat>): State
  {
    if ts == [] then Init(c)
    else
      var s := After(c, ts[..|ts| - 1]);
      if CanStep(s, ts[|ts| - 1]) then Step(c, s, ts[|ts| - 1]) else s
  }

  ghost predicate IsRun(c: Config, ts: seq<nat>)
  {
    ts == [] || (IsRun(c, ts[..|ts| - 1]) && CanStep(After(c, ts[..|ts| - 1]), ts[|ts| - 1]))
  }

  lemma {:induction false} RunInv(c: Config, ts: seq<nat>)
    requires IsRun(c, ts)
    ensures Inv(c, After(c, ts))
  {
    if ts == [] {
      InitInv(c);
    } else {
      RunInv(c, ts[..|ts| - 1]);
      StepKeepsInv(c, After(c, ts[..|ts| - 1]), ts[|ts| - 1]);
    }
  }

  lemma Excluded(c: Config, s: State, t: nat, u: nat)
    requires Inv(c, s) && t < |s.threads| && u < |s.threads| && t != u && InWrite(s.threads[t])
    ensures !InWrite(s.threads[u]) && !InRead(s.threads[u])
  {
    AllPositive(s.threads);
    NumPositive(s.threads, s.threads[t].pc);
    NumPositive(s.threads, s.threads[u].pc);
    if InWrite(s.threads[u]) {
      TwoWriters(s.threads, t, u);
    }
  }

  lemma ReaderInside(c: Config, s: State, t: nat)
    requires Inv(c, s) && t < |s.threads| && InRead(s.threads[t])
    ensures ReadersHold(s)
  {
    AllPositive(s.threads);
    NumPositive(s.threads, s.threads[t].pc);
  }

  /** In every reachable state a writer inside is alone, and `value` counts the stored increments
      although an increment is two steps. */
  lemma AlwaysExclusive(c: Config, ts: seq<nat>)
    requires IsRun(c, ts)
    ensures var s := After(c, ts);
      && (forall t: nat, u: nat | t < |s.threads| && u < |s.threads| && t != u && InWrite(s.threads[t]) ::
            !InWrite(s.threads[u]) && !InRead(s.threads[u]))
      && s.value == Total(Stored(), s.threads)
  {
    RunInv(c, ts);
    var s := After(c, ts);
    forall t: nat, u: nat | t < |s.threads| && u < |s.threads| && t != u && InWrite(s.threads[t])
      ensures !InWrite(s.threads[u]) && !InRead(s.threads[u])
    {
      Excluded(c, s, t, u);
    }
  }

  lemma {:induction false} StillHeld(c: Config, ts: seq<nat>, longer: seq<nat>)
    requires IsRun(c, longer) && ts <= longer && IsRun(c, ts) && ReadersHold(After(c, ts))
    ensures ReadersHold(After(c, longer)) && After(c, longer).value == After(c, ts).value
  {
    if |longer| > |ts| {
      var n := |longer| - 1;
      StillHeld(c, ts, longer[..n]);
      RunInv(c, longer[..n]);
      StepKeepsInv(c, After(c, longer[..n]), longer[n]);
    } else {
      assert ts == longer;
    }
  }

  lemma NoWriters(s: State)
    requires ReadersHold(s)
    ensures forall u: nat | u < |s.threads| :: !InWrite(s.threads[u])
  {
    AllPositive(s.threads);
    NumPositive(s.threads, Load);
    NumPositive(s.threads, Store);
    NumPositive(s.threads, PostWrite);
  }

  /** Once a reader is inside, no writer is ever inside again and `value` never changes, so no
      reader sees it change. */
  lemma {:induction false} FrozenOnceRead(c: Config, ts: seq<nat>, longer: seq<nat>, t: nat)
    requires IsRun(c, ts) && t < |After(c, ts).threads| && InRead(After(c, ts).threads[t])
    requires IsRun(c, longer) && ts <= longer
    ensures After(c, longer).value == After(c, ts).value
    ensures forall u: nat | u < |After(c, longer).threads| :: !InWrite(After(c, longer).threads[u])
  {
    RunInv(c, ts);
    ReaderInside(c, After(c, ts), t);
    StillHeld(c, ts, longer);
    NoWriters(After(c, longer));
  }

  lemma ReaderHas(c: Config, ts: seq<nat>, t: nat)
    requires IsRun(c, ts) && t < |After(c, ts).threads| && HasRead(After(c, ts).threads[t])
    ensures var s := After(c, ts); ReadersHold(s) && s.threads[t].reg == s.value == Total(Stored(), s.threads)
  {
    RunInv(c, ts);
    var s := After(c, ts);
    assert ThreadOk(c, s.threads[t], s.value, ReadersHold(s));
  }

  /** What a reader reads is the number of increments stored, and all readers of a run, whenever they
      read, read the same. */
  lemma {:induction false} AllReadAlike(c: Config, ts: seq<nat>, t: nat, longer: seq<nat>, u: nat)
    requires IsRun(c, ts) && t < |After(c, ts).threads| && HasRead(After(c, ts).threads[t])
    requires IsRun(c, longer) && u < |After(c, longer).threads| && HasRead(After(c, longer).threads[u]) && ts <= longer
    ensures var s, s' := After(c, ts), After(c, longer);
      && s.threads[t].reg == Total(Stored(), s.threads)
      && s'.threads[u].reg == Total(Stored(), s'.threads)
      && s'.threads[u].reg == s.threads[t].reg
  {
    ReaderHas(c, ts, t);
    ReaderHas(c, longer, u);
    StillHeld(c, ts, longer);
  }

  // ---- Which runs complete ----

  ghost predicate Finished(s: State)
  {
    forall t: nat | t < |s.threads| :: s.threads[t].pc == Done
  }

  ghost predicate Stuck(s: State)
  {
    forall t: nat | t < |s.threads| :: !CanStep(s, t)
  }

  /** Somebody who holds `lock` waits for `writelock`, which no writer has and nobody will post; all
      others wait for one of the two or are done. */
  ghost predicate LastReaderWaits(s: State, last: nat)
  {
    && last < |s.threads| && s.threads[last].pc == LastOut && s.readers == 0
    && s.lock == 0 && s.writelock == 0
    && forall t: nat | t < |s.threads| && t != last ::
         var pc := s.threads[t].pc; pc == LockIn || pc == WaitWrite || pc == Done
  }

  /** Whoever is inside `lock` can step unless it is the last reader on its way out. */
  lemma StuckInLock(c: Config, s: State)
    requires Inv(c, s) && Stuck(s)
    ensures s.lock == 0 ==> Num(s.threads, LastOut) > 0 && s.readers == 0
  {
    AllPositive(s.threads);
    forall pc | pc == CountIn || pc == PostIn || pc == CountOut || pc == PostOut
      ensures Num(s.threads, pc) == 0
    {
      NobodyAt(s, pc);
    }
    if Num(s.threads, FirstIn) > 0 {
      FirstWaits(c, s);
    }
    if Num(s.threads, LastOut) > 0 {
      NumPositive(s.threads, LastOut);
      var t: nat :| t < |s.threads| && s.threads[t].pc == LastOut;
      assert !CanStep(s, t);
    }
  }

  lemma NobodyAt(s: State, pc: Point)
    requires Stuck(s)
    requires pc == CountIn || pc == PostIn || pc == CountOut || pc == PostOut || pc == Read
          || pc == Load || pc == Store || pc == PostWrite
          || (pc == LockOut && s.lock > 0)
    ensures Num(s.threads, pc) == 0
  {
    forall t: nat | t < |s.threads|
      ensures s.threads[t].pc != pc
    {
      assert !CanStep(s, t);
    }
    NumZero(s.threads, pc);
  }

  /** A first reader can always get in while no writer is inside. */
  lemma FirstGetsIn(s: State, t: nat)
    requires Counted(s) && t < |s.threads| && s.threads[t].pc == FirstIn && Writing(Nums(s.threads)) == 0
    ensures CanStep(s, t)
  {
    AllPositive(s.threads);
    NumPositive(s.threads, FirstIn);
  }

  lemma FirstWaits(c: Config, s: State)
    requires Inv(c, s) && Stuck(s)
    ensures Num(s.threads, FirstIn) == 0
  {
    NumPositive(s.threads, FirstIn);
    NobodyAt(s, Load);
    NobodyAt(s, Store);
    NobodyAt(s, PostWrite);
    if t: nat :| t < |s.threads| && s.threads[t].pc == FirstIn {
      FirstGetsIn(s, t);
    }
  }

  /** A run that cannot go on has finished, or the last reader waits for ever. */
  lemma StuckShape(c: Config, s: State)
    requires Inv(c, s) && Stuck(s) && !Finished(s)
    ensures exists last: nat :: LastReaderWaits(s, last)
  {
    AllPositive(s.threads);
    StuckInLock(c, s);
    NobodyAt(s, Load);
    NobodyAt(s, Store);
    NobodyAt(s, PostWrite);
    if s.lock > 0 {
      StuckFree(c, s);
    } else {
      NumPositive(s.threads, LastOut);
      var last: nat :| last < |s.threads| && s.threads[last].pc == LastOut;
      assert !CanStep(s, last);
      forall t: nat | t < |s.threads| && t != last
        ensures var pc := s.threads[t].pc; pc == LockIn || pc == WaitWrite || pc == Done
      {
        assert !CanStep(s, t);
        NotBesideLast(c, s, last, t);
      }
      assert LastReaderWaits(s, last);
    }
  }

  lemma StuckFree(c: Config, s: State)
    requires Inv(c, s) && Stuck(s) && s.lock > 0
    ensures Finished(s)
  {
    FreeWritelock(c, s);
    AllPositive(s.threads);
    forall t: nat | t < |s.threads|
      ensures s.threads[t].pc == Done
    {
      assert !CanStep(s, t);
      NumPositive(s.threads, s.threads[t].pc);
    }
  }

  lemma FreeWritelock(c: Config, s: State)
    requires Inv(c, s) && Stuck(s) && s.lock > 0
    ensures s.writelock > 0
  {
    AllPositive(s.threads);
    NobodyAt(s, Load);
    NobodyAt(s, Store);
    NobodyAt(s, PostWrite);
    NobodyAt(s, Read);
    NobodyAt(s, LockOut);
  }

  lemma NotBesideLast(c: Config, s: State, last: nat, t: nat)
    requires Inv(c, s) && last < |s.threads| && s.threads[last].pc == LastOut && s.readers == 0
    requires t < |s.threads| && t != last && !CanStep(s, t)
    ensures var pc := s.threads[t].pc; pc == LockIn || pc == WaitWrite || pc == Done
  {
    AllPositive(s.threads);
    NumPositive(s.threads, LastOut);
    NumPositive(s.threads, s.threads[t].pc);
    if s.threads[t].pc == LastOut {
      var gone := s.threads[t := s.threads[t].(pc := Done)];
      CountsUpdate(s.threads, t, s.threads[t].(pc := Done));
      assert gone[last].pc == LastOut;
      NumPositive(gone, LastOut);
    }
  }

  /** With a reader that has read, somebody is not done. */
  lemma ReadersNeverFinish(c: Config, s: State)
    requires Inv(c, s) && Finished(s)
    ensures c.readers == 0 || c.loops == 0
  {
    OutsideCounts(s.threads);
    assert c.readers > 0 ==> ThreadOk(c, s.threads[0], s.value, ReadersHold(s));
  }

  /** Steps left to a thread. */
  function WorkOf(c: Config, th: Thread): int
  {
    var loops := c.loops - th.i;
    if th.writer then 4 * loops - Into(th.pc) else 9 * loops - Into(th.pc)
  }

  function Into(pc: Point): nat
  {
    match pc
    case LockIn => 0
    case CountIn => 1
    case FirstIn => 2
    case PostIn => 3
    case Read => 4
    case LockOut => 5
    case CountOut => 6
    case LastOut => 7
    case PostOut => 8
    case WaitWrite => 0
    case Load => 1
    case Store => 2
    case PostWrite => 3
    case Done => 0
  }

  function Work(c: Config): (nat, Thread) -> int
  {
    (t: nat, th: Thread) => WorkOf(c, th)
  }

  lemma StepWorks(c: Config, s: State, t: nat)
    requires CanStep(s, t) && ThreadOk(c, s.threads[t], s.value, ReadersHold(s))
    ensures Total(Work(c), Step(c, s, t).threads) == Total(Work(c), s.threads) - 1
  {
    StepChanges(c, s, t);
    OneLess(c, s, t);
    TotalUpdate(Work(c), s.threads, t, Step(c, s, t).threads[t]);
  }

  lemma OneLess(c: Config, s: State, t: nat)
    requires CanStep(s, t) && ThreadOk(c, s.threads[t], s.value, ReadersHold(s))
    ensures WorkOf(c, Step(c, s, t).threads[t]) == WorkOf(c, s.threads[t]) - 1
  {
  }

  lemma WorkNonNegative(c: Config, s: State)
    requires ThreadsOk(c, s.threads, s.value, ReadersHold(s))
    ensures Total(Work(c), s.threads) >= 0
  {
    forall t: nat | t < |s.threads|
      ensures Work(c)(t, s.threads[t]) >= 0
    {
      assert ThreadOk(c, s.threads[t], s.value, ReadersHold(s));
    }
    TotalNonNegative(Work(c), s.threads);
  }

  lemma {:induction false} FirstWork(c: Config, threads: seq<Thread>, n: nat, read: nat, write: nat)
    requires n == |threads| && forall t: nat | t < n :: threads[t] == NextLoop(c, t >= c.readers, 0, 0)
    requires read == 9 * c.loops && write == 4 * c.loops
    ensures Total(Work(c), threads) == if n <= c.readers then read * n else read * c.readers + write * (n - c.readers)
  {
    if n > 0 {
      FirstWork(c, threads[..n - 1], n - 1, read, write);
      OneMoreTimes(read, n);
      OneMoreTimes(write, n - c.readers);
      var w := WorkOf(c, threads[n - 1]);
      assert w == if n <= c.readers then read else write;
    }
  }

  lemma OneMoreTimes(a: int, k: int)
    ensures a * k == a * (k - 1) + a
  {
  }

  /** Every step is one of the 9 of a reader's round or the 4 of a writer's. */
  lemma {:induction false} RunWork(c: Config, ts: seq<nat>)
    requires IsRun(c, ts)
    ensures |ts| + Total(Work(c), After(c, ts).threads) == 9 * c.loops * c.readers + 4 * c.loops * c.writers
  {
    if ts == [] {
      FirstWork(c, Init(c).threads, c.readers + c.writers, 9 * c.loops, 4 * c.loops);
    } else {
      RunWork(c, ts[..|ts| - 1]);
      RunInv(c, ts[..|ts| - 1]);
      var s, t := After(c, ts[..|ts| - 1]), ts[|ts| - 1];
      assert ThreadOk(c, s.threads[t], s.value, ReadersHold(s));
      StepWorks(c, s, t);
    }
  }

  /** Every run is finite. */
  lemma RunsAreShort(c: Config, ts: seq<nat>)
    requires IsRun(c, ts)
    ensures |ts| <= 9 * c.loops * c.readers + 4 * c.loops * c.writers
  {
    RunWork(c, ts);
    RunInv(c, ts);
    WorkNonNegative(c, After(c, ts));
  }

  lemma {:induction false} AllStored(c: Config, threads: seq<Thread>, n: nat)
    requires n == |threads| && forall t: nat | t < n :: threads[t].pc == Done && threads[t].i == c.loops
    requires forall t: nat | t < n :: threads[t].writer <==> t >= c.readers
    ensures Total(Stored(), threads) == if n <= c.readers then 0 else (n - c.readers) * c.loops
  {
    if n > 0 {
      AllStored(c, threads[..n - 1], n - 1);
      assert n > c.readers ==> (n - c.readers) * c.loops == (n - 1 - c.readers) * c.loops + c.loops;
    }
  }

  /** A run that cannot go on: if there is anything to read, the last reader waits for ever, holding
      `lock`; if not, every thread is done and every increment has been stored. */
  lemma EveryMaximalRun(c: Config, ts: seq<nat>)
    requires IsRun(c, ts) && Stuck(After(c, ts))
    ensures if c.readers > 0 && c.loops > 0 then exists last: nat :: LastReaderWaits(After(c, ts), last)
            else Finished(After(c, ts)) && After(c, ts).value == c.writers * c.loops
  {
    var s := After(c, ts);
    RunInv(c, ts);
    if Finished(s) {
      ReadersNeverFinish(c, s);
      FinishedValue(c, s);
    } else {
      StuckShape(c, s);
      var last: nat :| LastReaderWaits(s, last);
      LastReaderReads(c, s, last);
    }
  }

  lemma FinishedValue(c: Config, s: State)
    requires ThreadsOk(c, s.threads, s.value, ReadersHold(s)) && s.value == Total(Stored(), s.threads) && Finished(s)
    ensures s.value == c.writers * c.loops
  {
    forall t: nat | t < |s.threads|
      ensures s.threads[t].i == c.loops
    {
      assert ThreadOk(c, s.threads[t], s.value, ReadersHold(s));
    }
    AllStored(c, s.threads, |s.threads|);
  }

  lemma LastReaderReads(c: Config, s: State, last: nat)
    requires Inv(c, s) && LastReaderWaits(s, last)
    ensures c.readers > 0 && c.loops > 0
  {
    assert ThreadOk(c, s.threads[last], s.value, ReadersHold(s));
  }

  lemma OneMore(c: Config, ts: seq<nat>, t: nat)
    requires IsRun(c, ts) && CanStep(After(c, ts), t)
    ensures IsRun(c, ts + [t])
  {
    assert (ts + [t])[..|ts|] == ts;
  }

  /** Every run can go on until it is stuck. */
  lemma {:induction false} RunOn(c: Config, ts: seq<nat>) returns (full: seq<nat>)
    requires IsRun(c, ts)
    ensures IsRun(c, full) && ts <= full && Stuck(After(c, full))
    decreases 9 * c.loops * c.readers + 4 * c.loops * c.writers - |ts|
  {
    RunsAreShort(c, ts);
    if Stuck(After(c, ts)) {
      full := ts;
    } else {
      var t: nat :| t < |After(c, ts).threads| && CanStep(After(c, ts), t);
      OneMore(c, ts, t);
      RunsAreShort(c, ts + [t]);
      full := RunOn(c, ts + [t]);
    }
  }

  ghost predicate CanFinish(c: Config, ts: seq<nat>)
  {
    exists full :: IsRun(c, full) && ts <= full && Finished(After(c, full))
  }

  /** Some run completes exactly when nobody ever reads, and then every run can be completed. */
  lemma FinishesExactly(c: Config, ts: seq<nat>)
    requires IsRun(c, ts)
    ensures CanFinish(c, ts) <==> (c.readers == 0 || c.loops == 0)
  {
    if CanFinish(c, ts) {
      var full :| IsRun(c, full) && ts <= full && Finished(After(c, full));
      RunInv(c, full);
      ReadersNeverFinish(c, After(c, full));
    }
    if c.readers == 0 || c.loops == 0 {
      var full := RunOn(c, ts);
      EveryMaximalRun(c, full);
    }
  }
}
