/** The producer/consumer program of `main-two-cvs-while.c` and `main-common.c` as a machine that
    interleaves the atomic steps of any number of producers and consumers and of `main`.

    Threads are numbered as `main` numbers them: producers first, then consumers; `main` itself
    is the last. `main` and the producers wait on `empty`, the consumers on `fill`. */
module ProducerConsumer {
  import opened Basics
  import opened PcBuffer

  datatype Config = Config(producers: nat, consumers: nat, max: nat, loops: nat)
  {
    /** What the assertions of `main` check. */
    predicate Accepted() { loops > 0 && max > 0 }

    function Main(): nat { producers + consumers }

    predicate Consumer(t: nat) { producers <= t < producers + consumers }
  }

  /** Where a thread is. `Lock` to `Unlock` are the points of the loop body: about to lock,
      about to test `num_full`, asleep in `Cond_wait`, woken and about to relock, about to fill
      or get, about to signal, about to unlock. Only `main` is ever at the last points but `Exit`. */
  datatype Point =
    Unborn | Lock | Test | Asleep | Woken | Act | Signal | Unlock | Exit | Create | JoinProducers | JoinConsumers

  /** `i` is the loop counter (`consumed_count` in a consumer), `tmp` the item a consumer got last. */
  datatype Thread = Thread(pc: Point, i: nat, tmp: int)

  /** `filled`/`fillers` and `taken`/`takers` log every item filled and taken, and by whom. */
  datatype State = State(
    threads: seq<Thread>,
    holder: Option<nat>,
    ring: Ring,
    counts: seq<int>,
    failed: bool,
    filled: seq<int>,
    fillers: seq<nat>,
    taken: seq<int>,
    takers: seq<nat>)

  datatype Cond = FillCond | EmptyCond

  /** The condition variable thread `t` waits on; it signals the other one. */
  function WaitsOn(c: Config, t: nat): Cond
  {
    if c.Consumer(t) then FillCond else EmptyCond
  }

  /** How many times the threads waiting on `v` could act at once: items to get, slots to fill. */
  function Room(max: nat, numFull: int, v: Cond): int
  {
    if v == FillCond then numFull else max - numFull
  }

  /** The `k`-th item thread `t` fills. */
  function Item(c: Config, t: nat, k: nat): int
  {
    if t < c.producers then t * c.loops + k else END_OF_STREAM
  }

  function Init(c: Config): State
  {
    State(seq(c.Main() + 1, t => if t < c.Main() then Thread(Unborn, 0, 0) else Thread(Create, 0, 0)),
          None, EmptyRing(c.max), seq(c.consumers, j => 0), false, [], [], [], [])
  }

  predicate Sized(c: Config, s: State)
  {
    |s.threads| == c.Main() + 1 && |s.counts| == c.consumers && Shaped(s.ring) && |s.ring.buffer| == c.max
  }

  predicate CanStep(c: Config, s: State, t: nat)
    requires Sized(c, s)
  {
    && !s.failed
    && t < |s.threads|
    && var th := s.threads[t];
       match th.pc
       case Unborn => false
       case Asleep => false
       case Exit => false
       case Lock => s.holder == None
       case Woken => s.holder == None
       case Test => true
       case Act => true
       case Signal => true
       case Unlock => true
       case Create => true
       case JoinProducers => th.i < c.producers ==> s.threads[th.i].pc == Exit
       case JoinConsumers => th.i < c.consumers ==> s.threads[c.producers + th.i].pc == Exit
  }

  predicate IsWaiter(c: Config, s: State, v: Cond, u: nat)
  {
    u < |s.threads| && s.threads[u].pc == Asleep && WaitsOn(c, u) == v
  }

  function Other(v: Cond): Cond
  {
    if v == FillCond then EmptyCond else FillCond
  }

  /** `w` is a legal choice for the thread a signal of `t` wakes: some waiter if there is one. */
  ghost predicate LegalWake(c: Config, s: State, t: nat, w: nat)
  {
    forall u: nat :: IsWaiter(c, s, Other(WaitsOn(c, t)), u) ==> IsWaiter(c, s, Other(WaitsOn(c, t)), w)
  }

  /** Where the loop of thread `t` continues after unlocking. */
  function NextRound(c: Config, t: nat, th: Thread): Thread
  {
    if t < c.producers then th.(i := th.i + 1, pc := if th.i + 1 < c.loops then Lock else Exit)
    else if c.Consumer(t) then th.(i := th.i + 1, pc := if th.tmp != END_OF_STREAM then Lock else Exit)
    else if th.i + 1 < c.consumers then th.(i := th.i + 1, pc := Lock)
    else th.(i := 0, pc := JoinConsumers)
  }

  function Goto(s: State, t: nat, th: Thread): State
    requires t < |s.threads|
  {
    s.(threads := s.threads[t := th])
  }

  function ActStep(c: Config, s: State, t: nat): State
    requires Sized(c, s) && t < |s.threads|
  {
    var th := s.threads[t];
    if c.Consumer(t) then
      match Get(s.ring)
      case None => s.(failed := true)
      case Some(p) => Goto(s, t, th.(pc := Signal, tmp := p.1)).(
        ring := p.0, taken := s.taken + [p.1], takers := s.takers + [t])
    else
      var value := Item(c, t, th.i);
      match Fill(s.ring, value)
      case None => s.(failed := true)
      case Some(r) => Goto(s, t, th.(pc := Signal)).(
        ring := r, filled := s.filled + [value], fillers := s.fillers + [t])
  }

  function SignalStep(c: Config, s: State, t: nat, w: nat): State
    requires t < |s.threads|
  {
    var s' := Goto(s, t, s.threads[t].(pc := Unlock));
    if IsWaiter(c, s, Other(WaitsOn(c, t)), w) then Goto(s', w, s'.threads[w].(pc := Woken)) else s'
  }

  /** The steps only `main` takes: creating the threads, joining producers, joining consumers. */
  function MainStep(c: Config, s: State, t: nat): State
    requires Sized(c, s) && CanStep(c, s, t) && s.threads[t].pc in {Create, JoinProducers, JoinConsumers}
  {
    var th := s.threads[t];
    if th.pc == Create then
      if th.i < c.Main() then
        Goto(Goto(s, th.i, s.threads[th.i].(pc := Lock)), t, th.(i := th.i + 1))
      else Goto(s, t, th.(pc := JoinProducers, i := 0))
    else if th.pc == JoinProducers then
      if th.i < c.producers then Goto(s, t, th.(i := th.i + 1))
      else Goto(s, t, th.(pc := if c.consumers > 0 then Lock else JoinConsumers, i := 0))
    else
      if th.i < c.consumers then
        Goto(s, t, th.(i := th.i + 1)).(counts := s.counts[th.i := s.threads[c.producers + th.i].i - 1])
      else Goto(s, t, th.(pc := Exit))
  }

  /** One atomic step of thread `t`; `w` is the thread woken if the step is a signal. */
  function Step(c: Config, s: State, t: nat, w: nat): State
    requires Sized(c, s) && CanStep(c, s, t)
  {
    var th := s.threads[t];
    if th.pc == Lock || th.pc == Woken then Goto(s, t, th.(pc := Test)).(holder := Some(t))
    else if th.pc == Test then
      if Room(c.max, s.ring.numFull, WaitsOn(c, t)) == 0
      then Goto(s, t, th.(pc := Asleep)).(holder := None)
      else Goto(s, t, th.(pc := Act))
    else if th.pc == Act then ActStep(c, s, t)
    else if th.pc == Signal then SignalStep(c, s, t, w)
    else if th.pc == Unlock then Goto(s, t, NextRound(c, t, th)).(holder := None)
    else MainStep(c, s, t)
  }

  /** A move of the scheduler: run a thread for one step, or wake a sleeper for no reason. */
  datatype Move = Run(t: nat, w: nat) | Spurious(t: nat)

  ghost predicate Legal(c: Config, s: State, m: Move)
    requires Sized(c, s)
  {
    match m
    case Run(t, w) => CanStep(c, s, t) && LegalWake(c, s, t, w)
    case Spurious(t) => !s.failed && t < |s.threads| && s.threads[t].pc == Asleep
  }

  function Apply(c: Config, s: State, m: Move): State
    requires Sized(c, s)
    requires m.Run? ==> CanStep(c, s, m.t)
    requires m.Spurious? ==> m.t < |s.threads|
  {
    match m
    case Run(t, w) => Step(c, s, t, w)
    case Spurious(t) => Goto(s, t, s.threads[t].(pc := Woken))
  }
}
