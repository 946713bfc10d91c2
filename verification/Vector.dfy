/** The vectors of `threads-bugs` and `vector_add` in its four disciplines, as a machine that
    interleaves the atomic steps of any number of threads, each with any script of calls. */
module Vector {
  import opened Basics

  const VECTOR_SIZE: nat := 100

  /** Element-wise sum, what one whole `vector_add` does to its destination. */
  function Sum(a: seq<int>, b: seq<int>): (r: seq<int>)
    requires |a| == |b|
    ensures |r| == |a|
  {
    seq(|a|, j requires 0 <= j < |a| => a[j] + b[j])
  }

  /** The vector of the program, updated in place. */
  class VectorT {
    var values: array<int>

    ghost predicate Valid()
      reads this
    {
      values.Length == VECTOR_SIZE
    }

    /** `vector_init`. */
    constructor (value: int)
      ensures Valid() && fresh(values) && values[..] == seq(VECTOR_SIZE, j => value)
    {
      values := new int[VECTOR_SIZE];
      new;
      for i := 0 to VECTOR_SIZE
        invariant Valid() && fresh(values) && forall j | 0 <= j < i :: values[j] == value
      {
        values[i] := value;
      }
    }
  }

  /** The loop of `vector_add`, run by one thread alone; both arguments may be the same vector. */
  method AddInPlace(dst: VectorT, src: VectorT)
    requires dst.Valid() && src.Valid() && (dst.values == src.values ==> dst == src)
    modifies dst.values
    ensures dst.values[..] == Sum(old(dst.values[..]), old(src.values[..]))
  {
    ghost var a, b := dst.values[..], src.values[..];
    for i := 0 to VECTOR_SIZE
      invariant forall j | 0 <= j < VECTOR_SIZE :: dst.values[j] == if j < i then a[j] + b[j] else a[j]
      invariant dst != src ==> src.values[..] == b
    {
      dst.values[i] := dst.values[i] + src.values[i];
    }
  }

  // ---- The machine ----

  datatype Mode = Ordered | GlobalLock | TryLock | NoLock

  datatype Call = Call(dst: nat, src: nat)

  /** `scripts[t]` are the calls thread `t` makes; a smaller vector number is a lower address. */
  datatype Program = Program(mode: Mode, scripts: seq<seq<Call>>, init: seq<seq<int>>)
  {
    ghost predicate WellFormed()
    {
      && (forall v: nat | v < |init| :: |init[v]| == VECTOR_SIZE)
      && (forall t: nat, i: nat | t < |scripts| && i < |scripts[t]| ::
            scripts[t][i].dst < |init| && scripts[t][i].src < |init|)
    }
  }

  /** Where a thread is inside `vector_add`. `Enter` and `Leave` lock and unlock the global lock,
      `First` and `Second` take the vector locks, `Backoff` gives the first one up again. */
  datatype Point = Enter | First | Second | Leave | Backoff | ReadDst | ReadSrc | Write | Release1 | Release2

  /** `call` is the number of calls completed, `k` the loop index, `reg` the value being computed. */
  datatype Thread = Thread(pc: Point, call: nat, k: nat, reg: int)

  /** `log` and `who` record the calls in the order in which they got hold of all their locks. */
  datatype State = State(
    threads: seq<Thread>,
    locks: seq<Option<nat>>,
    global: Option<nat>,
    values: seq<seq<int>>,
    log: seq<Call>,
    who: seq<nat>)

  function Start(mode: Mode): Point
  {
    match mode
    case Ordered => First
    case GlobalLock => Enter
    case TryLock => First
    case NoLock => ReadSrc
  }

  function Init(p: Program): State
  {
    State(seq(|p.scripts|, t => Thread(Start(p.mode), 0, 0, 0)), seq(|p.init|, v => None), None, p.init, [], [])
  }

  ghost predicate Sized(p: Program, s: State)
  {
    && p.WellFormed()
    && |s.threads| == |p.scripts|
    && |s.locks| == |s.values| == |p.init|
    && (forall v: nat | v < |s.values| :: |s.values[v]| == VECTOR_SIZE)
    && (forall t: nat | t < |s.threads| :: s.threads[t].k < VECTOR_SIZE)
  }

  /** Does thread `t` have calls left to make? */
  predicate Busy(p: Program, t: nat, th: Thread)
  {
    t < |p.scripts| && th.call < |p.scripts[t]|
  }

  function CallOf(p: Program, t: nat, th: Thread): Call
    requires Busy(p, t, th)
  {
    p.scripts[t][th.call]
  }

  function FirstLock(mode: Mode, c: Call): nat
  {
    if mode == Ordered && c.src < c.dst then c.src else c.dst
  }

  function SecondLock(mode: Mode, c: Call): nat
  {
    if mode == Ordered && c.src < c.dst then c.dst else c.src
  }

  /** Can thread `t` take a step? Only a `lock` of a lock that is taken blocks; `trylock` does not. */
  ghost predicate CanStep(p: Program, s: State, t: nat)
    requires Sized(p, s)
  {
    && t < |s.threads| && Busy(p, t, s.threads[t])
    && var c := CallOf(p, t, s.threads[t]);
       match s.threads[t].pc
       case Enter => s.global == None
       case First => p.mode == TryLock || s.locks[FirstLock(p.mode, c)] == None
       case Second => p.mode == TryLock || s.locks[SecondLock(p.mode, c)] == None
       case Leave => true
       case Backoff => true
       case ReadDst => true
       case ReadSrc => true
       case Write => true
       case Release1 => true
       case Release2 => true
  }

  function Goto(s: State, t: nat, th: Thread): State
    requires t < |s.threads|
  {
    s.(threads := s.threads[t := th])
  }

  function SetLock(s: State, v: nat, holder: Option<nat>): State
    requires v < |s.locks|
  {
    s.(locks := s.locks[v := holder])
  }

  /** Entering the loop of a call whose locks are all held. */
  function Commit(s: State, t: nat, c: Call): State
  {
    s.(log := s.log + [c], who := s.who + [t])
  }

  function FirstStep(p: Program, s: State, t: nat): State
    requires Sized(p, s) && t < |s.threads| && Busy(p, t, s.threads[t])
  {
    var th, c := s.threads[t], CallOf(p, t, s.threads[t]);
    var l := FirstLock(p.mode, c);
    if s.locks[l] != None then s
    else if p.mode == Ordered && c.dst == c.src then
      Commit(Goto(SetLock(s, l, Some(t)), t, th.(pc := ReadDst, k := 0)), t, c)
    else Goto(SetLock(s, l, Some(t)), t, th.(pc := Second))
  }

  function SecondStep(p: Program, s: State, t: nat): State
    requires Sized(p, s) && t < |s.threads| && Busy(p, t, s.threads[t])
  {
    var th, c := s.threads[t], CallOf(p, t, s.threads[t]);
    var l := SecondLock(p.mode, c);
    if s.locks[l] != None then Goto(s, t, th.(pc := Backoff))
    else
      var th' := th.(pc := if p.mode == GlobalLock then Leave else ReadDst, k := 0);
      Commit(Goto(SetLock(s, l, Some(t)), t, th'), t, c)
  }

  function WriteStep(p: Program, s: State, t: nat): State
    requires Sized(p, s) && t < |s.threads| && Busy(p, t, s.threads[t])
  {
    var th, c := s.threads[t], CallOf(p, t, s.threads[t]);
    var value := if p.mode == NoLock then s.values[c.dst][th.k] + th.reg else th.reg;
    var s' := s.(values := s.values[c.dst := s.values[c.dst][th.k := value]]);
    if th.k + 1 < VECTOR_SIZE then Goto(s', t, th.(k := th.k + 1, pc := if p.mode == NoLock then ReadSrc else ReadDst))
    else if p.mode == NoLock then Goto(s', t, Thread(ReadSrc, th.call + 1, 0, 0))
    else Goto(s', t, th.(pc := Release1))
  }

  function ReleaseStep(p: Program, s: State, t: nat): State
    requires Sized(p, s) && t < |s.threads| && Busy(p, t, s.threads[t])
  {
    var th, c := s.threads[t], CallOf(p, t, s.threads[t]);
    var next := Thread(Start(p.mode), th.call + 1, 0, 0);
    if th.pc == Release1 then
      var s' := SetLock(s, if p.mode == Ordered then c.src else c.dst, None);
      Goto(s', t, if p.mode == Ordered && c.dst == c.src then next else th.(pc := Release2))
    else
      Goto(SetLock(s, if p.mode == Ordered then c.dst else c.src, None), t, next)
  }

  /** One atomic step of thread `t`. */
  function Step(p: Program, s: State, t: nat): State
    requires Sized(p, s) && CanStep(p, s, t)
  {
    var th, c := s.threads[t], CallOf(p, t, s.threads[t]);
    if th.pc == Enter then Goto(s, t, th.(pc := First)).(global := Some(t))
    else if th.pc == First then FirstStep(p, s, t)
    else if th.pc == Second then SecondStep(p, s, t)
    else if th.pc == Leave then Goto(s, t, th.(pc := ReadDst)).(global := None)
    else if th.pc == Backoff then Goto(SetLock(s, c.dst, None), t, th.(pc := First))
    else if th.pc == ReadDst then Goto(s, t, th.(pc := ReadSrc, reg := s.values[c.dst][th.k]))
    else if th.pc == ReadSrc then
      Goto(s, t, th.(pc := Write, reg := s.values[c.src][th.k] + if p.mode == NoLock then 0 else th.reg))
    else if th.pc == Write then WriteStep(p, s, t)
    else ReleaseStep(p, s, t)
  }

  /** The vectors after the calls of `log` have been made one after the other, each as a whole. */
  ghost function Serial(init: seq<seq<int>>, log: seq<Call>): (r: seq<seq<int>>)
    requires forall v: nat | v < |init| :: |init[v]| == VECTOR_SIZE
    requires forall i: nat | i < |log| :: log[i].dst < |init| && log[i].src < |init|
    ensures |r| == |init| && forall v: nat | v < |r| :: |r[v]| == VECTOR_SIZE
  {
    if log == [] then init
    else
      var c, r := log[|log| - 1], Serial(init, log[..|log| - 1]);
      r[c.dst := Sum(r[c.dst], r[c.src])]
  }
}
