/** The queue of `concqueue.h` with separate head and tail locks, as a machine over a heap of
    nodes: any number of threads, each starting any operation at any time, memory that `free`
    gives back and `malloc` may hand out again. */
module TwoLockQueue {
  import opened Basics

  /** A heap cell; addresses are numbers and None is NULL. */
  datatype Node = Node(value: int, next: Option<nat>)

  /** Where a thread is, with its local variables. */
  datatype Thread =
    | Idle
    | EnqInit(node: nat, value: int)
    | EnqLock(node: nat, value: int)
    | EnqLink(node: nat, value: int)
    | EnqSwing(node: nat)
    | EnqUnlock
    | DeqLock
    | DeqHead
    | DeqNext(tmp: nat)
    | DeqEmpty
    | DeqValue(tmp: nat, newHead: nat)
    | DeqMove(tmp: nat, newHead: nat, value: int)
    | DeqUnlock(tmp: nat, value: int)
    | DeqFree(tmp: nat, value: int)

  /** `chain` lists the nodes from `head` on; `failed` is set when a thread touches memory that is not
      allocated. `enqueued` and `dequeued` log the values linked in and moved past, `enqueuers` who
      linked them; `results` and `takers` log what each dequeue has found, None for -1, and whose it was. */
  datatype State = State(
    heap: map<nat, Node>,
    head: nat,
    tail: nat,
    headLock: Option<nat>,
    tailLock: Option<nat>,
    threads: seq<Thread>,
    failed: bool,
    chain: seq<nat>,
    enqueued: seq<int>,
    dequeued: seq<int>,
    enqueuers: seq<nat>,
    results: seq<Option<int>>,
    takers: seq<nat>)

  /** `Queue_Init`, for `n` threads; `dummy` and its value are what `malloc` gives. */
  function Init(n: nat, dummy: nat, garbage: int): State
  {
    State(map[dummy := Node(garbage, None)], dummy, dummy, None, None, seq(n, t => Idle), false, [dummy],
          [], [], [], [], [])
  }

  /** Start an enqueue (`malloc` hands out any free address), start a dequeue, or run for a step. */
  datatype Move = Enqueue(t: nat, value: int, node: nat, garbage: Node) | Dequeue(t: nat) | Run(t: nat)

  predicate Legal(s: State, m: Move)
  {
    && !s.failed && m.t < |s.threads|
    && var th := s.threads[m.t];
       match m
       case Enqueue(t, value, node, garbage) => th == Idle && node !in s.heap
       case Dequeue(t) => th == Idle
       case Run(t) =>
         && th != Idle
         && (th.EnqLock? ==> s.tailLock == None)
         && (th.DeqLock? ==> s.headLock == None)
  }

  function Goto(s: State, t: nat, th: Thread): State
    requires t < |s.threads|
  {
    s.(threads := s.threads[t := th])
  }

  /** Every access through a pointer fails if the node is not allocated. */
  function EnqStep(s: State, t: nat): State
    requires t < |s.threads|
  {
    var th := s.threads[t];
    if th.EnqInit? then
      if th.node !in s.heap then s.(failed := true)
      else Goto(s, t, EnqLock(th.node, th.value)).(heap := s.heap[th.node := Node(th.value, None)])
    else if th.EnqLock? then Goto(s, t, EnqLink(th.node, th.value)).(tailLock := Some(t))
    else if th.EnqLink? then
      if s.tail !in s.heap then s.(failed := true)
      else Goto(s, t, EnqSwing(th.node)).(
        heap := s.heap[s.tail := s.heap[s.tail].(next := Some(th.node))],
        chain := s.chain + [th.node], enqueued := s.enqueued + [th.value], enqueuers := s.enqueuers + [t])
    else if th.EnqSwing? then Goto(s, t, EnqUnlock).(tail := th.node)
    else Goto(s, t, Idle).(tailLock := None)
  }

  function DeqStep(s: State, t: nat): State
    requires t < |s.threads|
  {
    var th := s.threads[t];
    if th.DeqLock? then Goto(s, t, DeqHead).(headLock := Some(t))
    else if th.DeqHead? then Goto(s, t, DeqNext(s.head))
    else if th.DeqNext? then
      if th.tmp !in s.heap then s.(failed := true)
      else if s.heap[th.tmp].next == None then
        Goto(s, t, DeqEmpty).(results := s.results + [None], takers := s.takers + [t])
      else Goto(s, t, DeqValue(th.tmp, s.heap[th.tmp].next.value))
    else if th.DeqEmpty? then Goto(s, t, Idle).(headLock := None)
    else if th.DeqValue? then
      if th.newHead !in s.heap then s.(failed := true)
      else Goto(s, t, DeqMove(th.tmp, th.newHead, s.heap[th.newHead].value))
    else if th.DeqMove? then
      Goto(s, t, DeqUnlock(th.tmp, th.value)).(
        head := th.newHead, chain := if s.chain == [] then [] else s.chain[1..],
        dequeued := s.dequeued + [th.value], results := s.results + [Some(th.value)], takers := s.takers + [t])
    else if th.DeqUnlock? then Goto(s, t, DeqFree(th.tmp, th.value)).(headLock := None)
    else if th.DeqFree? then
      if th.tmp !in s.heap then s.(failed := true)
      else Goto(s, t, Idle).(heap := s.heap - {th.tmp})
    else s
  }

  predicate Enqueuing(th: Thread)
  {
    th.EnqInit? || th.EnqLock? || th.EnqLink? || th.EnqSwing? || th.EnqUnlock?
  }

  function Apply(s: State, m: Move): (s': State)
    requires Legal(s, m)
    ensures |s'.threads| == |s.threads|
  {
    match m
    case Enqueue(t, value, node, garbage) => Goto(s, t, EnqInit(node, value)).(heap := s.heap[node := garbage])
    case Dequeue(t) => Goto(s, t, DeqLock)
    case Run(t) => if Enqueuing(s.threads[t]) then EnqStep(s, t) else DeqStep(s, t)
  }

  function ValueAt(heap: map<nat, Node>, a: nat): int
  {
    if a in heap then heap[a].value else 0
  }

  /** The queue the heap represents: the values behind the dummy node. */
  ghost function Abs(heap: map<nat, Node>, chain: seq<nat>): seq<int>
  {
    seq(if chain == [] then 0 else |chain| - 1, i requires 0 <= i < |chain| - 1 => ValueAt(heap, chain[i + 1]))
  }

  // ---- The invariant ----

  /** The link that belongs into the `i`-th node of the chain. */
  function LinkAt(chain: seq<nat>, i: nat): Option<nat>
  {
    if i + 1 < |chain| then Some(chain[i + 1]) else None
  }

  /** From `head` the links lead through `chain` and end there. */
  ghost predicate Linked(heap: map<nat, Node>, head: nat, chain: seq<nat>)
  {
    && |chain| > 0 && chain[0] == head
    && (forall i: nat | i < |chain| :: chain[i] in heap)
    && (forall i: nat, j: nat | i < j < |chain| :: chain[i] != chain[j])
    && (forall i: nat {:trigger heap[chain[i]]} | i < |chain| :: heap[chain[i]].next == LinkAt(chain, i))
  }

  /** The node only thread `th` knows: not linked yet, or unlinked and not freed yet. */
  function Owns(th: Thread): Option<nat>
  {
    if th.EnqInit? || th.EnqLock? || th.EnqLink? then Some(th.node)
    else if th.DeqUnlock? || th.DeqFree? then Some(th.tmp)
    else None
  }

  /** Every allocated node is in the chain or owned by one thread, never both. */
  ghost predicate Owned(heap: map<nat, Node>, chain: seq<nat>, threads: seq<Thread>)
  {
    && (forall t: nat | t < |threads| && Owns(threads[t]).Some? ::
      Owns(threads[t]).value in heap && Owns(threads[t]).value !in chain)
    && (forall t: nat, u: nat | t < u < |threads| && Owns(threads[t]).Some? :: Owns(threads[t]) != Owns(threads[u]))
    && (forall a: nat | a in heap :: a in chain || exists t: nat :: t < |threads| && Owns(threads[t]) == Some(a))
  }

  predicate HasTail(th: Thread)
  {
    th.EnqLink? || th.EnqSwing? || th.EnqUnlock?
  }

  predicate HasHead(th: Thread)
  {
    th.DeqHead? || th.DeqNext? || th.DeqEmpty? || th.DeqValue? || th.DeqMove? || th.DeqUnlock?
  }

  ghost predicate Locked(threads: seq<Thread>, headLock: Option<nat>, tailLock: Option<nat>)
  {
    && (forall t: nat | t < |threads| :: HasHead(threads[t]) <==> headLock == Some(t))
    && (forall t: nat | t < |threads| :: HasTail(threads[t]) <==> tailLock == Some(t))
    && (headLock.Some? ==> headLock.value < |threads|)
    && (tailLock.Some? ==> tailLock.value < |threads|)
  }

  /** What the local variables of a thread say about the heap. */
  ghost predicate LocalsOk(th: Thread, heap: map<nat, Node>, chain: seq<nat>)
    requires |chain| > 0
  {
    && (th.EnqLock? || th.EnqLink? ==> th.node in heap && heap[th.node] == Node(th.value, None))
    && (th.EnqSwing? ==> th.node == chain[|chain| - 1])
    && (th.DeqNext? ==> th.tmp == chain[0])
    && (th.DeqValue? ==> th.tmp == chain[0] && |chain| > 1 && th.newHead == chain[1])
    && (th.DeqMove? ==> th.tmp == chain[0] && |chain| > 1 && th.newHead == chain[1])
    && (th.DeqMove? ==> th.newHead in heap && heap[th.newHead].value == th.value)
  }

  ghost predicate AllLocalsOk(threads: seq<Thread>, heap: map<nat, Node>, chain: seq<nat>)
    requires |chain| > 0
  {
    forall t: nat | t < |threads| :: LocalsOk(threads[t], heap, chain)
  }

  /** `tail` is the last node, except between the two writes of an enqueue. */
  ghost predicate TailOk(threads: seq<Thread>, tail: nat, tailLock: Option<nat>, chain: seq<nat>)
    requires |chain| > 0
  {
    tail == chain[|chain| - 1] || (tailLock.Some? && tailLock.value < |threads| && threads[tailLock.value].EnqSwing?)
  }

  ghost predicate Inv(s: State)
  {
    && !s.failed
    && Linked(s.heap, s.head, s.chain)
    && Owned(s.heap, s.chain, s.threads)
    && Locked(s.threads, s.headLock, s.tailLock)
    && AllLocalsOk(s.threads, s.heap, s.chain)
    && TailOk(s.threads, s.tail, s.tailLock, s.chain)
    && s.enqueued == s.dequeued + Abs(s.heap, s.chain)
  }

  lemma InitInv(n: nat, dummy: nat, garbage: int)
    ensures Inv(Init(n, dummy, garbage))
  {
  }

  // ---- How the parts of the invariant change ----

  lemma OwnedSame(heap: map<nat, Node>, chain: seq<nat>, threads: seq<Thread>, t: nat, th: Thread,
                  heap': map<nat, Node>)
    requires Owned(heap, chain, threads) && t < |threads| && Owns(th) == Owns(threads[t]) && heap'.Keys == heap.Keys
    ensures Owned(heap', chain, threads[t := th])
  {
    var threads' := threads[t := th];
    assert forall u: nat | u < |threads| :: Owns(threads'[u]) == Owns(threads[u]);
    forall a: nat | a in heap' && a !in chain
      ensures exists u: nat :: u < |threads'| && Owns(threads'[u]) == Some(a)
    {
      var u: nat :| u < |threads| && Owns(threads[u]) == Some(a);
      assert Owns(threads'[u]) == Some(a);
    }
  }

  /** Thread `t` comes to own node `a`, fresh from `malloc` or just unlinked. */
  lemma OwnedGain(heap: map<nat, Node>, chain: seq<nat>, threads: seq<Thread>, t: nat, th: Thread, a: nat,
                  heap': map<nat, Node>, chain': seq<nat>)
    requires Owned(heap, chain, threads) && t < |threads| && Owns(threads[t]) == None && Owns(th) == Some(a)
    requires heap'.Keys == heap.Keys + {a} && a !in chain'
    requires (a !in heap && chain' == chain) || (a in chain && chain == [a] + chain')
    ensures Owned(heap', chain', threads[t := th])
  {
    var threads' := threads[t := th];
    assert forall u: nat | u < |threads| && u != t :: Owns(threads[u]) != Some(a);
    forall b: nat | b in heap' && b !in chain'
      ensures exists u: nat :: u < |threads'| && Owns(threads'[u]) == Some(b)
    {
      if b == a {
        assert Owns(threads'[t]) == Some(b);
      } else {
        var u: nat :| u < |threads| && Owns(threads[u]) == Some(b);
        assert Owns(threads'[u]) == Some(b);
      }
    }
  }

  /** Thread `t` gives up its node `a`, to the chain or to the allocator. */
  lemma OwnedLoss(heap: map<nat, Node>, chain: seq<nat>, threads: seq<Thread>, t: nat, th: Thread, a: nat,
                  heap': map<nat, Node>, chain': seq<nat>)
    requires Owned(heap, chain, threads) && t < |threads| && Owns(threads[t]) == Some(a) && Owns(th) == None
    requires (heap'.Keys == heap.Keys && chain' == chain + [a]) || (heap'.Keys == heap.Keys - {a} && chain' == chain)
    ensures Owned(heap', chain', threads[t := th])
  {
    var threads' := threads[t := th];
    assert forall u: nat | u < |threads| && u != t :: Owns(threads[u]) != Some(a);
    forall b: nat | b in heap' && b !in chain'
      ensures exists u: nat :: u < |threads'| && Owns(threads'[u]) == Some(b)
    {
      var u: nat :| u < |threads| && Owns(threads[u]) == Some(b);
      assert u != t && Owns(threads'[u]) == Some(b);
    }
  }

  lemma LockedUpdate(threads: seq<Thread>, headLock: Option<nat>, tailLock: Option<nat>, t: nat, th: Thread,
                     headLock': Option<nat>, tailLock': Option<nat>)
    requires Locked(threads, headLock, tailLock) && t < |threads|
    requires Moves(headLock, headLock', t) && (HasHead(th) <==> headLock' == Some(t))
    requires Moves(tailLock, tailLock', t) && (HasTail(th) <==> tailLock' == Some(t))
    ensures Locked(threads[t := th], headLock', tailLock')
  {
  }

  /** The same chain positions hold the same values. */
  ghost predicate SameValues(heap: map<nat, Node>, chain: seq<nat>, heap': map<nat, Node>)
  {
    forall i: nat | i < |chain| ::
      chain[i] in heap && chain[i] in heap' && heap'[chain[i]].value == heap[chain[i]].value
  }

  /** What thread `th` relies on is still so. */
  ghost predicate Undisturbed(th: Thread, heap: map<nat, Node>, chain: seq<nat>, heap': map<nat, Node>,
                              chain': seq<nat>)
    requires |chain| > 0 && |chain'| > 0
  {
    && (th.EnqLock? || th.EnqLink? ==> th.node in heap && th.node in heap' && heap'[th.node] == heap[th.node])
    && (HasHead(th) ==> chain <= chain' && SameValues(heap, chain, heap'))
    && (HasTail(th) ==> chain'[|chain'| - 1] == chain[|chain| - 1])
  }

  /** A change of the heap that leaves alone what other threads rely on. */
  lemma LocalsUpdate(threads: seq<Thread>, heap: map<nat, Node>, chain: seq<nat>, t: nat, th: Thread,
                     heap': map<nat, Node>, chain': seq<nat>)
    requires |chain| > 0 && |chain'| > 0 && AllLocalsOk(threads, heap, chain) && t < |threads|
    requires LocalsOk(th, heap', chain')
    requires forall u: nat | u < |threads| && u != t :: Undisturbed(threads[u], heap, chain, heap', chain')
    ensures AllLocalsOk(threads[t := th], heap', chain')
  {
    var threads' := threads[t := th];
    forall u: nat | u < |threads'|
      ensures LocalsOk(threads'[u], heap', chain')
    {
      assert u == t || (Undisturbed(threads[u], heap, chain, heap', chain') && LocalsOk(threads[u], heap, chain));
    }
  }

  lemma AbsSame(heap: map<nat, Node>, chain: seq<nat>, heap': map<nat, Node>)
    requires SameValues(heap, chain, heap')
    ensures Abs(heap', chain) == Abs(heap, chain)
  {
  }

  lemma LocalsSame(threads: seq<Thread>, heap: map<nat, Node>, chain: seq<nat>, t: nat, th: Thread)
    requires |chain| > 0 && AllLocalsOk(threads, heap, chain) && t < |threads| && LocalsOk(th, heap, chain)
    ensures AllLocalsOk(threads[t := th], heap, chain)
  {
  }

  /** The node of another enqueuer is neither this thread's node nor in the chain. */
  lemma OtherNodes(heap: map<nat, Node>, chain: seq<nat>, threads: seq<Thread>, t: nat, node: nat)
    requires Owned(heap, chain, threads) && t < |threads| && (Owns(threads[t]) == Some(node) || node in chain)
    ensures forall u: nat | u < |threads| && u != t && (threads[u].EnqLock? || threads[u].EnqLink?) ::
      threads[u].node != node
  {
    forall u: nat | u < |threads| && u != t && (threads[u].EnqLock? || threads[u].EnqLink?)
      ensures threads[u].node != node
    {
      assert Owns(threads[u]) == Some(threads[u].node);
    }
  }

  // ---- Every move keeps the invariant ----

  /** Writing to, or freeing, a node that thread `t` owns, or linking at the tail it holds. */
  lemma CellLocals(threads: seq<Thread>, heap: map<nat, Node>, chain: seq<nat>, t: nat, th: Thread, a: nat,
                   heap': map<nat, Node>)
    requires |chain| > 0 && AllLocalsOk(threads, heap, chain) && Owned(heap, chain, threads) && t < |threads|
    requires Owns(threads[t]) == Some(a) || a !in heap
    requires forall b: nat | b in heap && b != a :: b in heap' && heap'[b] == heap[b]
    requires forall i: nat | i < |chain| :: chain[i] in heap
    requires LocalsOk(th, heap', chain)
    ensures AllLocalsOk(threads[t := th], heap', chain)
    ensures SameValues(heap, chain, heap')
  {
    assert a !in chain;
    if a in heap {
      OtherNodes(heap, chain, threads, t, a);
    }
    forall u: nat | u < |threads| && u != t
      ensures Undisturbed(threads[u], heap, chain, heap', chain)
    {
      assert LocalsOk(threads[u], heap, chain);
    }
    LocalsUpdate(threads, heap, chain, t, th, heap', chain);
  }

  lemma CellLinked(heap: map<nat, Node>, head: nat, chain: seq<nat>, a: nat, heap': map<nat, Node>)
    requires Linked(heap, head, chain) && a !in chain
    requires forall b: nat | b in heap && b != a :: b in heap' && heap'[b] == heap[b]
    ensures Linked(heap', head, chain)
  {
  }

  lemma AllocInv(s: State, t: nat, value: int, node: nat, garbage: Node)
    requires Inv(s) && Legal(s, Enqueue(t, value, node, garbage))
    ensures Inv(Apply(s, Enqueue(t, value, node, garbage)))
  {
    var heap', th := s.heap[node := garbage], EnqInit(node, value);
    OwnedGain(s.heap, s.chain, s.threads, t, th, node, heap', s.chain);
    LockedUpdate(s.threads, s.headLock, s.tailLock, t, th, s.headLock, s.tailLock);
    CellLocals(s.threads, s.heap, s.chain, t, th, node, heap');
    CellLinked(s.heap, s.head, s.chain, node, heap');
    AbsSame(s.heap, s.chain, heap');
  }

  lemma NewNodeInv(s: State, t: nat)
    requires Inv(s) && Legal(s, Run(t)) && s.threads[t].EnqInit?
    ensures Inv(EnqStep(s, t))
  {
    var node, value := s.threads[t].node, s.threads[t].value;
    assert Owns(s.threads[t]) == Some(node);
    var heap', th := s.heap[node := Node(value, None)], EnqLock(node, value);
    OwnedSame(s.heap, s.chain, s.threads, t, th, heap');
    LockedUpdate(s.threads, s.headLock, s.tailLock, t, th, s.headLock, s.tailLock);
    CellLocals(s.threads, s.heap, s.chain, t, th, node, heap');
    CellLinked(s.heap, s.head, s.chain, node, heap');
    AbsSame(s.heap, s.chain, heap');
  }

  lemma FreeInv(s: State, t: nat)
    requires Inv(s) && Legal(s, Run(t)) && s.threads[t].DeqFree?
    ensures Inv(DeqStep(s, t))
  {
    var tmp := s.threads[t].tmp;
    assert Owns(s.threads[t]) == Some(tmp);
    var heap' := s.heap - {tmp};
    OwnedLoss(s.heap, s.chain, s.threads, t, Idle, tmp, heap', s.chain);
    LockedUpdate(s.threads, s.headLock, s.tailLock, t, Idle, s.headLock, s.tailLock);
    CellLocals(s.threads, s.heap, s.chain, t, Idle, tmp, heap');
    CellLinked(s.heap, s.head, s.chain, tmp, heap');
    AbsSame(s.heap, s.chain, heap');
  }

  lemma LinkLinked(heap: map<nat, Node>, head: nat, chain: seq<nat>, node: nat, heap': map<nat, Node>)
    requires Linked(heap, head, chain) && node in heap && node !in chain && heap[node].next == None
    requires var last := chain[|chain| - 1]; heap' == heap[last := heap[last].(next := Some(node))]
    ensures Linked(heap', head, chain + [node]) && SameValues(heap, chain, heap')
    ensures Abs(heap', chain + [node]) == Abs(heap, chain) + [heap[node].value]
  {
    var chain' := chain + [node];
    forall i: nat | i < |chain'|
      ensures chain'[i] in heap' && heap'[chain'[i]].next == LinkAt(chain', i)
    {
      if i + 1 < |chain| {
        assert chain[i] != chain[|chain| - 1];
      }
    }
  }

  lemma LinkLocals(threads: seq<Thread>, heap: map<nat, Node>, chain: seq<nat>, headLock: Option<nat>, t: nat,
                   node: nat, heap': map<nat, Node>)
    requires |chain| > 0 && AllLocalsOk(threads, heap, chain) && Owned(heap, chain, threads) && t < |threads|
    requires Locked(threads, headLock, Some(t)) && SameValues(heap, chain, heap')
    requires forall b: nat | b in heap && b != chain[|chain| - 1] :: b in heap' && heap'[b] == heap[b]
    ensures AllLocalsOk(threads[t := EnqSwing(node)], heap', chain + [node])
  {
    OtherNodes(heap, chain, threads, t, chain[|chain| - 1]);
    forall u: nat | u < |threads| && u != t
      ensures Undisturbed(threads[u], heap, chain, heap', chain + [node])
    {
      assert LocalsOk(threads[u], heap, chain);
    }
    LocalsUpdate(threads, heap, chain, t, EnqSwing(node), heap', chain + [node]);
  }

  lemma TailSame(threads: seq<Thread>, tail: nat, tailLock: Option<nat>, chain: seq<nat>, t: nat, th: Thread,
                 chain': seq<nat>)
    requires |chain| > 0 && |chain'| > 0 && chain'[|chain'| - 1] == chain[|chain| - 1]
    requires TailOk(threads, tail, tailLock, chain) && t < |threads| && !threads[t].EnqSwing?
    ensures TailOk(threads[t := th], tail, tailLock, chain')
  {
  }

  /** What an enqueuer knows when it is about to link its node: `tail` is the last node. */
  lemma LinkReady(s: State, t: nat)
    requires Inv(s) && Legal(s, Run(t)) && s.threads[t].EnqLink?
    ensures var node, value := s.threads[t].node, s.threads[t].value;
      && s.tail == s.chain[|s.chain| - 1] && s.tail in s.heap && node != s.tail
      && node in s.heap && node !in s.chain && s.heap[node] == Node(value, None)
  {
    assert Owns(s.threads[t]) == Some(s.threads[t].node) && HasTail(s.threads[t]);
    assert LocalsOk(s.threads[t], s.heap, s.chain);
  }

  /** Linking appends to the queue; until `tail` is written only this thread holds the tail lock. */
  lemma LinkInv(s: State, t: nat)
    requires Inv(s) && Legal(s, Run(t)) && s.threads[t].EnqLink?
    ensures Inv(EnqStep(s, t))
    ensures Abs(EnqStep(s, t).heap, EnqStep(s, t).chain) == Abs(s.heap, s.chain) + [s.threads[t].value]
  {
    LinkReady(s, t);
    LinkDone(s, t, EnqStep(s, t));
  }

  lemma LinkDone(s: State, t: nat, s': State)
    requires Linked(s.heap, s.head, s.chain) && Owned(s.heap, s.chain, s.threads)
    requires Locked(s.threads, s.headLock, s.tailLock)
    requires AllLocalsOk(s.threads, s.heap, s.chain) && s.enqueued == s.dequeued + Abs(s.heap, s.chain)
    requires t < |s.threads| && s.threads[t].EnqLink? && s.tail == s.chain[|s.chain| - 1]
    requires var node, value := s.threads[t].node, s.threads[t].value;
      && node in s.heap && node !in s.chain && s.heap[node] == Node(value, None) && !s.failed
      && s' == s.(threads := s.threads[t := EnqSwing(node)],
                  heap := s.heap[s.tail := s.heap[s.tail].(next := Some(node))],
                  chain := s.chain + [node], enqueued := s.enqueued + [value], enqueuers := s.enqueuers + [t])
    ensures Inv(s') && Abs(s'.heap, s'.chain) == Abs(s.heap, s.chain) + [s.threads[t].value]
  {
    LinkLinked(s.heap, s.head, s.chain, s.threads[t].node, s'.heap);
    LinkParts(s, t, s.threads[t].node, s'.heap);
    LinkLog(s.enqueued, s.dequeued, Abs(s.heap, s.chain), s.threads[t].value);
  }

  lemma LinkLog(enqueued: seq<int>, dequeued: seq<int>, abs: seq<int>, value: int)
    requires enqueued == dequeued + abs
    ensures enqueued + [value] == dequeued + (abs + [value])
  {
  }

  lemma LinkParts(s: State, t: nat, node: nat, heap': map<nat, Node>)
    requires |s.chain| > 0 && Owned(s.heap, s.chain, s.threads) && Locked(s.threads, s.headLock, s.tailLock)
    requires AllLocalsOk(s.threads, s.heap, s.chain) && SameValues(s.heap, s.chain, heap')
    requires t < |s.threads| && s.threads[t].EnqLink? && s.threads[t].node == node
    requires heap'.Keys == s.heap.Keys && forall b: nat | b in s.heap && b != s.chain[|s.chain| - 1] ::
      b in heap' && heap'[b] == s.heap[b]
    ensures Owned(heap', s.chain + [node], s.threads[t := EnqSwing(node)])
    ensures Locked(s.threads[t := EnqSwing(node)], s.headLock, s.tailLock)
    ensures AllLocalsOk(s.threads[t := EnqSwing(node)], heap', s.chain + [node])
    ensures TailOk(s.threads[t := EnqSwing(node)], s.tail, s.tailLock, s.chain + [node])
  {
    assert HasTail(s.threads[t]);
    OwnedLoss(s.heap, s.chain, s.threads, t, EnqSwing(node), node, heap', s.chain + [node]);
    LockedUpdate(s.threads, s.headLock, s.tailLock, t, EnqSwing(node), s.headLock, s.tailLock);
    LinkLocals(s.threads, s.heap, s.chain, s.headLock, t, node, heap');
  }

  lemma MoveLinked(heap: map<nat, Node>, head: nat, chain: seq<nat>)
    requires Linked(heap, head, chain) && |chain| > 1
    ensures Linked(heap, chain[1], chain[1..])
    ensures chain[0] !in chain[1..]
    ensures Abs(heap, chain) == [heap[chain[1]].value] + Abs(heap, chain[1..])
  {
    var chain' := chain[1..];
    forall i: nat | i < |chain'|
      ensures chain'[i] in heap && heap[chain'[i]].next == LinkAt(chain', i)
    {
      assert chain'[i] == chain[i + 1];
      assert LinkAt(chain, i + 1) == LinkAt(chain', i);
    }
  }

  lemma MoveLocals(threads: seq<Thread>, heap: map<nat, Node>, chain: seq<nat>, tailLock: Option<nat>, t: nat,
                   th: Thread)
    requires |chain| > 1 && AllLocalsOk(threads, heap, chain) && t < |threads| && th.DeqUnlock?
    requires Locked(threads, Some(t), tailLock)
    ensures AllLocalsOk(threads[t := th], heap, chain[1..])
  {
    forall u: nat | u < |threads| && u != t
      ensures Undisturbed(threads[u], heap, chain, heap, chain[1..])
    {
      assert LocalsOk(threads[u], heap, chain);
    }
    LocalsUpdate(threads, heap, chain, t, th, heap, chain[1..]);
  }

  lemma MoveInv(s: State, t: nat)
    requires Inv(s) && Legal(s, Run(t)) && s.threads[t].DeqMove?
    ensures Inv(DeqStep(s, t))
    ensures Abs(s.heap, s.chain) == [s.threads[t].value] + Abs(DeqStep(s, t).heap, DeqStep(s, t).chain)
  {
    assert LocalsOk(s.threads[t], s.heap, s.chain);
    MoveShape(s, t);
    MoveDone(s, t, DeqStep(s, t));
  }

  lemma MoveShape(s: State, t: nat)
    requires Legal(s, Run(t)) && s.threads[t].DeqMove? && !s.failed
    requires Linked(s.heap, s.head, s.chain) && LocalsOk(s.threads[t], s.heap, s.chain)
    ensures |s.chain| > 1
    ensures var value := s.threads[t].value;
      DeqStep(s, t) ==
      s.(threads := s.threads[t := DeqUnlock(s.chain[0], value)], head := s.chain[1], chain := s.chain[1..],
        dequeued := s.dequeued + [value], results := s.results + [Some(value)], takers := s.takers + [t])
  {
  }

  lemma MoveDone(s: State, t: nat, s': State)
    requires Linked(s.heap, s.head, s.chain) && Owned(s.heap, s.chain, s.threads)
    requires Locked(s.threads, s.headLock, s.tailLock)
    requires AllLocalsOk(s.threads, s.heap, s.chain) && TailOk(s.threads, s.tail, s.tailLock, s.chain)
    requires s.enqueued == s.dequeued + Abs(s.heap, s.chain)
    requires t < |s.threads| && s.threads[t].DeqMove? && LocalsOk(s.threads[t], s.heap, s.chain) && !s.failed
    requires var value := s.threads[t].value;
      s' == s.(threads := s.threads[t := DeqUnlock(s.chain[0], value)], head := s.chain[1], chain := s.chain[1..],
        dequeued := s.dequeued + [value], results := s.results + [Some(value)], takers := s.takers + [t])
    ensures Inv(s') && Abs(s.heap, s.chain) == [s.threads[t].value] + Abs(s'.heap, s'.chain)
  {
    MoveLinked(s.heap, s.head, s.chain);
    MoveParts(s, t, s'.threads[t]);
    MoveLog(s.enqueued, s.dequeued, s.threads[t].value, Abs(s.heap, s.chain), Abs(s.heap, s.chain[1..]));
  }

  lemma MoveLog(enqueued: seq<int>, dequeued: seq<int>, value: int, abs: seq<int>, abs': seq<int>)
    requires enqueued == dequeued + abs && abs == [value] + abs'
    ensures enqueued == dequeued + [value] + abs'
  {
  }

  lemma MoveParts(s: State, t: nat, th: Thread)
    requires |s.chain| > 1 && Owned(s.heap, s.chain, s.threads) && Locked(s.threads, s.headLock, s.tailLock)
    requires AllLocalsOk(s.threads, s.heap, s.chain) && TailOk(s.threads, s.tail, s.tailLock, s.chain)
    requires t < |s.threads| && s.threads[t].DeqMove? && th.DeqUnlock? && th.tmp == s.chain[0]
    requires s.chain[0] !in s.chain[1..] && s.chain[0] in s.heap
    ensures Owned(s.heap, s.chain[1..], s.threads[t := th]) && Locked(s.threads[t := th], s.headLock, s.tailLock)
    ensures AllLocalsOk(s.threads[t := th], s.heap, s.chain[1..])
    ensures TailOk(s.threads[t := th], s.tail, s.tailLock, s.chain[1..])
  {
    assert HasHead(s.threads[t]);
    OwnedGain(s.heap, s.chain, s.threads, t, th, s.chain[0], s.heap, s.chain[1..]);
    LockedUpdate(s.threads, s.headLock, s.tailLock, t, th, s.headLock, s.tailLock);
    MoveLocals(s.threads, s.heap, s.chain, s.tailLock, t, th);
    TailSame(s.threads, s.tail, s.tailLock, s.chain, t, th, s.chain[1..]);
  }

  lemma EnqOtherInv(s: State, t: nat)
    requires Inv(s) && Legal(s, Run(t)) && (s.threads[t].EnqLock? || s.threads[t].EnqSwing? || s.threads[t].EnqUnlock?)
    ensures Inv(EnqStep(s, t))
  {
    var s' := EnqStep(s, t);
    assert LocalsOk(s.threads[t], s.heap, s.chain) && (HasTail(s.threads[t]) <==> s.tailLock == Some(t));
    EnqMoves(s, t);
    EnqParts(s, t, s'.threads[t], s'.tailLock);
  }

  /** What locking, writing `tail` and unlocking change. */
  lemma EnqMoves(s: State, t: nat)
    requires Legal(s, Run(t)) && (s.threads[t].EnqLock? || s.threads[t].EnqSwing? || s.threads[t].EnqUnlock?)
    requires |s.chain| > 0 && LocalsOk(s.threads[t], s.heap, s.chain) && TailOk(s.threads, s.tail, s.tailLock, s.chain)
    requires HasTail(s.threads[t]) <==> s.tailLock == Some(t)
    ensures var s' := EnqStep(s, t);
      && s' == s.(threads := s.threads[t := s'.threads[t]], tail := s'.tail, tailLock := s'.tailLock)
      && LocalsOk(s'.threads[t], s.heap, s.chain) && Owns(s'.threads[t]) == Owns(s.threads[t])
      && Moves(s.tailLock, s'.tailLock, t) && (HasTail(s'.threads[t]) <==> s'.tailLock == Some(t))
      && !HasHead(s'.threads[t]) && !HasHead(s.threads[t])
      && TailOk(s'.threads, s'.tail, s'.tailLock, s.chain)
  {
  }

  lemma EnqParts(s: State, t: nat, th: Thread, tailLock: Option<nat>)
    requires Owned(s.heap, s.chain, s.threads) && Locked(s.threads, s.headLock, s.tailLock) && t < |s.threads|
    requires |s.chain| > 0 && AllLocalsOk(s.threads, s.heap, s.chain) && LocalsOk(th, s.heap, s.chain)
    requires Owns(th) == Owns(s.threads[t]) && !HasHead(th) && !HasHead(s.threads[t])
    requires Moves(s.tailLock, tailLock, t) && (HasTail(th) <==> tailLock == Some(t))
    ensures Owned(s.heap, s.chain, s.threads[t := th]) && Locked(s.threads[t := th], s.headLock, tailLock)
    ensures AllLocalsOk(s.threads[t := th], s.heap, s.chain)
  {
    OwnedSame(s.heap, s.chain, s.threads, t, th, s.heap);
    LockedUpdate(s.threads, s.headLock, s.tailLock, t, th, s.headLock, tailLock);
    LocalsSame(s.threads, s.heap, s.chain, t, th);
  }

  /** A dequeuer that only locks, unlocks or reads: what it reads is allocated. */
  lemma DeqReads(s: State, t: nat)
    requires Linked(s.heap, s.head, s.chain) && Locked(s.threads, s.headLock, s.tailLock) && Legal(s, Run(t))
    requires LocalsOk(s.threads[t], s.heap, s.chain)
    requires !Enqueuing(s.threads[t]) && !s.threads[t].DeqMove? && !s.threads[t].DeqFree?
    ensures var s' := DeqStep(s, t);
      && s' == s.(threads := s.threads[t := s'.threads[t]], headLock := s'.headLock,
                  results := s'.results, takers := s'.takers)
      && LocalsOk(s'.threads[t], s.heap, s.chain)
      && Owns(s'.threads[t]) == Owns(s.threads[t])
      && Moves(s.headLock, s'.headLock, t) && (HasHead(s'.threads[t]) <==> s'.headLock == Some(t))
      && !HasTail(s'.threads[t]) && !HasTail(s.threads[t])
  {
    assert HasHead(s.threads[t]) <==> s.headLock == Some(t);
  }

  lemma DeqOtherInv(s: State, t: nat)
    requires Inv(s) && Legal(s, Run(t)) && !Enqueuing(s.threads[t]) && !s.threads[t].DeqMove? && !s.threads[t].DeqFree?
    ensures Inv(DeqStep(s, t))
  {
    assert LocalsOk(s.threads[t], s.heap, s.chain);
    DeqReads(s, t);
    DeqParts(s, t, DeqStep(s, t));
  }

  lemma DeqParts(s: State, t: nat, s': State)
    requires Inv(s) && t < |s.threads| && t < |s'.threads|
    requires s' == s.(threads := s.threads[t := s'.threads[t]], headLock := s'.headLock,
                      results := s'.results, takers := s'.takers)
    requires LocalsOk(s'.threads[t], s.heap, s.chain) && Owns(s'.threads[t]) == Owns(s.threads[t])
    requires Moves(s.headLock, s'.headLock, t) && (HasHead(s'.threads[t]) <==> s'.headLock == Some(t))
    requires !HasTail(s'.threads[t]) && !HasTail(s.threads[t])
    ensures Inv(s')
  {
    OwnedSame(s.heap, s.chain, s.threads, t, s'.threads[t], s.heap);
    LockedUpdate(s.threads, s.headLock, s.tailLock, t, s'.threads[t], s'.headLock, s.tailLock);
    LocalsSame(s.threads, s.heap, s.chain, t, s'.threads[t]);
    TailSame(s.threads, s.tail, s.tailLock, s.chain, t, s'.threads[t], s.chain);
  }

  lemma {:induction false} MoveKeepsInv(s: State, m: Move)
    requires Inv(s) && Legal(s, m)
    ensures Inv(Apply(s, m))
  {
    var th := s.threads[m.t];
    if m.Enqueue? { AllocInv(s, m.t, m.value, m.node, m.garbage); }
    else if m.Dequeue? { DequeueInv(s, m.t); }
    else if th.EnqInit? { NewNodeInv(s, m.t); }
    else if th.EnqLink? { LinkInv(s, m.t); }
    else if Enqueuing(th) { EnqOtherInv(s, m.t); }
    else if th.DeqMove? { MoveInv(s, m.t); }
    else if th.DeqFree? { FreeInv(s, m.t); }
    else { DeqOtherInv(s, m.t); }
  }

  lemma DequeueInv(s: State, t: nat)
    requires Inv(s) && Legal(s, Dequeue(t))
    ensures Inv(Apply(s, Dequeue(t)))
  {
    assert (HasHead(s.threads[t]) <==> s.headLock == Some(t)) && LocalsOk(DeqLock, s.heap, s.chain);
    DeqParts(s, t, Goto(s, t, DeqLock));
  }

  // ---- The queue is a FIFO queue ----

  /** A FIFO queue with the history of its operations. */
  datatype Fifo = Fifo(
    values: seq<int>,
    enqueued: seq<int>,
    enqueuers: seq<nat>,
    results: seq<Option<int>>,
    takers: seq<nat>)

  ghost function View(s: State): Fifo
  {
    Fifo(Abs(s.heap, s.chain), s.enqueued, s.enqueuers, s.results, s.takers)
  }

  /** What a step of thread `t` at `th` does to the queue: an enqueue takes effect when it writes the last
      node's `next`, a dequeue when it moves `head`, and then it has the oldest value; it finds no
      next node exactly when the queue is empty; nothing else changes the queue or its history. */
  ghost predicate FifoStep(run: bool, t: nat, th: Thread, q: Fifo, th': Thread, q': Fifo)
  {
    if run && th.EnqLink? then
      q' == q.(values := q.values + [th.value], enqueued := q.enqueued + [th.value], enqueuers := q.enqueuers + [t])
    else if run && th.DeqMove? then
      && q.values == [th.value] + q'.values
      && q' == q.(values := q'.values, results := q.results + [Some(th.value)], takers := q.takers + [t])
    else if run && th.DeqNext? then
      && (th'.DeqEmpty? <==> q.values == [])
      && q' == if q.values == [] then q.(results := q.results + [None], takers := q.takers + [t]) else q
    else q' == q
  }

  /** The queue refines a sequential FIFO queue. */
  lemma {:induction false} Refines(s: State, m: Move)
    requires Inv(s) && Legal(s, m)
    ensures var s' := Apply(s, m); FifoStep(m.Run?, m.t, s.threads[m.t], View(s), s'.threads[m.t], View(s'))
  {
    if m.Run? && s.threads[m.t].EnqLink? {
      LinkRefines(s, m.t);
    } else if m.Run? && s.threads[m.t].DeqMove? {
      TakeRefines(s, m.t);
    } else {
      MoveKeepsInv(s, m);
      OtherRefines(s, m);
      if m.Run? && s.threads[m.t].DeqNext? {
        FindsEmpty(s, m.t);
      }
    }
  }

  lemma LinkRefines(s: State, t: nat)
    requires Inv(s) && Legal(s, Run(t)) && s.threads[t].EnqLink?
    ensures var s' := Apply(s, Run(t)); FifoStep(true, t, s.threads[t], View(s), s'.threads[t], View(s'))
  {
    LinkInv(s, t);
    LinkLogs(s, t);
  }

  lemma LinkLogs(s: State, t: nat)
    requires Legal(s, Run(t)) && s.threads[t].EnqLink? && !Apply(s, Run(t)).failed
    ensures var s' := Apply(s, Run(t));
      && s' == EnqStep(s, t)
      && s'.enqueued == s.enqueued + [s.threads[t].value] && s'.enqueuers == s.enqueuers + [t]
      && s'.results == s.results && s'.takers == s.takers
  {
  }

  lemma TakeRefines(s: State, t: nat)
    requires Inv(s) && Legal(s, Run(t)) && s.threads[t].DeqMove?
    ensures var s' := Apply(s, Run(t)); FifoStep(true, t, s.threads[t], View(s), s'.threads[t], View(s'))
  {
    MoveInv(s, t);
    TakeLogs(s, t);
  }

  lemma TakeLogs(s: State, t: nat)
    requires Legal(s, Run(t)) && s.threads[t].DeqMove?
    ensures var s' := Apply(s, Run(t));
      && s' == DeqStep(s, t)
      && s'.enqueued == s.enqueued && s'.enqueuers == s.enqueuers
      && s'.results == s.results + [Some(s.threads[t].value)] && s'.takers == s.takers + [t]
  {
  }

  lemma OtherRefines(s: State, m: Move)
    requires Linked(s.heap, s.head, s.chain) && s.enqueued == s.dequeued + Abs(s.heap, s.chain) && Legal(s, m)
    requires var s' := Apply(s, m);
      Linked(s'.heap, s'.head, s'.chain) && s'.enqueued == s'.dequeued + Abs(s'.heap, s'.chain)
    requires m.Run? ==> !s.threads[m.t].EnqLink? && !s.threads[m.t].DeqMove?
    ensures Abs(Apply(s, m).heap, Apply(s, m).chain) == Abs(s.heap, s.chain)
    ensures var s' := Apply(s, m);
      && s'.enqueued == s.enqueued && s'.enqueuers == s.enqueuers
      && (!(m.Run? && s.threads[m.t].DeqNext?) ==> s'.results == s.results && s'.takers == s.takers)
  {
    SameLogs(s, m);
    SameRest(s.dequeued, Abs(s.heap, s.chain), Abs(Apply(s, m).heap, Apply(s, m).chain));
  }

  lemma SameLogs(s: State, m: Move)
    requires Legal(s, m) && (m.Run? ==> !s.threads[m.t].EnqLink? && !s.threads[m.t].DeqMove?)
    ensures var s' := Apply(s, m);
      && s'.chain == s.chain && s'.enqueued == s.enqueued && s'.dequeued == s.dequeued && s'.enqueuers == s.enqueuers
      && (!(m.Run? && s.threads[m.t].DeqNext?) ==> s'.results == s.results && s'.takers == s.takers)
  {
  }

  lemma FindsEmpty(s: State, t: nat)
    requires Inv(s) && Legal(s, Run(t)) && s.threads[t].DeqNext?
    ensures DeqStep(s, t).threads[t].DeqEmpty? <==> Abs(s.heap, s.chain) == []
    ensures var empty := Abs(s.heap, s.chain) == [];
      && DeqStep(s, t).results == (if empty then s.results + [None] else s.results)
      && DeqStep(s, t).takers == if empty then s.takers + [t] else s.takers
  {
    assert LocalsOk(s.threads[t], s.heap, s.chain);
    assert s.heap[s.chain[0]].next == LinkAt(s.chain, 0);
  }

  lemma SameRest(a: seq<int>, b: seq<int>, b': seq<int>)
    requires a + b == a + b'
    ensures b == b'
  {
    assert b == (a + b)[|a|..] && b' == (a + b')[|a|..];
  }

  // ---- Whole runs ----

  /** The state after the moves `ms`, oldest first, of `n` threads; illegal moves do nothing. */
  ghost function After(init: State, ms: seq<Move>): State
  {
    if ms == [] then init
    else
      var s := After(init, ms[..|ms| - 1]);
      if Legal(s, ms[|ms| - 1]) then Apply(s, ms[|ms| - 1]) else s
  }

  ghost predicate IsRun(init: State, ms: seq<Move>)
  {
    ms == [] || (IsRun(init, ms[..|ms| - 1]) && Legal(After(init, ms[..|ms| - 1]), ms[|ms| - 1]))
  }

  lemma {:induction false} RunInv(n: nat, dummy: nat, garbage: int, ms: seq<Move>)
    requires IsRun(Init(n, dummy, garbage), ms)
    ensures Inv(After(Init(n, dummy, garbage), ms))
  {
    if ms == [] {
      InitInv(n, dummy, garbage);
    } else {
      RunInv(n, dummy, garbage, ms[..|ms| - 1]);
      MoveKeepsInv(After(Init(n, dummy, garbage), ms[..|ms| - 1]), ms[|ms| - 1]);
    }
  }

  /** In every run, each further step does to the abstract queue what a FIFO queue would. */
  lemma {:induction false} EveryStepFifo(n: nat, dummy: nat, garbage: int, ms: seq<Move>, m: Move)
    requires IsRun(Init(n, dummy, garbage), ms) && Legal(After(Init(n, dummy, garbage), ms), m)
    ensures var s := After(Init(n, dummy, garbage), ms);
      var s' := Apply(s, m);
      && !s'.failed
      && FifoStep(m.Run?, m.t, s.threads[m.t], View(s), s'.threads[m.t], View(s'))
  {
    RunInv(n, dummy, garbage, ms);
    Refines(After(Init(n, dummy, garbage), ms), m);
    MoveKeepsInv(After(Init(n, dummy, garbage), ms), m);
  }

  /** In every reachable state no thread has touched a freed node, what was enqueued is what was
      dequeued followed by what is still in the queue, and no node is leaked: when all threads
      are idle exactly the chain is allocated. */
  lemma {:induction false} AlwaysFifoAndSafe(n: nat, dummy: nat, garbage: int, ms: seq<Move>)
    requires IsRun(Init(n, dummy, garbage), ms)
    ensures var s := After(Init(n, dummy, garbage), ms);
      && !s.failed
      && Linked(s.heap, s.head, s.chain)
      && s.enqueued == s.dequeued + Abs(s.heap, s.chain)
      && ((forall t: nat | t < |s.threads| :: s.threads[t] == Idle) ==>
            s.heap.Keys == (set a | a in s.chain) && s.tail == s.chain[|s.chain| - 1])
  {
    RunInv(n, dummy, garbage, ms);
    var s := After(Init(n, dummy, garbage), ms);
    if forall t: nat | t < |s.threads| :: s.threads[t] == Idle {
      AllIdle(s);
    }
  }

  lemma AllIdle(s: State)
    requires Inv(s) && forall t: nat | t < |s.threads| :: s.threads[t] == Idle
    ensures s.heap.Keys == (set a | a in s.chain) && s.tail == s.chain[|s.chain| - 1]
  {
    forall a: nat | a in s.heap
      ensures a in s.chain
    {
      assert forall t: nat | t < |s.threads| :: Owns(s.threads[t]) == None;
    }
    forall a | a in s.chain
      ensures a in s.heap
    {
      var i: nat :| i < |s.chain| && s.chain[i] == a;
    }
  }

  /** As long as some operation is under way, some thread that has one under way can run. */
  lemma {:induction false} SomeoneCanRun(s: State, t: nat) returns (u: nat)
    requires Inv(s) && t < |s.threads| && s.threads[t] != Idle
    ensures Legal(s, Run(u))
  {
    u := t;
    if s.threads[t].EnqLock? && s.tailLock.Some? {
      u := s.tailLock.value;
      assert HasTail(s.threads[u]);
    } else if s.threads[t].DeqLock? && s.headLock.Some? {
      u := s.headLock.value;
      assert HasHead(s.threads[u]);
    }
  }

  // ---- Every call gets what it is due ----

  /** The values thread `t` is asked to enqueue, in order. */
  function EnqueuesOf(ms: seq<Move>, t: nat): seq<int>
  {
    if ms == [] then []
    else
      var m := ms[|ms| - 1];
      EnqueuesOf(ms[..|ms| - 1], t) + if m.Enqueue? && m.t == t then [m.value] else []
  }

  /** How often thread `t` is asked to dequeue. */
  function DequeuesOf(ms: seq<Move>, t: nat): nat
  {
    if ms == [] then 0
    else
      var m := ms[|ms| - 1];
      DequeuesOf(ms[..|ms| - 1], t) + if m.Dequeue? && m.t == t then 1 else 0
  }

  /** The value of an enqueue under way that has not been linked. */
  function Unlinked(th: Thread): seq<int>
  {
    if th.EnqInit? || th.EnqLock? || th.EnqLink? then [th.value] else []
  }

  /** A dequeue under way that has not found anything yet. */
  predicate Looking(th: Thread)
  {
    th.DeqLock? || th.DeqHead? || th.DeqNext? || th.DeqValue? || th.DeqMove?
  }

  /** A thread's part of the history against its calls: it has linked the values it was asked to, in order,
      but for the one under way; each of its dequeues has a result, but for the one under way;
      and what that is about to return is its last result. */
  predicate Due(th: Thread, linked: seq<int>, results: seq<Option<int>>, enqueues: seq<int>, dequeues: nat)
  {
    && linked + Unlinked(th) == enqueues
    && |results| + (if Looking(th) then 1 else 0) == dequeues
    && (th.DeqUnlock? || th.DeqFree? ==> results != [] && results[|results| - 1] == Some(th.value))
    && (th.DeqEmpty? ==> results != [] && results[|results| - 1] == None)
  }

  function Somes(results: seq<Option<int>>): seq<int>
  {
    if results == [] then []
    else
      var r := results[|results| - 1];
      Somes(results[..|results| - 1]) + if r.Some? then [r.value] else []
  }

  ghost predicate AllDue(s: State, ms: seq<Move>)
  {
    && |s.enqueued| == |s.enqueuers| && |s.results| == |s.takers|
    && s.dequeued == Somes(s.results)
    && forall t: nat | t < |s.threads| ::
         Due(s.threads[t], By(s.enqueued, s.enqueuers, t), By(s.results, s.takers, t),
             EnqueuesOf(ms, t), DequeuesOf(ms, t))
  }

  /** What a move adds to what has been linked. */
  function LinkedBy(m: Move, th: Thread): seq<int>
  {
    if m.Run? && th.EnqLink? then [th.value] else []
  }

  /** What a move of a thread from `th` to `th'` adds to the results. */
  function FoundBy(m: Move, th: Thread, th': Thread): seq<Option<int>>
  {
    if m.Run? && th.DeqMove? then [Some(th.value)] else if m.Run? && th'.DeqEmpty? then [None] else []
  }

  lemma MoveThreads(s: State, m: Move)
    requires Legal(s, m) && !Apply(s, m).failed
    ensures Apply(s, m).threads == s.threads[m.t := Apply(s, m).threads[m.t]]
  {
  }

  lemma MoveLogs(s: State, m: Move)
    requires Legal(s, m) && !Apply(s, m).failed
    ensures var th, s' := s.threads[m.t], Apply(s, m);
      var linked, found := LinkedBy(m, th), FoundBy(m, th, s'.threads[m.t]);
      && s'.enqueued == s.enqueued + linked
      && s'.enqueuers == s.enqueuers + (if linked == [] then [] else [m.t])
      && s'.dequeued == s.dequeued + (if m.Run? && th.DeqMove? then [th.value] else [])
      && s'.results == s.results + found
      && s'.takers == s.takers + if found == [] then [] else [m.t]
  {
    if m.Run? && s.threads[m.t].EnqLink? {
      LinkLogs(s, m.t);
    } else if m.Run? && s.threads[m.t].DeqMove? {
      TakeLogs(s, m.t);
    } else {
      SameLogs(s, m);
    }
  }

  /** How the thread itself moves on. */
  lemma MoveDue(s: State, m: Move, linked: seq<int>, results: seq<Option<int>>, enqueues: seq<int>, dequeues: nat)
    requires Legal(s, m) && !Apply(s, m).failed && Due(s.threads[m.t], linked, results, enqueues, dequeues)
    ensures var th, th' := s.threads[m.t], Apply(s, m).threads[m.t];
      Due(th', linked + LinkedBy(m, th), results + FoundBy(m, th, th'),
          enqueues + (if m.Enqueue? then [m.value] else []), dequeues + if m.Dequeue? then 1 else 0)
  {
    var th, th' := s.threads[m.t], Apply(s, m).threads[m.t];
    if m.Run? && Enqueuing(th) {
      EnqThread(s, m.t);
    } else if m.Run? {
      DeqThread(s, m.t);
    }
  }

  /** The points an operation passes through, and what it carries along. */
  lemma EnqThread(s: State, t: nat)
    requires Legal(s, Run(t)) && !Apply(s, Run(t)).failed && Enqueuing(s.threads[t])
    ensures var th, th' := s.threads[t], Apply(s, Run(t)).threads[t];
      && (th.EnqInit? ==> th'.EnqLock? && th'.value == th.value)
      && (th.EnqLock? ==> th'.EnqLink? && th'.value == th.value)
      && (th.EnqLink? ==> th'.EnqSwing?) && (th.EnqSwing? ==> th'.EnqUnlock?) && (th.EnqUnlock? ==> th' == Idle)
  {
  }

  lemma DeqThread(s: State, t: nat)
    requires Legal(s, Run(t)) && !Apply(s, Run(t)).failed && !Enqueuing(s.threads[t])
    ensures var th, th' := s.threads[t], Apply(s, Run(t)).threads[t];
      && (th.DeqLock? ==> th'.DeqHead?) && (th.DeqHead? ==> th'.DeqNext?)
      && (th.DeqNext? ==> th'.DeqEmpty? || th'.DeqValue?) && (th.DeqEmpty? ==> th' == Idle)
      && (th.DeqValue? ==> th'.DeqMove?)
      && (th.DeqMove? ==> th'.DeqUnlock? && th'.value == th.value)
      && (th.DeqUnlock? ==> th'.DeqFree? && th'.value == th.value) && (th.DeqFree? ==> th' == Idle)
  {
  }

  lemma SomesLonger(results: seq<Option<int>>, more: seq<Option<int>>)
    requires |more| <= 1
    ensures Somes(results + more) == Somes(results) + if more != [] && more[0].Some? then [more[0].value] else []
  {
    if more == [] {
      assert results + more == results;
    } else {
      assert (results + more)[..|results|] == results;
    }
  }

  lemma CallsLonger(ms: seq<Move>, m: Move, t: nat)
    ensures EnqueuesOf(ms + [m], t) == EnqueuesOf(ms, t) + if m.Enqueue? && m.t == t then [m.value] else []
    ensures DequeuesOf(ms + [m], t) == DequeuesOf(ms, t) + if m.Dequeue? && m.t == t then 1 else 0
  {
    assert (ms + [m])[..|ms|] == ms;
  }

  /** What thread `t` is due after a step of thread `u` that adds to the logs. */
  ghost predicate DueAfter(s: State, ms: seq<Move>, t: nat, th: Thread, u: nat, linked: seq<int>,
                           found: seq<Option<int>>)
  {
    && |s.enqueued| == |s.enqueuers| && |s.results| == |s.takers| && |linked| <= 1 && |found| <= 1
    && Due(th,
           By(s.enqueued + linked, s.enqueuers + (if linked == [] then [] else [u]), t),
           By(s.results + found, s.takers + (if found == [] then [] else [u]), t),
           EnqueuesOf(ms, t), DequeuesOf(ms, t))
  }

  lemma OtherDue(s: State, ms: seq<Move>, m: Move, t: nat, linked: seq<int>, found: seq<Option<int>>)
    requires AllDue(s, ms) && t < |s.threads| && t != m.t && |linked| <= 1 && |found| <= 1
    ensures DueAfter(s, ms + [m], t, s.threads[t], m.t, linked, found)
  {
    ByLonger(s.enqueued, s.enqueuers, linked, m.t, t);
    ByLonger(s.results, s.takers, found, m.t, t);
    CallsLonger(ms, m, t);
  }

  lemma OwnDue(s: State, ms: seq<Move>, m: Move, linked: seq<int>, found: seq<Option<int>>)
    requires AllDue(s, ms) && Legal(s, m) && !Apply(s, m).failed
    requires linked == LinkedBy(m, s.threads[m.t]) && found == FoundBy(m, s.threads[m.t], Apply(s, m).threads[m.t])
    ensures DueAfter(s, ms + [m], m.t, Apply(s, m).threads[m.t], m.t, linked, found)
  {
    var t := m.t;
    MoveDue(s, m, By(s.enqueued, s.enqueuers, t), By(s.results, s.takers, t), EnqueuesOf(ms, t), DequeuesOf(ms, t));
    ByLonger(s.enqueued, s.enqueuers, linked, t, t);
    ByLonger(s.results, s.takers, found, t, t);
    CallsLonger(ms, m, t);
  }

  lemma StillDue(s: State, ms: seq<Move>, m: Move)
    requires AllDue(s, ms) && Legal(s, m) && !Apply(s, m).failed
    ensures AllDue(Apply(s, m), ms + [m])
  {
    var linked := LinkedBy(m, s.threads[m.t]);
    var found := FoundBy(m, s.threads[m.t], Apply(s, m).threads[m.t]);
    MoveLogs(s, m);
    MoveThreads(s, m);
    SomesLonger(s.results, found);
    forall t: nat | t < |s.threads|
      ensures DueAfter(s, ms + [m], t, Apply(s, m).threads[t], m.t, linked, found)
    {
      if t == m.t {
        OwnDue(s, ms, m, linked, found);
      } else {
        OtherDue(s, ms, m, t, linked, found);
      }
    }
    AllAfter(s, Apply(s, m), ms + [m], m.t, linked, found);
  }

  lemma AllAfter(s: State, s': State, ms: seq<Move>, u: nat, linked: seq<int>, found: seq<Option<int>>)
    requires |s.enqueued| == |s.enqueuers| && |s.results| == |s.takers| && |linked| <= 1 && |found| <= 1
    requires s'.enqueued == s.enqueued + linked && s'.enqueuers == s.enqueuers + if linked == [] then [] else [u]
    requires s'.results == s.results + found && s'.takers == s.takers + if found == [] then [] else [u]
    requires s'.dequeued == Somes(s'.results)
    requires forall t: nat | t < |s'.threads| :: DueAfter(s, ms, t, s'.threads[t], u, linked, found)
    ensures AllDue(s', ms)
  {
    forall t: nat | t < |s'.threads|
      ensures Due(s'.threads[t], By(s'.enqueued, s'.enqueuers, t), By(s'.results, s'.takers, t),
                  EnqueuesOf(ms, t), DequeuesOf(ms, t))
    {
      assert DueAfter(s, ms, t, s'.threads[t], u, linked, found);
    }
  }

  /** In every reachable state each thread has linked exactly the values it was asked to enqueue, in order,
      but for one under way, each of its dequeues has one result, but for one under way, and what
      it is about to return is that result; the values among the results are those moved past. */
  lemma {:induction false} EveryCallDue(n: nat, dummy: nat, garbage: int, ms: seq<Move>)
    requires IsRun(Init(n, dummy, garbage), ms)
    ensures AllDue(After(Init(n, dummy, garbage), ms), ms)
  {
    if ms != [] {
      var ms', m := ms[..|ms| - 1], ms[|ms| - 1];
      EveryCallDue(n, dummy, garbage, ms');
      RunInv(n, dummy, garbage, ms');
      MoveKeepsInv(After(Init(n, dummy, garbage), ms'), m);
      StillDue(After(Init(n, dummy, garbage), ms'), ms', m);
      assert ms == ms' + [m];
    }
  }

  // ---- Every operation completes ----

  /** Steps an operation still takes, at most. */
  function LeftOf(th: Thread): nat
  {
    if th.EnqInit? then 5
    else if th.EnqLock? then 4
    else if th.EnqLink? then 3
    else if th.EnqSwing? then 2
    else if th.EnqUnlock? then 1
    else if th.DeqLock? then 7
    else if th.DeqHead? then 6
    else if th.DeqNext? then 5
    else if th.DeqEmpty? then 1
    else if th.DeqValue? then 4
    else if th.DeqMove? then 3
    else if th.DeqUnlock? then 2
    else if th.DeqFree? then 1
    else 0
  }

  function Left(): (nat, Thread) -> int
  {
    (t: nat, th: Thread) => LeftOf(th)
  }

  ghost predicate AllAtRest(s: State)
  {
    forall t: nat | t < |s.threads| :: s.threads[t] == Idle
  }

  lemma RunCheaper(s: State, t: nat)
    requires Legal(s, Run(t)) && !Apply(s, Run(t)).failed
    ensures var s' := Apply(s, Run(t));
      s'.threads == s.threads[t := s'.threads[t]] && LeftOf(s'.threads[t]) < LeftOf(s.threads[t])
  {
    MoveThreads(s, Run(t));
    if Enqueuing(s.threads[t]) { EnqThread(s, t); } else { DeqThread(s, t); }
  }

  lemma MoreRun(init: State, ms: seq<Move>, m: Move)
    requires IsRun(init, ms) && Legal(After(init, ms), m)
    ensures IsRun(init, ms + [m]) && After(init, ms + [m]) == Apply(After(init, ms), m)
  {
    assert (ms + [m])[..|ms|] == ms;
  }

  lemma CheaperRun(n: nat, dummy: nat, garbage: int, ms: seq<Move>, t: nat)
    requires IsRun(Init(n, dummy, garbage), ms) && Legal(After(Init(n, dummy, garbage), ms), Run(t))
    ensures IsRun(Init(n, dummy, garbage), ms + [Run(t)])
    ensures 0 <= Total(Left(), After(Init(n, dummy, garbage), ms + [Run(t)]).threads)
      < Total(Left(), After(Init(n, dummy, garbage), ms).threads)
  {
    var s := After(Init(n, dummy, garbage), ms);
    RunInv(n, dummy, garbage, ms);
    MoveKeepsInv(s, Run(t));
    MoreRun(Init(n, dummy, garbage), ms, Run(t));
    RunCheaper(s, t);
    TotalUpdate(Left(), s.threads, t, Apply(s, Run(t)).threads[t]);
    TotalNonNegative(Left(), Apply(s, Run(t)).threads);
  }

  lemma NextToRun(n: nat, dummy: nat, garbage: int, ms: seq<Move>) returns (u: nat)
    requires IsRun(Init(n, dummy, garbage), ms) && !AllAtRest(After(Init(n, dummy, garbage), ms))
    ensures Legal(After(Init(n, dummy, garbage), ms), Run(u))
  {
    var s := After(Init(n, dummy, garbage), ms);
    RunInv(n, dummy, garbage, ms);
    var t: nat :| t < |s.threads| && s.threads[t] != Idle;
    u := SomeoneCanRun(s, t);
  }

  /** Every run can be continued, without any new operation, until all operations are completed,
      within as many steps as their threads have left. */
  lemma {:induction false} EveryOperationCompletes(n: nat, dummy: nat, garbage: int, ms: seq<Move>)
    returns (full: seq<Move>)
    requires IsRun(Init(n, dummy, garbage), ms)
    ensures IsRun(Init(n, dummy, garbage), full) && ms <= full && AllAtRest(After(Init(n, dummy, garbage), full))
    ensures forall k | |ms| <= k < |full| :: full[k].Run?
    ensures |full| - |ms| <= Total(Left(), After(Init(n, dummy, garbage), ms).threads)
    decreases Total(Left(), After(Init(n, dummy, garbage), ms).threads)
  {
    if AllAtRest(After(Init(n, dummy, garbage), ms)) {
      TotalNonNegative(Left(), After(Init(n, dummy, garbage), ms).threads);
      full := ms;
    } else {
      var u := NextToRun(n, dummy, garbage, ms);
      CheaperRun(n, dummy, garbage, ms, u);
      full := EveryOperationCompletes(n, dummy, garbage, ms + [Run(u)]);
    }
  }
}
