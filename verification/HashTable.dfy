/** The hash table of `conchsh.h` under any interleaving of insertions and lookups: one lock for
    each of its lists (`concllist.h`). */
module HashTable {
  import opened Basics
  import opened HashLists

  /** A node belongs to the thread that has allocated it until it is linked into a list. */
  datatype Home = Private(t: nat) | Linked(b: int)
  datatype Node = Node(key: int, next: Option<nat>, home: Home)

  /** Where a thread is, with its local variables. `pos` counts the nodes a lookup has passed. */
  datatype Thread =
    | Idle
    | Malloc(key: int)
    | LockInsert(key: int, new_: nat)
    | SetNext(key: int, new_: nat)
    | SetHead(key: int, new_: nat)
    | UnlockInsert(key: int)
    | LockLookup(key: int)
    | GetHead(key: int)
    | Walk(key: int, curr: Option<nat>, pos: nat)
    | UnlockLookup(key: int, rv: int)

  /** For the accounts: `inserted` are the keys whose nodes have been linked, oldest first, and `inserters`
      says by whom; `answered` are the keys that lookups have found or not found, and `askers`
      whose they were; `chains` are the nodes of each list from its head. */
  datatype State = State(
    heap: seq<Node>,
    heads: seq<Option<nat>>,
    locks: seq<Option<nat>>,
    threads: seq<Thread>,
    inserted: seq<int>,
    chains: seq<seq<nat>>,
    inserters: seq<nat>,
    answered: seq<int>,
    askers: seq<nat>)

  function Init(n: nat): State
  {
    State([], seq(BUCKETS, b => None), seq(BUCKETS, b => None), seq(n, t => Idle), [], seq(BUCKETS, b => []),
          [], [], [])
  }

  datatype Move = Insert(t: nat, key: int) | Lookup(t: nat, key: int) | Run(t: nat)

  predicate Sized(s: State)
  {
    && |s.heads| == |s.locks| == |s.chains| == BUCKETS
    && forall t: nat | t < |s.threads| && !s.threads[t].Idle? :: InTable(s.threads[t].key)
  }

  predicate Legal(s: State, m: Move)
    requires Sized(s)
  {
    && m.t < |s.threads|
    && var th := s.threads[m.t];
       match m
       case Insert(t, key) => th.Idle? && InTable(key)
       case Lookup(t, key) => th.Idle? && InTable(key)
       case Run(t) =>
         && !th.Idle?
         && (th.LockInsert? || th.LockLookup? ==> s.locks[Bucket(th.key)] == None)
         && (th.SetNext? || th.SetHead? ==> th.new_ < |s.heap|)
         && (th.Walk? && th.curr.Some? ==> th.curr.value < |s.heap|)
  }

  function Goto(s: State, t: nat, th: Thread): State
    requires t < |s.threads|
  {
    s.(threads := s.threads[t := th])
  }

  function InsertStep(s: State, t: nat): State
    requires Sized(s) && Legal(s, Run(t))
  {
    var th := s.threads[t];
    var b := Bucket(th.key);
    if th.Malloc? then Goto(s, t, LockInsert(th.key, |s.heap|)).(heap := s.heap + [Node(th.key, None, Private(t))])
    else if th.LockInsert? then Goto(s, t, SetNext(th.key, th.new_)).(locks := s.locks[b := Some(t)])
    else if th.SetNext? then
      Goto(s, t, SetHead(th.key, th.new_)).(heap := s.heap[th.new_ := s.heap[th.new_].(next := s.heads[b])])
    else if th.SetHead? then
      Goto(s, t, UnlockInsert(th.key)).(
        heads := s.heads[b := Some(th.new_)],
        heap := s.heap[th.new_ := s.heap[th.new_].(home := Linked(b))],
        inserted := s.inserted + [th.key],
        inserters := s.inserters + [t],
        chains := s.chains[b := [th.new_] + s.chains[b]])
    else Goto(s, t, Idle).(locks := s.locks[b := None])
  }

  /** One turn of the loop of `List_Lookup`. */
  function Walked(heap: seq<Node>, th: Thread): Thread
    requires th.Walk? && (th.curr.Some? ==> th.curr.value < |heap|)
  {
    if th.curr == None then UnlockLookup(th.key, -1)
    else if heap[th.curr.value].key == th.key then UnlockLookup(th.key, 0)
    else Walk(th.key, heap[th.curr.value].next, th.pos + 1)
  }

  function LookupStep(s: State, t: nat): State
    requires Sized(s) && Legal(s, Run(t))
  {
    var th := s.threads[t];
    var b := Bucket(th.key);
    if th.LockLookup? then Goto(s, t, GetHead(th.key)).(locks := s.locks[b := Some(t)])
    else if th.GetHead? then Goto(s, t, Walk(th.key, s.heads[b], 0))
    else if th.Walk? then
      var s' := Goto(s, t, Walked(s.heap, th));
      if Walked(s.heap, th).Walk? then s' else s'.(answered := s.answered + [th.key], askers := s.askers + [t])
    else Goto(s, t, Idle).(locks := s.locks[b := None])
  }

  predicate Inserting(th: Thread)
  {
    th.Malloc? || th.LockInsert? || th.SetNext? || th.SetHead? || th.UnlockInsert?
  }

  function Apply(s: State, m: Move): State
    requires Sized(s) && Legal(s, m)
  {
    match m
    case Insert(t, key) => Goto(s, t, Malloc(key))
    case Lookup(t, key) => Goto(s, t, LockLookup(key))
    case Run(t) => if Inserting(s.threads[t]) then InsertStep(s, t) else LookupStep(s, t)
  }

  // ---- The invariant ----

  predicate Holds(th: Thread, b: int)
  {
    && (th.SetNext? || th.SetHead? || th.UnlockInsert? || th.GetHead? || th.Walk? || th.UnlockLookup?)
    && Bucket(th.key) == b
  }

  ghost predicate Locked(threads: seq<Thread>, locks: seq<Option<nat>>)
  {
    && (forall t: nat, b: nat | t < |threads| && b < |locks| :: Holds(threads[t], b) <==> locks[b] == Some(t))
    && forall b: nat | b < |locks| && locks[b].Some? :: locks[b].value < |threads|
  }

  function NodeAt(chain: seq<nat>, i: nat): Option<nat>
  {
    if i < |chain| then Some(chain[i]) else None
  }

  /** From `head` the links lead through `chain`, no node twice, to the end, and the keys are `keys`. */
  ghost predicate ChainOk(heap: seq<Node>, head: Option<nat>, chain: seq<nat>, keys: seq<int>, b: int)
  {
    && |chain| == |keys| && head == NodeAt(chain, 0)
    && (forall i: nat | i < |chain| :: chain[i] < |heap|)
    && (forall i: nat {:trigger heap[chain[i]]} | i < |chain| ::
          && heap[chain[i]].home == Linked(b)
          && heap[chain[i]].key == keys[i] && heap[chain[i]].next == NodeAt(chain, i + 1))
    && forall i: nat, j: nat | i < j < |chain| :: chain[i] != chain[j]
  }

  /** What a thread's variables say of the list it works on: of its nodes and keys if it holds the lock. */
  ghost predicate ThreadOk(heap: seq<Node>, head: Option<nat>, chain: seq<nat>, keys: seq<int>, t: nat, th: Thread)
  {
    && (th.LockInsert? || th.SetNext? || th.SetHead? ==>
          th.new_ < |heap| && heap[th.new_].key == th.key && heap[th.new_].home == Private(t))
    && (th.SetHead? ==> heap[th.new_].next == head)
    && (th.Walk? ==> th.pos <= |chain| && th.curr == NodeAt(chain, th.pos))
    && (th.Walk? ==> th.pos <= |keys| && th.key !in keys[..th.pos])
    && (th.UnlockLookup? ==> th.rv == if th.key in keys then 0 else -1)
  }

  ghost predicate ChainsOk(s: State)
  {
    |s.heads| == |s.chains| == BUCKETS
    && forall b: nat | b < BUCKETS :: ChainOk(s.heap, s.heads[b], s.chains[b], Newest(s.inserted, b), b)
  }

  ghost predicate ThreadInv(s: State, t: nat)
    requires Sized(s) && t < |s.threads|
  {
    s.threads[t].Idle? ||
    var b := Bucket(s.threads[t].key);
    ThreadOk(s.heap, s.heads[b], s.chains[b], Newest(s.inserted, b), t, s.threads[t])
  }

  ghost predicate Inv(s: State)
  {
    && Sized(s)
    && Locked(s.threads, s.locks)
    && ChainsOk(s)
    && forall t: nat | t < |s.threads| :: ThreadInv(s, t)
  }

  lemma InitInv(n: nat)
    ensures Inv(Init(n))
  {
  }

  // ---- Every move keeps the invariant ----

  lemma LockedUpdate(threads: seq<Thread>, locks: seq<Option<nat>>, t: nat, th: Thread, b: nat, lock: Option<nat>)
    requires Locked(threads, locks) && t < |threads| && b < |locks|
    requires Moves(locks[b], lock, t) && (Holds(th, b) <==> lock == Some(t))
    requires forall k: nat | k != b :: !Holds(th, k) && !Holds(threads[t], k)
    ensures Locked(threads[t := th], locks[b := lock])
  {
    var threads', locks' := threads[t := th], locks[b := lock];
    forall u: nat, k: nat | u < |threads'| && k < |locks'|
      ensures Holds(threads'[u], k) <==> locks'[k] == Some(u)
    {
      assert Holds(threads[u], k) <==> locks[k] == Some(u);
    }
  }

  /** Thread `t`'s nodes, private before the step and after it, are the only ones that change. */
  ghost predicate HeapMoves(heap: seq<Node>, heap': seq<Node>, t: nat)
  {
    && |heap| <= |heap'|
    && forall a: nat | a < |heap| && heap[a] != heap'[a] :: heap[a].home == Private(t)
  }

  lemma ChainStays(heap: seq<Node>, heap': seq<Node>, head: Option<nat>, chain: seq<nat>, keys: seq<int>, b: int,
                   t: nat)
    requires ChainOk(heap, head, chain, keys, b) && HeapMoves(heap, heap', t)
    ensures ChainOk(heap', head, chain, keys, b)
  {
  }

  /** A thread keeps what it knows while another changes its own nodes, and its own list if the
      thread does not hold that list's lock. */
  lemma OtherStays(heap: seq<Node>, heap': seq<Node>, head: Option<nat>, chain: seq<nat>, keys: seq<int>,
                   head': Option<nat>, chain': seq<nat>, keys': seq<int>, t: nat, u: nat, th: Thread)
    requires ThreadOk(heap, head, chain, keys, u, th) && HeapMoves(heap, heap', t) && u != t
    requires (head' == head && chain' == chain && keys' == keys) || th.Malloc? || th.LockInsert? || th.LockLookup?
    ensures ThreadOk(heap', head', chain', keys', u, th)
  {
  }

  /** A step that changes nothing of the lists. */
  lemma QuietStep(s: State, t: nat, s': State)
    requires Inv(s) && t < |s.threads| && |s'.threads| == |s.threads| && s'.threads == s.threads[t := s'.threads[t]]
    requires s'.heads == s.heads && s'.inserted == s.inserted && s'.chains == s.chains
    requires HeapMoves(s.heap, s'.heap, t)
    requires Sized(s') && Locked(s'.threads, s'.locks) && ThreadInv(s', t)
    ensures Inv(s')
  {
    forall b: nat | b < BUCKETS
      ensures ChainOk(s'.heap, s'.heads[b], s'.chains[b], Newest(s'.inserted, b), b)
    {
      ChainStays(s.heap, s'.heap, s.heads[b], s.chains[b], Newest(s.inserted, b), b, t);
    }
    forall u: nat | u < |s'.threads|
      ensures ThreadInv(s', u)
    {
      assert ThreadInv(s, u);
      if u != t && !s.threads[u].Idle? {
        var b := Bucket(s.threads[u].key);
        var keys := Newest(s.inserted, b);
        OtherStays(s.heap, s'.heap, s.heads[b], s.chains[b], keys, s.heads[b], s.chains[b], keys, t, u, s.threads[u]);
      }
    }
  }

  /** Linking a private node before the head. */
  lemma ChainGrows(heap: seq<Node>, head: Option<nat>, chain: seq<nat>, keys: seq<int>, b: int, t: nat, a: nat,
                   key: int)
    requires ChainOk(heap, head, chain, keys, b)
    requires a < |heap| && heap[a] == Node(key, head, Private(t))
    ensures ChainOk(heap[a := heap[a].(home := Linked(b))], Some(a), [a] + chain, [key] + keys, b)
  {
    var heap', chain', keys' := heap[a := heap[a].(home := Linked(b))], [a] + chain, [key] + keys;
    forall i: nat | i < |chain'|
      ensures chain'[i] < |heap'| && heap'[chain'[i]].home == Linked(b)
      ensures heap'[chain'[i]].key == keys'[i] && heap'[chain'[i]].next == NodeAt(chain', i + 1)
      ensures i > 0 ==> chain'[i] != a
    {
    }
  }

  lemma SetHeadChains(s: State, t: nat)
    requires Inv(s) && t < |s.threads| && s.threads[t].SetHead? && Legal(s, Run(t))
    ensures ChainsOk(InsertStep(s, t))
  {
    var th, s' := s.threads[t], InsertStep(s, t);
    var b0 := Bucket(th.key);
    assert ThreadInv(s, t);
    forall b: nat | b < BUCKETS
      ensures ChainOk(s'.heap, s'.heads[b], s'.chains[b], Newest(s'.inserted, b), b)
    {
      NewestAppend(s.inserted, th.key, b);
      var keys := Newest(s.inserted, b);
      if b == b0 {
        ChainGrows(s.heap, s.heads[b], s.chains[b], keys, b, t, th.new_, th.key);
      } else {
        assert [] + keys == keys;
        ChainStays(s.heap, s'.heap, s.heads[b], s.chains[b], keys, b, t);
      }
    }
  }

  /** Two threads do not hold the lock of one list. */
  lemma SameLock(s: State, t: nat, u: nat, b: nat)
    requires Locked(s.threads, s.locks) && t < |s.threads| && u < |s.threads| && t != u && b < |s.locks|
    requires Holds(s.threads[t], b)
    ensures !Holds(s.threads[u], b)
  {
    assert s.locks[b] == Some(t);
  }

  lemma SetHeadThreads(s: State, t: nat, u: nat)
    requires Inv(s) && t < |s.threads| && s.threads[t].SetHead? && Legal(s, Run(t)) && u < |s.threads|
    requires Sized(InsertStep(s, t))
    ensures ThreadInv(InsertStep(s, t), u)
  {
    var th, s' := s.threads[t], InsertStep(s, t);
    assert ThreadInv(s, t) && ThreadInv(s, u);
    if u != t && !s.threads[u].Idle? {
      var b := Bucket(s.threads[u].key);
      NewestAppend(s.inserted, th.key, b);
      assert [] + Newest(s.inserted, b) == Newest(s.inserted, b);
      if b == Bucket(th.key) {
        SameLock(s, t, u, b);
      }
      OtherStays(s.heap, s'.heap, s.heads[b], s.chains[b], Newest(s.inserted, b), s'.heads[b], s'.chains[b],
        Newest(s'.inserted, b), t, u, s.threads[u]);
    }
  }

  /** What a step does to the lock of the thread's list. */
  lemma StepLocked(s: State, t: nat)
    requires Inv(s) && Legal(s, Run(t))
    ensures var s' := Apply(s, Run(t)); Sized(s') && Locked(s'.threads, s'.locks)
  {
    var th, s' := s.threads[t], Apply(s, Run(t));
    var b := Bucket(th.key);
    assert Holds(th, b) <==> s.locks[b] == Some(t);
    assert s.locks[b := s.locks[b]] == s.locks;
    LockedUpdate(s.threads, s.locks, t, s'.threads[t], b, s'.locks[b]);
  }

  /** One step of a lookup along its list. */
  lemma WalkStep(heap: seq<Node>, head: Option<nat>, chain: seq<nat>, keys: seq<int>, b: int, t: nat, th: Thread)
    requires ChainOk(heap, head, chain, keys, b) && ThreadOk(heap, head, chain, keys, t, th) && th.Walk?
    ensures th.curr == None ==> th.key !in keys
    ensures th.curr.Some? ==>
      && th.curr.value < |heap| && th.pos < |chain|
      && (heap[th.curr.value].key == th.key ==> th.key in keys)
      && (heap[th.curr.value].key != th.key ==> th.key !in keys[..th.pos + 1])
      && heap[th.curr.value].next == NodeAt(chain, th.pos + 1)
  {
    Passed(keys, th.pos, th.key);
  }

  lemma Passed(keys: seq<int>, pos: nat, key: int)
    requires pos <= |keys| && key !in keys[..pos]
    ensures pos == |keys| ==> key !in keys
    ensures pos < |keys| ==> (keys[pos] != key ==> key !in keys[..pos + 1]) && keys[pos] in keys
  {
    if pos == |keys| {
      assert keys[..pos] == keys;
    } else {
      assert keys[..pos + 1] == keys[..pos] + [keys[pos]];
    }
  }

  /** A step of an insertion, short of linking the node: what the thread knows then. */
  lemma InsertKnows(s: State, t: nat)
    requires Sized(s) && Legal(s, Run(t)) && Inserting(s.threads[t]) && !s.threads[t].SetHead? && ThreadInv(s, t)
    requires Sized(InsertStep(s, t))
    ensures ThreadInv(InsertStep(s, t), t) && HeapMoves(s.heap, InsertStep(s, t).heap, t)
  {
  }

  lemma LookupKnows(s: State, t: nat)
    requires Sized(s) && Legal(s, Run(t)) && !Inserting(s.threads[t]) && ThreadInv(s, t) && ChainsOk(s)
    requires Sized(LookupStep(s, t))
    ensures ThreadInv(LookupStep(s, t), t)
  {
    var th, b := s.threads[t], Bucket(s.threads[t].key);
    assert ChainOk(s.heap, s.heads[b], s.chains[b], Newest(s.inserted, b), b);
    if th.Walk? {
      WalkedKnows(s.heap, s.heads[b], s.chains[b], Newest(s.inserted, b), b, t, th);
    }
  }

  lemma WalkedKnows(heap: seq<Node>, head: Option<nat>, chain: seq<nat>, keys: seq<int>, b: int, t: nat, th: Thread)
    requires ChainOk(heap, head, chain, keys, b) && ThreadOk(heap, head, chain, keys, t, th)
    requires th.Walk? && (th.curr.Some? ==> th.curr.value < |heap|)
    ensures ThreadOk(heap, head, chain, keys, t, Walked(heap, th))
  {
    WalkStep(heap, head, chain, keys, b, t, th);
  }

  lemma RunKeepsInv(s: State, t: nat)
    requires Inv(s) && Legal(s, Run(t))
    ensures Inv(Apply(s, Run(t)))
  {
    var th, s' := s.threads[t], Apply(s, Run(t));
    assert ThreadInv(s, t);
    StepLocked(s, t);
    if th.SetHead? {
      SetHeadChains(s, t);
      forall u: nat | u < |s'.threads|
        ensures ThreadInv(s', u)
      {
        SetHeadThreads(s, t, u);
      }
    } else {
      if Inserting(th) {
        InsertKnows(s, t);
      } else {
        LookupKnows(s, t);
      }
      QuietStep(s, t, s');
    }
  }

  lemma {:induction false} MoveKeepsInv(s: State, m: Move)
    requires Inv(s) && Legal(s, m)
    ensures Inv(Apply(s, m))
  {
    if m.Run? {
      RunKeepsInv(s, m.t);
    } else {
      var b := Bucket(m.key);
      assert !Holds(s.threads[m.t], b);
      assert s.locks[b] != Some(m.t) && s.locks[b := s.locks[b]] == s.locks;
      LockedUpdate(s.threads, s.locks, m.t, Apply(s, m).threads[m.t], b, s.locks[b]);
      QuietStep(s, m.t, Apply(s, m));
    }
  }

  // ---- Whole runs ----

  /** The state after the moves `ms`, oldest first, of `n` threads; illegal moves do nothing. */
  ghost function After(n: nat, ms: seq<Move>): State
  {
    if ms == [] then Init(n)
    else
      var s := After(n, ms[..|ms| - 1]);
      if Sized(s) && Legal(s, ms[|ms| - 1]) then Apply(s, ms[|ms| - 1]) else s
  }

  ghost predicate IsRun(n: nat, ms: seq<Move>)
  {
    ms == [] ||
    var s := After(n, ms[..|ms| - 1]);
    IsRun(n, ms[..|ms| - 1]) && Sized(s) && Legal(s, ms[|ms| - 1])
  }

  lemma {:induction false} RunInv(n: nat, ms: seq<Move>)
    requires IsRun(n, ms)
    ensures Inv(After(n, ms))
  {
    if ms == [] {
      InitInv(n);
    } else {
      RunInv(n, ms[..|ms| - 1]);
      MoveKeepsInv(After(n, ms[..|ms| - 1]), ms[|ms| - 1]);
    }
  }

  /** The keys met from a head pointer, following at most `fuel` links. */
  function Keys(heap: seq<Node>, head: Option<nat>, fuel: nat): seq<int>
    decreases fuel
  {
    if fuel == 0 || head == None || head.value >= |heap| then []
    else [heap[head.value].key] + Keys(heap, heap[head.value].next, fuel - 1)
  }

  lemma {:induction false} KeysOnChain(heap: seq<Node>, head: Option<nat>, chain: seq<nat>, keys: seq<int>, b: int,
                                       i: nat, fuel: nat)
    requires ChainOk(heap, head, chain, keys, b) && i <= |chain| && fuel >= |chain| - i
    ensures Keys(heap, NodeAt(chain, i), fuel) == keys[i..]
    decreases |chain| - i
  {
    if i < |chain| {
      KeysOnChain(heap, head, chain, keys, b, i + 1, fuel - 1);
      KeysFirst(heap, chain[i], fuel);
      assert keys[i..] == [keys[i]] + keys[i + 1..];
    }
  }

  lemma KeysFirst(heap: seq<Node>, a: nat, fuel: nat)
    requires a < |heap| && fuel > 0
    ensures Keys(heap, Some(a), fuel) == [heap[a].key] + Keys(heap, heap[a].next, fuel - 1)
  {
  }

  /** In every reachable state each list ends, and following it to its end meets exactly the keys
      inserted with its residue, the newest first. A lookup about to return answers 0 exactly if
      its key is among the inserted ones at that moment, its list still being locked. */
  lemma AlwaysExact(n: nat, ms: seq<Move>, more: nat)
    requires IsRun(n, ms)
    ensures var s := After(n, ms);
      && |s.heads| == BUCKETS
      && (forall b: nat | b < BUCKETS :: Keys(s.heap, s.heads[b], |s.inserted| + more) == Newest(s.inserted, b))
      && forall t: nat | t < |s.threads| && s.threads[t].UnlockLookup? ::
           (s.threads[t].rv == 0 <==> s.threads[t].key in s.inserted) && (s.threads[t].rv == 0 || s.threads[t].rv == -1)
  {
    RunInv(n, ms);
    ListsExact(After(n, ms), more);
    AnswersExact(After(n, ms));
  }

  lemma ListsExact(s: State, more: nat)
    requires ChainsOk(s)
    ensures forall b: nat | b < BUCKETS :: Keys(s.heap, s.heads[b], |s.inserted| + more) == Newest(s.inserted, b)
  {
    forall b: nat | b < BUCKETS
      ensures Keys(s.heap, s.heads[b], |s.inserted| + more) == Newest(s.inserted, b)
    {
      ListExact(s.heap, s.heads[b], s.chains[b], s.inserted, b, more);
    }
  }

  lemma AnswersExact(s: State)
    requires Sized(s) && forall t: nat | t < |s.threads| :: ThreadInv(s, t)
    ensures forall t: nat | t < |s.threads| && s.threads[t].UnlockLookup? ::
      (s.threads[t].rv == 0 <==> s.threads[t].key in s.inserted) && (s.threads[t].rv == 0 || s.threads[t].rv == -1)
  {
    forall t: nat | t < |s.threads| && s.threads[t].UnlockLookup?
      ensures s.threads[t].rv == if s.threads[t].key in s.inserted then 0 else -1
    {
      AnswerExact(s, t);
    }
  }

  lemma ListExact(heap: seq<Node>, head: Option<nat>, chain: seq<nat>, inserted: seq<int>, b: int, more: nat)
    requires ChainOk(heap, head, chain, Newest(inserted, b), b)
    ensures Keys(heap, head, |inserted| + more) == Newest(inserted, b)
  {
    NewestShorter(inserted, b);
    KeysOnChain(heap, head, chain, Newest(inserted, b), b, 0, |inserted| + more);
  }

  lemma AnswerExact(s: State, t: nat)
    requires Sized(s) && t < |s.threads| && s.threads[t].UnlockLookup? && ThreadInv(s, t)
    ensures s.threads[t].rv == if s.threads[t].key in s.inserted then 0 else -1
  {
    NewestHas(s.inserted, s.threads[t].key);
  }

  lemma {:induction false} NewestShorter(inserted: seq<int>, b: int)
    ensures |Newest(inserted, b)| <= |inserted|
  {
    if inserted != [] {
      NewestShorter(inserted[..|inserted| - 1], b);
    }
  }

  /** While a call is under way some thread with a call under way can run: a thread that waits for
      a lock holds none. */
  lemma SomeoneCanRun(s: State, t: nat) returns (u: nat)
    requires Inv(s) && t < |s.threads| && !s.threads[t].Idle?
    ensures Legal(s, Run(u))
  {
    u := t;
    assert ThreadInv(s, t);
    var b := Bucket(s.threads[t].key);
    if (s.threads[t].LockInsert? || s.threads[t].LockLookup?) && s.locks[b].Some? {
      u := s.locks[b].value;
      assert Holds(s.threads[u], b) && ThreadInv(s, u);
    }
    if s.threads[u].Walk? {
      var c := Bucket(s.threads[u].key);
      WalkStep(s.heap, s.heads[c], s.chains[c], Newest(s.inserted, c), c, u, s.threads[u]);
    }
  }

  ghost predicate AllIdle(s: State)
  {
    forall t: nat | t < |s.threads| :: s.threads[t].Idle?
  }

  // ---- Every call is about its own key ----

  /** The keys thread `t` is asked to insert, and to look up, in order. */
  function InsertsOf(ms: seq<Move>, t: nat): seq<int>
  {
    if ms == [] then []
    else
      var m := ms[|ms| - 1];
      InsertsOf(ms[..|ms| - 1], t) + if m.Insert? && m.t == t then [m.key] else []
  }

  function LookupsOf(ms: seq<Move>, t: nat): seq<int>
  {
    if ms == [] then []
    else
      var m := ms[|ms| - 1];
      LookupsOf(ms[..|ms| - 1], t) + if m.Lookup? && m.t == t then [m.key] else []
  }

  /** The key of an insertion under way that has not been linked, and of a lookup without an answer. */
  function ToInsert(th: Thread): seq<int>
  {
    if th.Malloc? || th.LockInsert? || th.SetNext? || th.SetHead? then [th.key] else []
  }

  function ToAnswer(th: Thread): seq<int>
  {
    if th.LockLookup? || th.GetHead? || th.Walk? then [th.key] else []
  }

  /** A thread has linked the keys it was asked to insert, in order, but for one under way, and has an
      answer for each key it was asked to look up, but for one under way; the one it is about to
      return is the last. */
  predicate Due(th: Thread, linked: seq<int>, answered: seq<int>, inserts: seq<int>, lookups: seq<int>)
  {
    && linked + ToInsert(th) == inserts
    && answered + ToAnswer(th) == lookups
    && (th.UnlockLookup? ==> answered != [] && answered[|answered| - 1] == th.key)
  }

  ghost predicate AllDue(s: State, ms: seq<Move>)
  {
    && |s.inserted| == |s.inserters| && |s.answered| == |s.askers|
    && (forall i: nat | i < |s.inserters| :: s.inserters[i] < |s.threads|)
    && forall t: nat | t < |s.threads| ::
         Due(s.threads[t], By(s.inserted, s.inserters, t), By(s.answered, s.askers, t),
             InsertsOf(ms, t), LookupsOf(ms, t))
  }

  function LinkedBy(m: Move, th: Thread): seq<int>
  {
    if m.Run? && th.SetHead? then [th.key] else []
  }

  function AnsweredBy(m: Move, th: Thread, th': Thread): seq<int>
  {
    if m.Run? && !th.Idle? && th'.UnlockLookup? then [th.key] else []
  }

  lemma MoveLogs(s: State, m: Move)
    requires Sized(s) && Legal(s, m)
    ensures var th, s' := s.threads[m.t], Apply(s, m);
      var linked, answered := LinkedBy(m, th), AnsweredBy(m, th, s'.threads[m.t]);
      && s'.threads == s.threads[m.t := s'.threads[m.t]]
      && s'.inserted == s.inserted + linked && s'.inserters == s.inserters + (if linked == [] then [] else [m.t])
      && s'.answered == s.answered + answered && s'.askers == s.askers + if answered == [] then [] else [m.t]
  {
  }

  lemma MoveDue(s: State, m: Move, linked: seq<int>, answered: seq<int>, inserts: seq<int>, lookups: seq<int>)
    requires Sized(s) && Legal(s, m) && Due(s.threads[m.t], linked, answered, inserts, lookups)
    ensures var th, th' := s.threads[m.t], Apply(s, m).threads[m.t];
      Due(th', linked + LinkedBy(m, th), answered + AnsweredBy(m, th, th'),
          inserts + (if m.Insert? then [m.key] else []), lookups + if m.Lookup? then [m.key] else [])
  {
  }

  lemma CallsLonger(ms: seq<Move>, m: Move, t: nat)
    ensures InsertsOf(ms + [m], t) == InsertsOf(ms, t) + if m.Insert? && m.t == t then [m.key] else []
    ensures LookupsOf(ms + [m], t) == LookupsOf(ms, t) + if m.Lookup? && m.t == t then [m.key] else []
  {
    assert (ms + [m])[..|ms|] == ms;
  }

  ghost predicate DueAfter(s: State, ms: seq<Move>, t: nat, th: Thread, u: nat, linked: seq<int>, answered: seq<int>)
  {
    && |s.inserted| == |s.inserters| && |s.answered| == |s.askers| && |linked| <= 1 && |answered| <= 1
    && Due(th,
           By(s.inserted + linked, s.inserters + (if linked == [] then [] else [u]), t),
           By(s.answered + answered, s.askers + (if answered == [] then [] else [u]), t),
           InsertsOf(ms, t), LookupsOf(ms, t))
  }

  lemma OtherDue(s: State, ms: seq<Move>, m: Move, t: nat, linked: seq<int>, answered: seq<int>)
    requires AllDue(s, ms) && t < |s.threads| && t != m.t && |linked| <= 1 && |answered| <= 1
    ensures DueAfter(s, ms + [m], t, s.threads[t], m.t, linked, answered)
  {
    ByLonger(s.inserted, s.inserters, linked, m.t, t);
    ByLonger(s.answered, s.askers, answered, m.t, t);
    CallsLonger(ms, m, t);
  }

  lemma OwnDue(s: State, ms: seq<Move>, m: Move, linked: seq<int>, answered: seq<int>)
    requires AllDue(s, ms) && Sized(s) && Legal(s, m) && linked == LinkedBy(m, s.threads[m.t])
    requires answered == AnsweredBy(m, s.threads[m.t], Apply(s, m).threads[m.t])
    ensures DueAfter(s, ms + [m], m.t, Apply(s, m).threads[m.t], m.t, linked, answered)
  {
    var t := m.t;
    MoveDue(s, m, By(s.inserted, s.inserters, t), By(s.answered, s.askers, t), InsertsOf(ms, t), LookupsOf(ms, t));
    ByLonger(s.inserted, s.inserters, linked, t, t);
    ByLonger(s.answered, s.askers, answered, t, t);
    CallsLonger(ms, m, t);
  }

  lemma AllAfter(s: State, s': State, ms: seq<Move>, u: nat, linked: seq<int>, answered: seq<int>)
    requires |s.inserted| == |s.inserters| && |s.answered| == |s.askers| && |linked| <= 1 && |answered| <= 1
    requires (forall i: nat | i < |s.inserters| :: s.inserters[i] < |s'.threads|) && u < |s'.threads|
    requires s'.inserted == s.inserted + linked && s'.inserters == s.inserters + if linked == [] then [] else [u]
    requires s'.answered == s.answered + answered && s'.askers == s.askers + if answered == [] then [] else [u]
    requires forall t: nat | t < |s'.threads| :: DueAfter(s, ms, t, s'.threads[t], u, linked, answered)
    ensures AllDue(s', ms)
  {
    forall t: nat | t < |s'.threads|
      ensures Due(s'.threads[t], By(s'.inserted, s'.inserters, t), By(s'.answered, s'.askers, t),
                  InsertsOf(ms, t), LookupsOf(ms, t))
    {
      assert DueAfter(s, ms, t, s'.threads[t], u, linked, answered);
    }
  }

  lemma StillDue(s: State, ms: seq<Move>, m: Move)
    requires AllDue(s, ms) && Sized(s) && Legal(s, m)
    ensures AllDue(Apply(s, m), ms + [m])
  {
    var th := s.threads[m.t];
    var linked := LinkedBy(m, th);
    var answered := AnsweredBy(m, th, Apply(s, m).threads[m.t]);
    MoveLogs(s, m);
    forall t: nat | t < |s.threads|
      ensures DueAfter(s, ms + [m], t, Apply(s, m).threads[t], m.t, linked, answered)
    {
      if t == m.t {
        OwnDue(s, ms, m, linked, answered);
      } else {
        OtherDue(s, ms, m, t, linked, answered);
      }
    }
    AllAfter(s, Apply(s, m), ms + [m], m.t, linked, answered);
  }

  /** In every reachable state each thread has linked exactly the keys it was asked to insert, in order, but
      for one under way, and has answered for exactly the keys it was asked to look up, but for one under way. */
  lemma {:induction false} EveryCallDue(n: nat, ms: seq<Move>)
    requires IsRun(n, ms)
    ensures AllDue(After(n, ms), ms) && |After(n, ms).threads| == n
  {
    if ms != [] {
      var ms', m := ms[..|ms| - 1], ms[|ms| - 1];
      EveryCallDue(n, ms');
      StillDue(After(n, ms'), ms', m);
      assert ms == ms' + [m];
    }
  }

  lemma {:induction false} InsertsAre(ms: seq<Move>, t: nat, key: int)
    ensures key in InsertsOf(ms, t) <==> Insert(t, key) in ms
  {
    if ms != [] {
      InsertsAre(ms[..|ms| - 1], t, key);
      assert ms == ms[..|ms| - 1] + [ms[|ms| - 1]];
    }
  }

  /** When all calls have returned, a key is among the inserted ones exactly if some call inserted it. */
  lemma {:induction false} ExactlyTheInserted(n: nat, ms: seq<Move>, key: int)
    requires IsRun(n, ms) && AllIdle(After(n, ms))
    ensures key in After(n, ms).inserted <==> exists t: nat :: t < n && Insert(t, key) in ms
  {
    var s := After(n, ms);
    EveryCallDue(n, ms);
    forall t: nat | t < n
      ensures key in By(s.inserted, s.inserters, t) <==> Insert(t, key) in ms
    {
      assert s.threads[t].Idle? && By(s.inserted, s.inserters, t) + [] == By(s.inserted, s.inserters, t);
      InsertsAre(ms, t, key);
    }
    if key in s.inserted {
      var i: nat :| i < |s.inserted| && s.inserted[i] == key;
      ByMember(s.inserted, s.inserters, i);
    }
    if t: nat :| t < n && Insert(t, key) in ms {
      ByFrom(s.inserted, s.inserters, t, key);
    }
  }

  // ---- Every call completes ----

  /** One for an insertion that has not linked its node. */
  function PendingOf(th: Thread): nat
  {
    if th.Malloc? || th.LockInsert? || th.SetNext? || th.SetHead? then 1 else 0
  }

  function Pending(): (nat, Thread) -> int
  {
    (t: nat, th: Thread) => PendingOf(th)
  }

  /** As many keys as there can be when the calls under way have returned; no step changes it. */
  ghost function Keyed(s: State): int
  {
    |s.inserted| + Total(Pending(), s.threads)
  }

  /** Steps a call still takes, at most, if no list gets longer than `bound`. */
  function LeftOf(bound: int, th: Thread): int
  {
    if th.Malloc? then 5
    else if th.LockInsert? then 4
    else if th.SetNext? then 3
    else if th.SetHead? then 2
    else if th.UnlockInsert? then 1
    else if th.LockLookup? then bound + 4
    else if th.GetHead? then bound + 3
    else if th.Walk? then bound + 2 - th.pos
    else if th.UnlockLookup? then 1
    else 0
  }

  function Left(bound: int): (nat, Thread) -> int
  {
    (t: nat, th: Thread) => LeftOf(bound, th)
  }

  lemma RunCheaper(s: State, t: nat, bound: int)
    requires Sized(s) && Legal(s, Run(t)) && bound >= 0 && (s.threads[t].Walk? ==> s.threads[t].pos <= bound)
    ensures var s' := Apply(s, Run(t));
      && s'.threads == s.threads[t := s'.threads[t]]
      && LeftOf(bound, s'.threads[t]) < LeftOf(bound, s.threads[t])
      && |s'.inserted| + PendingOf(s'.threads[t]) == |s.inserted| + PendingOf(s.threads[t])
  {
  }

  /** A lookup has passed no more nodes than there are keys. */
  lemma LeftOk(s: State, t: nat, bound: int)
    requires Inv(s) && t < |s.threads| && bound >= |s.inserted|
    ensures (s.threads[t].Walk? ==> s.threads[t].pos <= bound) && LeftOf(bound, s.threads[t]) >= 0
  {
    assert ThreadInv(s, t);
    if s.threads[t].Walk? {
      NewestShorter(s.inserted, Bucket(s.threads[t].key));
    }
  }

  lemma LeftNotNegative(s: State, bound: int)
    requires Inv(s) && bound >= |s.inserted|
    ensures Total(Left(bound), s.threads) >= 0
  {
    forall t: nat | t < |s.threads|
      ensures Left(bound)(t, s.threads[t]) >= 0
    {
      LeftOk(s, t, bound);
    }
    TotalNonNegative(Left(bound), s.threads);
  }

  lemma MoreRun(n: nat, ms: seq<Move>, m: Move)
    requires IsRun(n, ms) && Sized(After(n, ms)) && Legal(After(n, ms), m)
    ensures IsRun(n, ms + [m]) && After(n, ms + [m]) == Apply(After(n, ms), m)
  {
    assert (ms + [m])[..|ms|] == ms;
  }

  lemma CheaperRun(n: nat, ms: seq<Move>, t: nat)
    requires IsRun(n, ms) && Sized(After(n, ms)) && Legal(After(n, ms), Run(t))
    ensures var s, s' := After(n, ms), After(n, ms + [Run(t)]);
      && IsRun(n, ms + [Run(t)]) && Keyed(s') == Keyed(s)
      && 0 <= Total(Left(Keyed(s)), s'.threads) < Total(Left(Keyed(s)), s.threads)
  {
    var s := After(n, ms);
    RunInv(n, ms);
    TotalNonNegative(Pending(), s.threads);
    MoveKeepsInv(s, Run(t));
    MoreRun(n, ms, Run(t));
    var s', bound := Apply(s, Run(t)), Keyed(s);
    LeftOk(s, t, bound);
    RunCheaper(s, t, bound);
    TotalUpdate(Pending(), s.threads, t, s'.threads[t]);
    TotalUpdate(Left(bound), s.threads, t, s'.threads[t]);
    TotalNonNegative(Pending(), s'.threads);
    LeftNotNegative(s', bound);
  }

  /** Every run can be continued, without any new call, until all calls have returned, within as many
      steps as their threads have left. */
  lemma {:induction false} EveryCallCompletes(n: nat, ms: seq<Move>) returns (full: seq<Move>)
    requires IsRun(n, ms)
    ensures IsRun(n, full) && ms <= full && AllIdle(After(n, full))
    ensures forall k | |ms| <= k < |full| :: full[k].Run?
    ensures |full| - |ms| <= Total(Left(Keyed(After(n, ms))), After(n, ms).threads)
    decreases Total(Left(Keyed(After(n, ms))), After(n, ms).threads)
  {
    var s := After(n, ms);
    RunInv(n, ms);
    TotalNonNegative(Pending(), s.threads);
    LeftNotNegative(s, Keyed(s));
    if AllIdle(s) {
      full := ms;
    } else {
      var t: nat :| t < |s.threads| && !s.threads[t].Idle?;
      var u := SomeoneCanRun(s, t);
      CheaperRun(n, ms, u);
      full := EveryCallCompletes(n, ms + [Run(u)]);
    }
  }
}
