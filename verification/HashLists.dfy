/** The linked list of `concllist.h` and the hash table of `conchsh.h` as one thread alone uses
    them: nodes linked in place, the newest key first. */
module HashLists {

  const BUCKETS: int := 101

  /** `key % BUCKETS`, whose sign is that of the key. */
  function Bucket(key: int): int
  {
    if key >= 0 then key % BUCKETS else -((-key) % BUCKETS)
  }

  /** Does the key name one of the lists? A negative key that is not a multiple of `BUCKETS` names
      an element before the array. */
  predicate InTable(key: int)
  {
    0 <= Bucket(key) < BUCKETS
  }

  /** Exactly the keys the table can take, and every list is named by some of them. */
  lemma InTableExactly(key: int)
    ensures InTable(key) <==> (key >= 0 || (-key) % BUCKETS == 0)
    ensures InTable(key) ==> InTable(Bucket(key)) && Bucket(Bucket(key)) == Bucket(key)
  {
  }

  /** A key that is not negative is in the list of its residue. */
  lemma BucketIsResidue(b: int, k: nat)
    requires 0 <= b < BUCKETS
    ensures Bucket(b + BUCKETS * k) == b
  {
  }

  /** The keys of list `b` after some insertions, the newest first. */
  function Newest(inserted: seq<int>, b: int): seq<int>
  {
    if inserted == [] then []
    else
      var n := |inserted| - 1;
      (if Bucket(inserted[n]) == b then [inserted[n]] else []) + Newest(inserted[..n], b)
  }

  lemma NewestAppend(inserted: seq<int>, key: int, b: int)
    ensures Newest(inserted + [key], b) == (if Bucket(key) == b then [key] else []) + Newest(inserted, b)
  {
    assert (inserted + [key])[..|inserted|] == inserted;
  }

  /** A key is in its list exactly if it has been inserted. */
  lemma {:induction false} NewestHas(inserted: seq<int>, key: int)
    ensures key in Newest(inserted, Bucket(key)) <==> key in inserted
  {
    if inserted != [] {
      var n := |inserted| - 1;
      NewestHas(inserted[..n], key);
      assert inserted == inserted[..n] + [inserted[n]];
    }
  }

  class Node {
    var key: int
    var next: Node?

    constructor (key: int)
      ensures this.key == key
    {
      this.key := key;
    }
  }

  class List {
    var head: Node?
    ghost var nodes: seq<Node>
    ghost var keys: seq<int>

    /** The chain from `head` is `nodes`, all different, and holds `keys`. */
    ghost predicate Valid()
      reads this, nodes
    {
      && |nodes| == |keys|
      && head == NodeAt(0)
      && (forall i: nat | i < |nodes| :: nodes[i].key == keys[i] && nodes[i].next == NodeAt(i + 1))
      && forall i, j | 0 <= i < j < |nodes| :: nodes[i] != nodes[j]
    }

    ghost function NodeAt(i: nat): Node?
      reads this
    {
      if i < |nodes| then nodes[i] else null
    }

    /** `List_Init`. */
    constructor ()
      ensures Valid() && keys == [] && nodes == []
    {
      head := null;
      nodes, keys := [], [];
    }

    /** `List_Insert`. */
    method Insert(key: int)
      requires Valid()
      modifies this
      ensures Valid() && keys == [key] + old(keys)
      ensures |nodes| > 0 && fresh(nodes[0]) && nodes[1..] == old(nodes)
    {
      var n := new Node(key);
      n.next := head;
      head := n;
      nodes := [n] + nodes;
      keys := [key] + keys;
    }

    /** `List_Lookup`: 0 if the key is there, -1 if not. */
    method Lookup(key: int) returns (rv: int)
      requires Valid()
      ensures rv == if key in keys then 0 else -1
    {
      rv := -1;
      var curr := head;
      ghost var i := 0;
      while curr != null
        invariant i <= |nodes| && curr == NodeAt(i)
        invariant rv == -1 && key !in keys[..i]
        decreases |nodes| - i
      {
        if curr.key == key {
          rv := 0;
          break;
        }
        curr := curr.next;
        i := i + 1;
      }
    }
  }

  class Hash {
    var lists: array<List>
    ghost var inserted: seq<int>
    ghost var nodes: set<Node>

    ghost predicate Valid()
      reads this, lists, lists[..], nodes
    {
      && lists.Length == BUCKETS
      && (forall b, c | 0 <= b < c < BUCKETS :: lists[b] != lists[c])
      && (forall b, n | 0 <= b < BUCKETS && n in lists[b].nodes :: n in nodes)
      && forall b | 0 <= b < BUCKETS :: lists[b].Valid() && lists[b].keys == Newest(inserted, b)
    }

    /** `Hash_Init`. */
    constructor ()
      ensures Valid() && inserted == [] && fresh(lists) && forall b | 0 <= b < BUCKETS :: fresh(lists[b])
    {
      var none := new List();
      lists := new List[BUCKETS](_ => none);
      inserted, nodes := [], {};
      new;
      for b := 0 to BUCKETS
        invariant fresh(lists) && lists.Length == BUCKETS && inserted == [] && nodes == {}
        invariant forall c | 0 <= c < b ::
          fresh(lists[c]) && lists[c].Valid() && lists[c].keys == [] && lists[c].nodes == []
        invariant forall c, d | 0 <= c < d < b :: lists[c] != lists[d]
      {
        lists[b] := new List();
      }
    }

    /** `Hash_Insert`: only the key's own list changes. */
    method Insert(key: int)
      requires Valid() && InTable(key)
      modifies this`inserted, this`nodes, lists[Bucket(key)]
      ensures Valid() && inserted == old(inserted) + [key]
    {
      ghost var b := Bucket(key);
      lists[Bucket(key)].Insert(key);
      inserted := inserted + [key];
      nodes := nodes + {lists[b].nodes[0]};
      forall c | 0 <= c < BUCKETS
        ensures lists[c].Valid() && lists[c].keys == Newest(inserted, c)
      {
        NewestAppend(old(inserted), key, c);
      }
    }

    /** `Hash_Lookup`: 0 exactly if the key has been inserted. */
    method Lookup(key: int) returns (rv: int)
      requires Valid() && InTable(key)
      ensures rv == if key in inserted then 0 else -1
    {
      rv := lists[Bucket(key)].Lookup(key);
      NewestHas(inserted, key);
    }
  }
}
