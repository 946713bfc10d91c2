/** The queue of `concqueue.h` as one thread alone uses it: a dummy node before the oldest value,
    nodes linked in place. Freed nodes are left to the collector. */
module LinkedQueue {
  import opened Basics

  class Node {
    var value: int
    var next: Node?

    constructor (value: int)
      ensures this.value == value && next == null
    {
      this.value, next := value, null;
    }
  }

  class Queue {
    var head: Node
    var tail: Node
    ghost var nodes: seq<Node>
    ghost var values: seq<int>

    /** The chain from `head` to `tail` is `nodes`, all different; behind the first they hold `values`. */
    ghost predicate Valid()
      reads this, nodes
    {
      && |nodes| == |values| + 1
      && head == nodes[0] && tail == nodes[|values|]
      && (forall i: nat | i < |values| :: nodes[i].next == nodes[i + 1] && nodes[i + 1].value == values[i])
      && tail.next == null
      && forall i, j | 0 <= i < j < |nodes| :: nodes[i] != nodes[j]
    }

    /** `Queue_Init`. */
    constructor (garbage: int)
      ensures Valid() && values == [] && fresh(nodes)
    {
      var tmp := new Node(garbage);
      head, tail := tmp, tmp;
      nodes, values := [tmp], [];
    }

    /** `Queue_Enqueue`. */
    method Enqueue(value: int)
      requires Valid()
      modifies this, tail
      ensures Valid() && values == old(values) + [value]
      ensures |nodes| == |old(nodes)| + 1 && nodes[..|nodes| - 1] == old(nodes) && fresh(tail)
    {
      var tmp := new Node(value);
      tail.next := tmp;
      tail := tmp;
      nodes, values := nodes + [tmp], values + [value];
    }

    /** `Queue_Dequeue`: the oldest value, or nothing (the source's -1) from an empty queue. */
    method Dequeue() returns (rv: Option<int>)
      requires Valid()
      modifies this
      ensures Valid()
      ensures if old(values) == [] then rv == None && values == [] && nodes == old(nodes)
              else rv == Some(old(values)[0]) && values == old(values)[1..] && nodes == old(nodes)[1..]
    {
      var tmp := head;
      var newHead := tmp.next;
      assert values != [] ==> nodes[0].next == nodes[1];
      if newHead == null {
        return None;
      }
      rv := Some(newHead.value);
      head := newHead;
      nodes, values := nodes[1..], values[1..];
    }
  }
}
