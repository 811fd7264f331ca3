/** The Michael-Scott queue of ConcurrentQueue.java, run by one thread.

    The queue is a singly-linked chain of nodes starting at a dummy node
    `head`; the items are the values of the nodes after it. Each
    `compareAndSet` of the source becomes a conditional field assignment
    that, run alone, always sees the value it expects. Java's nullable item
    type is `Option<T>`: `None` is `null`, both as an item and as the
    "empty" answer of `Dequeue`. */
module LockFreeQueue {
  import opened Wrappers

  class Node<T> {
    const value: Option<T>
    var next: Node?<T>

    constructor (value: Option<T>)
      ensures this.value == value && next == null
    {
      this.value := value;
      next := null;
    }
  }

  class ConcurrentQueue<T> {
    var head: Node<T>
    var tail: Node<T>

    // public view: the items in FIFO order
    ghost var Contents: seq<Option<T>>
    // the chain of nodes from `head` to the last node
    ghost var Nodes: seq<Node<T>>
    ghost var Repr: set<object>

    /** Between operations: the chain from `head` is finite, acyclic and ends
        in a node whose `next` is null; `tail` is the last node or lags one
        link behind it; the items are the values after the dummy head. */
    ghost predicate Valid()
      reads this, Repr
    {
      && this in Repr
      && |Nodes| >= 1
      && Nodes[0] == head
      && (forall i :: 0 <= i < |Nodes| ==> Nodes[i] in Repr)
      && (forall i :: 0 <= i < |Nodes| - 1 ==> Nodes[i].next == Nodes[i + 1])
      && Nodes[|Nodes| - 1].next == null
      && (forall i, j :: 0 <= i < j < |Nodes| ==> Nodes[i] != Nodes[j])
      && (tail == Nodes[|Nodes| - 1] || (|Nodes| >= 2 && tail == Nodes[|Nodes| - 2]))
      && |Contents| == |Nodes| - 1
      && (forall i :: 0 <= i < |Contents| ==> Contents[i] == Nodes[i + 1].value)
    }

    /** A new queue: `head` and `tail` share one dummy node with no successor. */
    constructor ()
      ensures Valid() && fresh(Repr)
      ensures Contents == []
      ensures head == tail && head.next == null && head.value == None
    {
      var dummy := new Node<T>(None);
      head := dummy;
      tail := dummy;
      Nodes := [dummy];
      Contents := [];
      Repr := {this, dummy};
    }

    /** `tail.compareAndSet(expected, update)`, where `update` is the node
        after `expected`: it moves `tail` at most one link forward and never
        changes the chain or the items. */
    method CompareAndSetTail(expected: Node<T>, update: Node<T>) returns (swapped: bool)
      requires Valid()
      requires expected.next == update
      modifies this
      ensures Valid()
      ensures swapped == (old(tail) == expected)
      ensures tail == if swapped then update else old(tail)
      ensures head == old(head) && Nodes == old(Nodes) && Contents == old(Contents) && Repr == old(Repr)
    {
      swapped := tail == expected;
      if swapped {
        tail := update;
      }
    }

    /** `head.compareAndSet(expected, update)` on a queue whose `tail` is not
        the dummy head: the node after the dummy becomes the new dummy. */
    method CompareAndSetHead(expected: Node<T>, update: Node<T>) returns (swapped: bool)
      requires Valid()
      requires expected.next == update && tail != expected
      modifies this
      ensures Valid() && Repr == old(Repr) && tail == old(tail)
      ensures swapped == (old(head) == expected)
      ensures swapped ==> head == update && Contents == old(Contents)[1..]
      ensures !swapped ==> head == old(head) && Contents == old(Contents)
    {
      swapped := head == expected;
      if swapped {
        head := update;
        Nodes := Nodes[1..];
        Contents := Contents[1..];
      }
    }

    /** `last.next.compareAndSet(null, node)` on the node `tail` refers to:
        when it is the last node of the chain, a node not yet in the queue is
        linked after it and its item joins the end of the queue; otherwise
        nothing changes. */
    method CompareAndSetNext(last: Node<T>, node: Node<T>) returns (swapped: bool)
      requires Valid() && last == tail
      requires node !in Repr && node.next == null
      modifies this, last
      ensures Valid() && head == old(head) && tail == old(tail)
      ensures swapped == (old(last.next) == null)
      ensures swapped ==> Nodes == old(Nodes) + [node] && Contents == old(Contents) + [node.value] && Repr == old(Repr) + {node}
      ensures !swapped ==> Nodes == old(Nodes) && Contents == old(Contents) && Repr == old(Repr) && unchanged(last)
    {
      swapped := last.next == null;
      if swapped {
        assert last == Nodes[|Nodes| - 1];
        last.next := node;
        Nodes := Nodes + [node];
        Contents := Contents + [node.value];
        Repr := Repr + {node};
      }
    }

    /** enqueue: links a fresh node after the last node and swings `tail`
        onto it, helping a lagging `tail` forward first. */
    method Enqueue(item: Option<T>)
      requires Valid()
      modifies Repr
      ensures Valid() && fresh(Repr - old(Repr))
      ensures Contents == old(Contents) + [item]
      ensures head == old(head) && tail == Nodes[|Nodes| - 1] && tail.value == item
    {
      var newNode := new Node<T>(item);
      while true
        invariant Valid() && Repr == old(Repr)
        invariant Nodes == old(Nodes) && Contents == old(Contents) && head == old(head)
        invariant fresh(newNode) && newNode.next == null && newNode.value == item
        decreases if tail == Nodes[|Nodes| - 1] then 0 else 1
      {
        var currentTail := tail;
        var tailNext := currentTail.next;
        if currentTail == tail {
          if tailNext == null {
            var linked := CompareAndSetNext(currentTail, newNode);
            if linked {
              var _ := CompareAndSetTail(currentTail, newNode);
              return;
            }
          } else {
            // another enqueue linked a node but has not moved `tail`: help it
            var _ := CompareAndSetTail(currentTail, tailNext);
          }
        }
      }
    }

    /** dequeue: `None` when the dummy head has no successor; otherwise the
        value of the node after the dummy, which becomes the new dummy. */
    method Dequeue() returns (r: Option<T>)
      requires Valid()
      modifies this
      ensures Valid() && Repr == old(Repr)
      ensures old(Contents) == [] ==> r == None && unchanged(this)
      ensures old(Contents) != [] ==> r == old(Contents)[0] && Contents == old(Contents)[1..]
    {
      while true
        invariant Valid() && Repr == old(Repr)
        invariant Contents == old(Contents) && head == old(head)
        invariant old(Contents) == [] ==> unchanged(this)
        decreases if tail == Nodes[|Nodes| - 1] then 0 else 1
      {
        var currentHead := head;
        var headNext := currentHead.next;
        var currentTail := tail;
        if currentHead == head {
          if currentHead == currentTail {
            if headNext == null {
              return None;
            }
            // `tail` lags behind a linked node: help it forward
            var _ := CompareAndSetTail(currentTail, headNext);
          } else {
            assert |Nodes| >= 2 && headNext == Nodes[1];
            var value := headNext.value;
            var swapped := CompareAndSetHead(currentHead, headNext);
            if swapped {
              return value;
            }
          }
        }
      }
    }
  }

  /** A fresh queue answers `dequeue` with null. */
  method DequeueFreshQueue<T>() returns (r: Option<T>)
    ensures r == None
  {
    var q := new ConcurrentQueue<T>();
    r := q.Dequeue();
  }

  /** FIFO: items enqueued in order by one thread leave `dequeue` in the same
      order, and once the queue is drained every further `dequeue` answers
      null. */
  method EnqueueAllThenDrain<T>(items: seq<Option<T>>) returns (out: seq<Option<T>>, afterDrain: Option<T>)
    ensures out == items
    ensures afterDrain == None
  {
    var q := new ConcurrentQueue<T>();
    var i := 0;
    while i < |items|
      invariant 0 <= i <= |items|
      invariant q.Valid() && fresh(q.Repr)
      invariant q.Contents == items[..i]
    {
      q.Enqueue(items[i]);
      i := i + 1;
    }
    out := [];
    while |out| < |items|
      invariant q.Valid() && fresh(q.Repr)
      invariant out + q.Contents == items
    {
      var x := q.Dequeue();
      out := out + [x];
    }
    afterDrain := q.Dequeue();
  }

  /** A dequeued null item is indistinguishable from the "empty" answer. */
  method NullItemLooksLikeEmpty<T>() returns (fromItem: Option<T>, fromEmpty: Option<T>)
    ensures fromItem == fromEmpty
  {
    var q := new ConcurrentQueue<T>();
    q.Enqueue(None);
    fromItem := q.Dequeue();
    fromEmpty := q.Dequeue();
  }
}
