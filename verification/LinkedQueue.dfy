/** The singly linked FIFO queue of the kernel. `contents` is the abstract value;
    `nodes` is the spine it is stored in. */
module LinkedQueue {

  datatype Option<+T> = None | Some(value: T)

  class Node<T> {
    const elem: T
    var next: Node?<T>

    constructor (elem: T)
      ensures this.elem == elem && next == null
    {
      this.elem := elem;
      next := null;
    }
  }

  class Queue<T> {
    var first: Node?<T>
    var last: Node?<T>
    ghost var nodes: seq<Node<T>>
    ghost var contents: seq<T>

    ghost predicate Valid()
      reads this, nodes
    {
      && |contents| == |nodes|
      && (nodes == [] ==> first == null && last == null)
      && (nodes != [] ==> first == nodes[0] && last == nodes[|nodes| - 1] && last.next == null)
      && (forall i, j :: 0 <= i < j < |nodes| ==> nodes[i] != nodes[j])
      && (forall i :: 0 <= i < |nodes| ==> contents[i] == nodes[i].elem)
      && (forall i, j :: 0 <= i < j < |nodes| && j == i + 1 ==> nodes[i].next == nodes[j])
    }

    constructor ()
      ensures Valid() && contents == [] && nodes == []
    {
      first, last := null, null;
      nodes, contents := [], [];
    }

    method IsEmpty() returns (empty: bool)
      requires Valid()
      ensures empty == (contents == [])
    {
      empty := first == null;
    }

    method Peek() returns (elem: Option<T>)
      requires Valid()
      ensures elem == if contents == [] then None else Some(contents[0])
    {
      if first == null {
        return None;
      }
      elem := Some(first.elem);
    }

    method Enqueue(elem: T)
      requires Valid()
      modifies this, nodes
      ensures Valid() && contents == old(contents) + [elem]
      ensures |nodes| == |old(nodes)| + 1 && nodes[..|nodes| - 1] == old(nodes) && fresh(nodes[|nodes| - 1])
    {
      var node := new Node(elem);
      if first == null {
        first := node;
        last := node;
      } else {
        last.next := node;
        last := node;
      }
      nodes := nodes + [node];
      contents := contents + [elem];
    }

    method Dequeue() returns (elem: Option<T>)
      requires Valid()
      modifies this
      ensures Valid()
      ensures old(contents) == [] ==> elem == None && contents == [] && nodes == []
      ensures old(contents) != [] ==>
                && elem == Some(old(contents)[0])
                && contents == old(contents)[1..]
                && nodes == old(nodes)[1..]
    {
      if first == null {
        return None;
      }
      elem := Some(first.elem);
      assert |nodes| > 1 ==> nodes[0].next == nodes[1];
      first := first.next;
      if first == null {
        last := null;
      }
      nodes := nodes[1..];
      contents := contents[1..];
    }

    /** Emptying the queue node by node visits everything that was queued, in order. */
    method Drain() returns (removed: seq<T>)
      requires Valid()
      modifies this
      ensures Valid() && contents == [] && nodes == []
      ensures removed == old(contents)
    {
      removed := [];
      ghost var k := 0;
      while first != null
        invariant Valid() && k <= |old(contents)|
        invariant removed == old(contents)[..k] && contents == old(contents)[k..]
        decreases |contents|
      {
        var elem := Dequeue();
        removed := removed + [elem.value];
        k := k + 1;
      }
    }
  }
}
