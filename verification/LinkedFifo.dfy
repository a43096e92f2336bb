/** The singly linked queue with a first, a last and a count that the packet list of infolink and the
    request and reply queues of lib13 are written out as. */
module LinkedFifo {

  class Node<T> {
    var data: T
    var next: Node?<T>

    constructor (data: T)
      ensures this.data == data && next == null
    {
      this.data := data;
      next := null;
    }
  }

  class Fifo<T> {
    var first: Node?<T>
    var last: Node?<T>
    var n: nat
    ghost var spine: seq<Node<T>>
    ghost var contents: seq<T>

    /** The nodes from `first` on hold the contents.  Of an empty queue, `last` may be anything. */
    ghost predicate Valid()
      reads this, spine
    {
      && |spine| == |contents| == n
      && (forall i | 0 <= i < |spine| :: spine[i].data == contents[i])
      && (forall i | 0 <= i < |spine| - 1 :: spine[i].next == spine[i + 1])
      && (forall i, j | 0 <= i < j < |spine| :: spine[i] != spine[j])
      && (if spine == [] then first == null
          else first == spine[0] && last == spine[|spine| - 1] && spine[|spine| - 1].next == null)
    }

    constructor ()
      ensures Valid() && contents == []
    {
      first, last, n := null, null, 0;
      spine, contents := [], [];
    }

    method Append(x: T)
      requires Valid()
      modifies this, spine
      ensures Valid() && contents == old(contents) + [x]
      ensures |spine| == |old(spine)| + 1 && old(spine) == spine[..|spine| - 1] && fresh(spine[|spine| - 1])
    {
      var node := new Node(x);
      if first == null {
        first := node;
        last := node;
        n := 1;
      } else {
        last.next := node;
        last := node;
        n := n + 1;
      }
      spine := spine + [node];
      contents := contents + [x];
    }

    method RemoveFirst() returns (x: T)
      requires Valid() && contents != []
      modifies this
      ensures Valid() && x == old(contents)[0] && contents == old(contents)[1..]
      ensures spine == old(spine)[1..]
    {
      x := first.data;
      first := first.next;
      n := n - 1;
      spine := spine[1..];
      contents := contents[1..];
    }

    method UpdateFirst(x: T)
      requires Valid() && contents != []
      modifies this`contents, first
      ensures Valid() && contents == old(contents)[0 := x]
    {
      first.data := x;
      contents := contents[0 := x];
    }

    method Clear()
      requires Valid()
      modifies this
      ensures Valid() && contents == []
    {
      while first != null
        invariant Valid()
        decreases |contents|
      {
        var _ := RemoveFirst();
      }
      n := 0;
    }
  }
}
