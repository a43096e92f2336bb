/** The object index of lib13 is a binary search tree of heap objects linked through their
    `left` and `right` fields.  This module holds the objects, the mathematical trees they
    represent, and the facts about such trees that the operations of the index rest on. */
module ObjectTree {

  /** An index entry.  Its identity never changes once it is created; its links do. */
  class Obj {
    const objid: nat
    var left: Obj?
    var right: Obj?

    constructor (objid: nat)
      ensures this.objid == objid && left == null && right == null
    {
      this.objid := objid;
      left, right := null, null;
    }
  }

  datatype Tree = Leaf | Node(left: Tree, obj: Obj, right: Tree)

  ghost function Root(t: Tree): Obj? {
    if t.Leaf? then null else t.obj
  }

  ghost function InOrder(t: Tree): seq<Obj> {
    match t
    case Leaf => []
    case Node(l, x, r) => InOrder(l) + [x] + InOrder(r)
  }

  ghost function Nodes(t: Tree): set<Obj> {
    match t
    case Leaf => {}
    case Node(l, x, r) => Nodes(l) + {x} + Nodes(r)
  }

  /** No object occurs twice. */
  ghost predicate Proper(t: Tree) {
    match t
    case Leaf => true
    case Node(l, x, r) =>
      Proper(l) && Proper(r) && x !in Nodes(l) && x !in Nodes(r) && Nodes(l) !! Nodes(r)
  }

  /** The links of every object of `t` are the ones `t` prescribes. */
  ghost predicate Links(t: Tree)
    reads Nodes(t)
  {
    match t
    case Leaf => true
    case Node(l, x, r) => x.left == Root(l) && x.right == Root(r) && Links(l) && Links(r)
  }

  /** The object graph hanging from `root` is exactly the tree `t`. */
  ghost predicate Represents(root: Obj?, t: Tree)
    reads Nodes(t)
  {
    root == Root(t) && Proper(t) && Links(t)
  }

  /** The search-tree order: smaller ids to the left, greater or equal ids to the right. */
  ghost predicate Ordered(t: Tree) {
    match t
    case Leaf => true
    case Node(l, x, r) =>
      && Ordered(l) && Ordered(r)
      && (forall y | y in Nodes(l) :: y.objid < x.objid)
      && (forall y | y in Nodes(r) :: x.objid <= y.objid)
  }

  lemma {:induction false} InOrderNodes(t: Tree)
    ensures forall i | 0 <= i < |InOrder(t)| :: InOrder(t)[i] in Nodes(t)
  {
    if t.Node? {
      InOrderNodes(t.left);
      InOrderNodes(t.right);
    }
  }

  lemma {:induction false} NodesAllocated(t: Tree)
    ensures forall x: Obj | x in Nodes(t) :: allocated(x)
  {
    if t.Node? {
      NodesAllocated(t.left);
      NodesAllocated(t.right);
    }
  }

  /** The last object of a tree, at the end of its right spine. */
  ghost function Last(t: Tree): (x: Obj)
    requires t.Node?
    ensures x in Nodes(t)
  {
    if t.right.Leaf? then t.obj else Last(t.right)
  }

  /** `s` is what is left of `t` after some steps down its right spine. */
  ghost predicate RightPart(s: Tree, t: Tree) {
    s == t || (t.Node? && RightPart(s, t.right))
  }

  lemma {:induction false} RightPartFacts(s: Tree, t: Tree)
    requires RightPart(s, t)
    ensures Nodes(s) <= Nodes(t)
    ensures Proper(t) ==> Proper(s)
    ensures s.Node? ==> t.Node? && Last(s) == Last(t)
    ensures s.Node? ==> RightPart(s.right, t)
    decreases t
  {
    if s != t {
      RightPartFacts(s, t.right);
    }
  }
}
