/** The stackless in-order traversal of the object index.  It threads the last object of a left
    subtree back to the subtree's parent, so that it can return there without a stack, and takes
    the thread out again on the way back. */
module MorrisTraversal {
  import opened ObjectTree

  /** What the traversal still owes after the subtree it is in: for every object whose left
      subtree it has entered and not left again, that object and its right subtree. */
  datatype Pending = Done | Then(obj: Obj, left: Tree, right: Tree, rest: Pending)

  ghost function Resume(k: Pending): Obj? {
    if k.Done? then null else k.obj
  }

  ghost function Owed(k: Pending): seq<Obj> {
    match k
    case Done => []
    case Then(a, _, r, rest) => [a] + InOrder(r) + Owed(rest)
  }

  ghost function Remaining(s: Tree, k: Pending): seq<Obj> {
    InOrder(s) + Owed(k)
  }

  /** The tree whose right spine the traversal is walking. */
  ghost function Host(k: Pending, t: Tree): Tree {
    if k.Done? then t else k.left
  }

  ghost predicate Context(k: Pending, t: Tree) {
    match k
    case Done => true
    case Then(a, l, r, rest) =>
      l.Node? && RightPart(Node(l, a, r), Host(rest, t)) && Context(rest, t)
  }

  /** The threads that are in place while `k` is pending. */
  ghost function Threads(k: Pending): map<Obj, Obj>
  {
    match k
    case Done => map[]
    case Then(a, l, _, rest) => if l.Leaf? then Threads(rest) else Threads(rest)[Last(l) := a]
  }

  /** The links recorded in `lm` and `rm` are those of `t`. */
  ghost predicate Recorded(t: Tree, lm: map<Obj, Obj?>, rm: map<Obj, Obj?>) {
    match t
    case Leaf => true
    case Node(l, x, r) =>
      && x in lm && lm[x] == Root(l) && x in rm && rm[x] == Root(r)
      && Recorded(l, lm, rm) && Recorded(r, lm, rm)
  }

  lemma LinksRecorded(t: Tree, lm: map<Obj, Obj?>, rm: map<Obj, Obj?>)
    requires Links(t)
    requires forall x | x in Nodes(t) :: x in lm && lm[x] == x.left && x in rm && rm[x] == x.right
    ensures Recorded(t, lm, rm)
  {
  }

  lemma RecordedLinks(t: Tree, lm: map<Obj, Obj?>, rm: map<Obj, Obj?>)
    requires Recorded(t, lm, rm)
    requires forall x | x in Nodes(t) :: x in lm && lm[x] == x.left && x in rm && rm[x] == x.right
    ensures Links(t)
  {
  }

  lemma {:induction false} RightPartRecorded(s: Tree, t: Tree, lm: map<Obj, Obj?>, rm: map<Obj, Obj?>)
    requires RightPart(s, t) && Recorded(t, lm, rm)
    ensures Recorded(s, lm, rm)
    decreases t
  {
    if s != t {
      RightPartRecorded(s, t.right, lm, rm);
    }
  }

  lemma {:induction false} LastHasNoRight(t: Tree, lm: map<Obj, Obj?>, rm: map<Obj, Obj?>)
    requires t.Node? && Recorded(t, lm, rm)
    ensures Last(t) in rm && rm[Last(t)] == null
  {
    if t.right.Node? {
      LastHasNoRight(t.right, lm, rm);
    }
  }

  /** Every host is a well-formed part of the whole tree. */
  lemma {:induction false} HostFacts(k: Pending, t: Tree, lm: map<Obj, Obj?>, rm: map<Obj, Obj?>)
    requires Context(k, t) && Proper(t) && Recorded(t, lm, rm)
    ensures Proper(Host(k, t)) && Recorded(Host(k, t), lm, rm) && Nodes(Host(k, t)) <= Nodes(t)
    decreases k
  {
    if k.Then? {
      var part := Node(k.left, k.obj, k.right);
      HostFacts(k.rest, t, lm, rm);
      RightPartFacts(part, Host(k.rest, t));
      RightPartRecorded(part, Host(k.rest, t), lm, rm);
    }
  }

  /** Threads leave only from objects without a right subtree; the only one a current subtree can
      hold is its own last object. */
  lemma {:induction false} ThreadFacts(s: Tree, k: Pending, t: Tree, lm: map<Obj, Obj?>, rm: map<Obj, Obj?>)
    requires Context(k, t) && Proper(t) && Recorded(t, lm, rm) && RightPart(s, Host(k, t))
    ensures forall x | x in Threads(k) :: x in Nodes(t) && x in rm && rm[x] == null
    ensures forall x | x in Threads(k) && x in Nodes(s) :: x == Last(s)
    decreases k
  {
    HostFacts(k, t, lm, rm);
    RightPartFacts(s, Host(k, t));
    if k.Then? {
      var part := Node(k.left, k.obj, k.right);
      HostFacts(k.rest, t, lm, rm);
      RightPartFacts(part, Host(k.rest, t));
      ThreadFacts(part, k.rest, t, lm, rm);
      LastHasNoRight(k.left, lm, rm);
      assert Last(part) !in Nodes(k.left);
    }
  }

  /** One object never gets two threads, so taking the newest thread out leaves the older ones. */
  lemma {:induction false} NewestThread(k: Pending, t: Tree, lm: map<Obj, Obj?>, rm: map<Obj, Obj?>)
    requires k.Then? && Context(k, t) && Proper(t) && Recorded(t, lm, rm)
    ensures Last(k.left) !in Threads(k.rest) && Threads(k.rest) == Threads(k) - {Last(k.left)}
  {
    var part := Node(k.left, k.obj, k.right);
    assert Last(k.left) !in Threads(k.rest) by {
      HostFacts(k.rest, t, lm, rm);
      RightPartFacts(part, Host(k.rest, t));
      ThreadFacts(part, k.rest, t, lm, rm);
    }
  }

  /** Threads leave only from objects that have no right link of their own. */
  ghost predicate FromEnds(th: map<Obj, Obj>, rm: map<Obj, Obj?>) {
    forall x | x in th :: x in rm && rm[x] == null
  }

  /** The current subtree in the recorded links, and the threads its objects carry. */
  lemma {:induction false} CurrentFacts(s: Tree, k: Pending, t: Tree, lm: map<Obj, Obj?>, rm: map<Obj, Obj?>)
    requires Context(k, t) && Proper(t) && Recorded(t, lm, rm) && RightPart(s, Host(k, t))
    ensures Proper(s) && Recorded(s, lm, rm) && Nodes(s) <= Nodes(t)
    ensures s.Node? ==> RightPart(s.right, Host(k, t))
    ensures s.Node? && s.right.Leaf? && k.Then? ==> s.obj == Last(k.left)
    ensures FromEnds(Threads(k), rm)
    ensures s.Node? && s.left.Node? ==> Last(s.left) !in Threads(k)
  {
    HostFacts(k, t, lm, rm);
    RightPartFacts(s, Host(k, t));
    RightPartRecorded(s, Host(k, t), lm, rm);
    ThreadFacts(s, k, t, lm, rm);
    if s.Node? && s.left.Node? {
      assert Last(s) !in Nodes(s.left);
    }
  }

  /** The newest pending entry, as a part of the tree. */
  lemma {:induction false} PendingFacts(k: Pending, t: Tree, lm: map<Obj, Obj?>, rm: map<Obj, Obj?>)
    requires k.Then? && Context(k, t) && Proper(t) && Recorded(t, lm, rm)
    ensures var part := Node(k.left, k.obj, k.right);
            Proper(part) && Recorded(part, lm, rm) && Nodes(part) <= Nodes(t)
    ensures RightPart(k.right, Host(k.rest, t))
    ensures k.right.Leaf? && k.rest.Then? ==> k.obj == Last(k.rest.left)
    ensures Last(k.left) !in Threads(k.rest) && Threads(k.rest) == Threads(k) - {Last(k.left)}
    ensures FromEnds(Threads(k.rest), rm)
  {
    CurrentFacts(Node(k.left, k.obj, k.right), k.rest, t, lm, rm);
    NewestThread(k, t, lm, rm);
  }

  lemma {:induction false} RemainingVisit(s: Tree, k: Pending)
    requires s.Node? && s.left == Leaf
    ensures Remaining(s, k) == [s.obj] + Remaining(s.right, k)
  {
    assert InOrder(s) == [s.obj] + InOrder(s.right);
  }

  lemma {:induction false} RemainingDescend(s: Tree, k: Pending)
    requires s.Node?
    ensures Remaining(s, k) == Remaining(s.left, Then(s.obj, s.left, s.right, k))
  {
    assert Owed(Then(s.obj, s.left, s.right, k)) == [s.obj] + InOrder(s.right) + Owed(k);
  }

  lemma {:induction false} RemainingReturn(k: Pending)
    requires k.Then?
    ensures Remaining(Leaf, k) == [k.obj] + Remaining(k.right, k.rest)
  {
  }

  /** The right link of `x` under the threads of `k`. */
  ghost function RightNow(x: Obj, k: Pending, rm: map<Obj, Obj?>): Obj?
    requires x in rm
  {
    if x in Threads(k) then Threads(k)[x] else rm[x]
  }

  /** The traversal of `t` has visited `visited` and stands at `cur`, with the subtree `s` and the
      pending entries `k` ahead of it. */
  ghost predicate At(t: Tree, s: Tree, k: Pending, cur: Obj?, visited: seq<Obj>) {
    && Context(k, t) && RightPart(s, Host(k, t))
    && cur == (if s.Node? then s.obj else Resume(k))
    && visited + Remaining(s, k) == InOrder(t)
  }

  lemma {:induction false} AtStart(t: Tree)
    requires t.Node?
    ensures At(t, t, Done, t.obj, []) && Threads(Done) == map[]
  {
  }

  lemma {:induction false} AtEnd(t: Tree, s: Tree, k: Pending, visited: seq<Obj>)
    requires At(t, s, k, null, visited)
    ensures visited == InOrder(t) && Threads(k) == map[]
  {
  }

  /** The left subtree of the object the traversal stands at. */
  ghost function LeftHere(s: Tree, k: Pending): Tree {
    if s.Node? then s.left else if k.Then? then k.left else Leaf
  }

  /** The object the traversal stands at, and its left subtree, in the recorded links.  That
      subtree carries a thread just when the traversal has come back through it. */
  lemma {:induction false} Here(t: Tree, s: Tree, k: Pending, cur: Obj, visited: seq<Obj>,
                                  nodes: set<Obj>, lm: map<Obj, Obj?>, rm: map<Obj, Obj?>)
    requires At(t, s, k, cur, visited) && Proper(t) && Recorded(t, lm, rm) && Nodes(t) <= nodes
    ensures var l := LeftHere(s, k);
            && cur in nodes && cur in lm && lm[cur] == Root(l) && cur in rm
            && Proper(l) && Recorded(l, lm, rm) && Nodes(l) <= nodes && cur !in Nodes(l)
            && (l.Node? ==> (Last(l) in Threads(k) <==> s.Leaf?))
            && (s.Leaf? ==> l.Node? && Threads(k)[Last(l)] == cur)
    ensures FromEnds(Threads(k), rm)
    ensures if s.Node? then cur == s.obj else k.Then? && cur == k.obj
  {
    CurrentFacts(s, k, t, lm, rm);
    if s.Leaf? {
      PendingFacts(k, t, lm, rm);
    }
  }

  /** Visiting an object without a left subtree. */
  lemma {:induction false} VisitStep(t: Tree, s: Tree, k: Pending, visited: seq<Obj>, lm: map<Obj, Obj?>, rm: map<Obj, Obj?>)
    requires s.Node? && s.left.Leaf? && At(t, s, k, s.obj, visited)
    requires Proper(t) && Recorded(t, lm, rm)
    ensures s.obj in rm && At(t, s.right, k, RightNow(s.obj, k, rm), visited + [s.obj])
    ensures |Remaining(s.right, k)| < |Remaining(s, k)|
  {
    CurrentFacts(s, k, t, lm, rm);
    assert visited + Remaining(s, k) == (visited + [s.obj]) + Remaining(s.right, k) by {
      RemainingVisit(s, k);
    }
  }

  /** Entering a left subtree, with a thread from its last object back to its parent. */
  lemma {:induction false} DescendStep(t: Tree, s: Tree, k: Pending, visited: seq<Obj>, lm: map<Obj, Obj?>, rm: map<Obj, Obj?>)
    requires s.Node? && s.left.Node? && At(t, s, k, s.obj, visited)
    requires Proper(t) && Recorded(t, lm, rm)
    ensures At(t, s.left, Then(s.obj, s.left, s.right, k), s.left.obj, visited)
    ensures |Remaining(s.left, Then(s.obj, s.left, s.right, k))| == |Remaining(s, k)|
    ensures Threads(Then(s.obj, s.left, s.right, k)) == Threads(k)[Last(s.left) := s.obj]
  {
    RemainingDescend(s, k);
  }

  /** Coming back through a thread, which is taken out, and visiting the parent. */
  lemma {:induction false} ReturnStep(t: Tree, k: Pending, visited: seq<Obj>, lm: map<Obj, Obj?>, rm: map<Obj, Obj?>)
    requires k.Then? && At(t, Leaf, k, k.obj, visited)
    requires Proper(t) && Recorded(t, lm, rm)
    ensures k.obj in rm && At(t, k.right, k.rest, RightNow(k.obj, k.rest, rm), visited + [k.obj])
    ensures Threads(k.rest) == Threads(k) - {Last(k.left)}
    ensures |Remaining(k.right, k.rest)| < |Remaining(Leaf, k)|
  {
    PendingFacts(k, t, lm, rm);
    assert visited + Remaining(Leaf, k) == (visited + [k.obj]) + Remaining(k.right, k.rest) by {
      RemainingReturn(k);
    }
  }

  /** The heap carries the recorded links, overridden by the threads of `th`. */
  ghost predicate Threaded(nodes: set<Obj>, lm: map<Obj, Obj?>, rm: map<Obj, Obj?>, th: map<Obj, Obj>)
    reads nodes
  {
    forall x {:trigger x in nodes} | x in nodes ::
      && x in lm && x.left == lm[x]
      && x in rm && x.right == if x in th then th[x] else rm[x]
  }

  /** The inner loop: from the root of the left subtree `l` down its right spine, up to its last
      object, whether or not that one carries the thread to `cur`. */
  method FindPredecessor(cur: Obj, ghost l: Tree, ghost nodes: set<Obj>,
                         ghost lm: map<Obj, Obj?>, ghost rm: map<Obj, Obj?>, ghost th: map<Obj, Obj>)
    returns (pre: Obj)
    requires l.Node? && Proper(l) && Recorded(l, lm, rm) && Nodes(l) <= nodes
    requires cur in nodes && cur !in Nodes(l) && cur.left == l.obj
    requires Threaded(nodes, lm, rm, th)
    requires FromEnds(th, rm)
    requires Last(l) in th ==> th[Last(l)] == cur
    ensures pre == Last(l) && pre in nodes && (pre.right == null <==> Last(l) !in th)
  {
    pre := cur.left;
    ghost var u := l;
    LastHasNoRight(l, lm, rm);
    while pre.right != null && pre.right != cur
      invariant u.Node? && pre == u.obj && RightPart(u, l) && Recorded(u, lm, rm)
      invariant Nodes(u) <= Nodes(l) && Last(u) == Last(l)
      decreases u
    {
      RightPartFacts(u, l);
      RightPartRecorded(u, l, lm, rm);
      assert u.right.Node?;
      pre := pre.right;
      RightPartFacts(u.right, l);
      u := u.right;
    }
  }

  /** The loop of the traversal, on links that have been recorded beforehand.  The callback is
      modelled by the order in which it is called. */
  method Walk(root: Obj, ghost t: Tree, ghost nodes: set<Obj>, ghost lm: map<Obj, Obj?>, ghost rm: map<Obj, Obj?>)
    returns (visited: seq<Obj>)
    requires root == Root(t) && Proper(t) && Recorded(t, lm, rm) && Nodes(t) <= nodes
    requires Threaded(nodes, lm, rm, map[])
    modifies nodes
    ensures visited == InOrder(t)
    ensures Threaded(nodes, lm, rm, map[])
  {
    hide At, Remaining, Threads, Nodes, Proper, Recorded, InOrder;
    visited := [];
    var next: Obj? := root;
    ghost var s, k := t, Done;
    AtStart(t);
    while next != null
      invariant At(t, s, k, next, visited)
      invariant Threaded(nodes, lm, rm, Threads(k))
      decreases |Remaining(s, k)|, s
    {
      var cur: Obj := next;
      Here(t, s, k, cur, visited, nodes, lm, rm);
      if cur.left == null {
        VisitStep(t, s, k, visited, lm, rm);
        visited := visited + [cur];
        next := cur.right;
        s := s.right;
      } else {
        var pre := FindPredecessor(cur, LeftHere(s, k), nodes, lm, rm, Threads(k));
        if pre.right == null {
          DescendStep(t, s, k, visited, lm, rm);
          pre.right := cur;
          assert Threaded(nodes, lm, rm, Threads(k)[pre := cur]);
          next := cur.left;
          s, k := s.left, Then(s.obj, s.left, s.right, k);
        } else {
          ReturnStep(t, k, visited, lm, rm);
          pre.right := null;
          assert Threaded(nodes, lm, rm, Threads(k) - {pre});
          visited := visited + [cur];
          next := cur.right;
          s, k := k.right, k.rest;
        }
      }
    }
    AtEnd(t, s, k, visited);
  }

  /** `obj13_bst_inorder_traversal`: every object is visited once, in order, and every link has its
      old value in the end. */
  method InOrderTraversal(root: Obj?, ghost t: Tree) returns (visited: seq<Obj>)
    requires Represents(root, t)
    modifies Nodes(t)
    ensures visited == InOrder(t)
    ensures forall x: Obj | old(allocated(x)) && x in Nodes(t) ::
              x.left == old(x.left) && x.right == old(x.right)
    ensures Represents(root, t)
  {
    if root == null {
      return [];
    }
    ghost var nodes := Nodes(t);
    ghost var lm: map<Obj, Obj?> := map x: Obj | x in nodes :: x.left;
    ghost var rm: map<Obj, Obj?> := map x: Obj | x in nodes :: x.right;
    LinksRecorded(t, lm, rm);
    visited := Walk(root, t, nodes, lm, rm);
    RecordedLinks(t, lm, rm);
  }
}
