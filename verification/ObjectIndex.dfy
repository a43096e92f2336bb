/** Insertion into and search of the object index, and what a whole history of insertions makes of
    it: the traversal is a stable sort of the objects, and a search finds the oldest match. */
module ObjectIndex {
  import opened ObjectTree
  import opened MorrisTraversal

  /** `u` hung below `t` at the place where the id of its root belongs. */
  ghost function Graft(t: Tree, u: Tree): (r: Tree)
    requires u.Node?
    ensures r.Node?
  {
    match t
    case Leaf => u
    case Node(l, x, r) =>
      if u.obj.objid < x.objid then Node(Graft(l, u), x, r) else Node(l, x, Graft(r, u))
  }

  lemma {:induction false} GraftNodes(t: Tree, u: Tree)
    requires u.Node? && Proper(t) && Proper(u) && Nodes(t) !! Nodes(u)
    ensures Nodes(Graft(t, u)) == Nodes(t) + Nodes(u) && Proper(Graft(t, u))
    ensures t.Node? ==> Graft(t, u).obj == t.obj
  {
    if t.Node? {
      if u.obj.objid < t.obj.objid { GraftNodes(t.left, u); } else { GraftNodes(t.right, u); }
    }
  }

  /** `obj13_bst_insert_node`: the tree at `node`, a single object when it comes fresh from its
      constructor, ends up below `root`, and nothing else moves. */
  method Insert(root: Obj, node: Obj, ghost t: Tree, ghost u: Tree)
    requires Represents(root, t) && Represents(node, u) && Nodes(t) !! Nodes(u)
    modifies Nodes(t)
    ensures Represents(root, Graft(t, u))
    decreases t
  {
    GraftNodes(t, u);
    NodesAllocated(t);
    NodesAllocated(u);
    if node.objid < root.objid {
      if root.left == null {
        root.left := node;
      } else {
        Insert(root.left, node, t.left, u);
        GraftNodes(t.left, u);
      }
    } else {
      if root.right == null {
        root.right := node;
      } else {
        Insert(root.right, node, t.right, u);
        GraftNodes(t.right, u);
      }
    }
  }

  /** The object a search for `id` ends at, `null` when it runs off the tree. */
  ghost function Lookup(t: Tree, id: nat): Obj? {
    match t
    case Leaf => null
    case Node(l, x, r) =>
      if x.objid == id then x else if id < x.objid then Lookup(l, id) else Lookup(r, id)
  }

  /** `obj13_bst_find_node`: `found` is the E13_OK of the source, its absence E13_NOTFOUND. */
  method Find(root: Obj?, id: nat, ghost t: Tree) returns (found: bool, node: Obj?)
    requires Represents(root, t)
    ensures node == Lookup(t, id) && (found <==> node != null)
  {
    node := root;
    ghost var s := t;
    while node != null
      invariant Represents(node, s) && Lookup(s, id) == Lookup(t, id)
      decreases s
    {
      if node.objid == id {
        return true, node;
      } else if id < node.objid {
        node := node.left;
        s := s.left;
      } else {
        node := node.right;
        s := s.right;
      }
    }
    found := false;
  }

  // ---------- the reference: stable insertion into a list sorted by id ----------

  predicate Sorted(s: seq<Obj>) {
    forall i, j | 0 <= i < j < |s| :: s[i].objid <= s[j].objid
  }

  /** `x` put behind every object whose id is not greater. */
  function StableInsert(s: seq<Obj>, x: Obj): seq<Obj> {
    if s == [] then [x]
    else if x.objid < s[0].objid then [x] + s
    else [s[0]] + StableInsert(s[1..], x)
  }

  function StableSort(objs: seq<Obj>): seq<Obj> {
    if objs == [] then [] else StableInsert(StableSort(objs[..|objs| - 1]), objs[|objs| - 1])
  }

  function OneWithId(x: Obj, id: nat): seq<Obj> {
    if x.objid == id then [x] else []
  }

  function WithId(s: seq<Obj>, id: nat): seq<Obj> {
    if s == [] then [] else OneWithId(s[0], id) + WithId(s[1..], id)
  }

  lemma {:induction false} StableInsertContents(s: seq<Obj>, x: Obj)
    ensures multiset(StableInsert(s, x)) == multiset(s) + multiset{x}
  {
    if s != [] {
      assert s == [s[0]] + s[1..];
      StableInsertContents(s[1..], x);
    }
  }

  lemma {:induction false} StableInsertSorted(s: seq<Obj>, x: Obj)
    requires Sorted(s)
    ensures Sorted(StableInsert(s, x))
  {
    if s != [] && s[0].objid <= x.objid {
      StableInsertSorted(s[1..], x);
      StableInsertContents(s[1..], x);
      var rest := StableInsert(s[1..], x);
      forall y | y in rest ensures s[0].objid <= y.objid {
        assert y in multiset(rest);
        assert y in multiset(s[1..]) + multiset{x};
        assert y == x || y in s[1..];
      }
    }
  }

  lemma {:induction false} WithIdAppend(a: seq<Obj>, b: seq<Obj>, id: nat)
    ensures WithId(a + b, id) == WithId(a, id) + WithId(b, id)
  {
    hide OneWithId;
    if a == [] {
      assert a + b == b;
    } else {
      assert (a + b)[0] == a[0] && (a + b)[1..] == a[1..] + b;
      WithIdAppend(a[1..], b, id);
      var h, p, q := OneWithId(a[0], id), WithId(a[1..], id), WithId(b, id);
      assert h + (p + q) == (h + p) + q;
    }
  }

  lemma {:induction false} StableInsertKeepsOrder(s: seq<Obj>, x: Obj, id: nat)
    requires Sorted(s)
    ensures WithId(StableInsert(s, x), id) == WithId(s, id) + OneWithId(x, id)
    decreases |s|, 1
  {
    if s == [] {
    } else if x.objid < s[0].objid {
      assert ([x] + s)[1..] == s;
      if x.objid == id { NoneWithId(s, id); }
    } else {
      KeepsOrderFurtherOn(s, x, id);
    }
  }

  lemma {:induction false} KeepsOrderFurtherOn(s: seq<Obj>, x: Obj, id: nat)
    requires Sorted(s) && s != [] && s[0].objid <= x.objid
    ensures WithId(StableInsert(s, x), id) == WithId(s, id) + OneWithId(x, id)
    decreases |s|, 0
  {
    hide OneWithId;
    StableInsertKeepsOrder(s[1..], x, id);
    var rest := StableInsert(s[1..], x);
    assert ([s[0]] + rest)[1..] == rest;
    var h, p, q := OneWithId(s[0], id), WithId(s[1..], id), OneWithId(x, id);
    assert h + (p + q) == (h + p) + q;
  }

  lemma {:induction false} NoneWithId(s: seq<Obj>, id: nat)
    requires forall y | y in s :: y.objid != id
    ensures WithId(s, id) == []
  {
    if s != [] { NoneWithId(s[1..], id); }
  }

  /** The reference is what its name says: sorted, a permutation, and objects with the same id
      keep their order. */
  lemma {:induction false} StableSortCorrect(objs: seq<Obj>, id: nat)
    ensures Sorted(StableSort(objs))
    ensures multiset(StableSort(objs)) == multiset(objs)
    ensures WithId(StableSort(objs), id) == WithId(objs, id)
  {
    if objs != [] {
      var init, x := objs[..|objs| - 1], objs[|objs| - 1];
      assert objs == init + [x];
      StableSortCorrect(init, id);
      StableInsertSorted(StableSort(init), x);
      StableInsertContents(StableSort(init), x);
      StableInsertKeepsOrder(StableSort(init), x, id);
      WithIdAppend(init, [x], id);
      assert WithId([x], id) == OneWithId(x, id);
    }
  }

  // ---------- the tree against the reference ----------

  lemma {:induction false} InsertBefore(a: seq<Obj>, c: seq<Obj>, x: Obj)
    requires c != [] && x.objid < c[0].objid
    ensures StableInsert(a + c, x) == StableInsert(a, x) + c
  {
    if a == [] {
      assert a + c == c;
    } else {
      assert (a + c)[1..] == a[1..] + c;
      InsertBefore(a[1..], c, x);
    }
  }

  lemma {:induction false} InsertAfter(a: seq<Obj>, c: seq<Obj>, x: Obj)
    requires forall y | y in a :: y.objid <= x.objid
    ensures StableInsert(a + c, x) == a + StableInsert(c, x)
  {
    if a == [] {
      assert a + c == c;
    } else {
      assert (a + c)[1..] == a[1..] + c;
      InsertAfter(a[1..], c, x);
    }
  }

  ghost function Single(x: Obj): Tree {
    Node(Leaf, x, Leaf)
  }

  /** Inserting one object keeps the search order ... */
  lemma {:induction false} GraftOrdered(t: Tree, x: Obj)
    requires Ordered(t) && Proper(t) && x !in Nodes(t)
    ensures Ordered(Graft(t, Single(x)))
  {
    match t
    case Leaf =>
    case Node(l, y, r) =>
      if x.objid < y.objid {
        GraftOrdered(l, x);
        GraftNodes(l, Single(x));
      } else {
        GraftOrdered(r, x);
        GraftNodes(r, Single(x));
      }
  }

  /** ... and inserts it stably into the traversal. */
  lemma {:induction false} GraftInOrder(t: Tree, x: Obj)
    requires Ordered(t)
    ensures InOrder(Graft(t, Single(x))) == StableInsert(InOrder(t), x)
  {
    match t
    case Leaf =>
    case Node(l, y, r) =>
      if x.objid < y.objid {
        GraftInOrder(l, x);
        InsertBefore(InOrder(l), [y] + InOrder(r), x);
        assert InOrder(t) == InOrder(l) + ([y] + InOrder(r));
        assert InOrder(Graft(t, Single(x))) == InOrder(Graft(l, Single(x))) + ([y] + InOrder(r));
      } else {
        GraftInOrder(r, x);
        InOrderNodes(l);
        InsertAfter(InOrder(l) + [y], InOrder(r), x);
        assert InOrder(t) == (InOrder(l) + [y]) + InOrder(r);
        assert InOrder(Graft(t, Single(x))) == (InOrder(l) + [y]) + InOrder(Graft(r, Single(x)));
      }
  }

  /** The tree that results from inserting the objects one after another. */
  ghost function Build(objs: seq<Obj>): Tree {
    if objs == [] then Leaf else Graft(Build(objs[..|objs| - 1]), Single(objs[|objs| - 1]))
  }

  ghost predicate Distinct(s: seq<Obj>) {
    forall i, j | 0 <= i < j < |s| :: s[i] != s[j]
  }

  lemma {:induction false} BuildNodes(objs: seq<Obj>)
    requires Distinct(objs)
    ensures Proper(Build(objs)) && forall x: Obj | x in Nodes(Build(objs)) :: x in objs
  {
    if objs != [] {
      var init, x := objs[..|objs| - 1], objs[|objs| - 1];
      assert objs == init + [x];
      BuildNodes(init);
      GraftNodes(Build(init), Single(x));
    }
  }

  /** For every history of insertions the tree is ordered and its traversal is the stable sort. */
  lemma {:induction false} BuildSorts(objs: seq<Obj>)
    requires Distinct(objs)
    ensures Ordered(Build(objs)) && InOrder(Build(objs)) == StableSort(objs)
  {
    if objs != [] {
      var init, x := objs[..|objs| - 1], objs[|objs| - 1];
      assert objs == init + [x];
      BuildSorts(init);
      BuildNodes(init);
      GraftOrdered(Build(init), x);
      GraftInOrder(Build(init), x);
    }
  }

  lemma {:induction false} WithIdMembers(s: seq<Obj>, id: nat)
    ensures forall x :: x in WithId(s, id) <==> x in s && x.objid == id
  {
    if s != [] {
      WithIdMembers(s[1..], id);
      assert s == [s[0]] + s[1..];
    }
  }

  /** On an ordered tree a search ends at the first object with that id in traversal order. */
  lemma {:induction false} LookupIsFirst(t: Tree, id: nat)
    requires Ordered(t)
    ensures var same := WithId(InOrder(t), id);
            Lookup(t, id) == if same == [] then null else same[0]
  {
    match t
    case Leaf =>
    case Node(l, x, r) =>
      WithIdAppend(InOrder(l) + [x], InOrder(r), id);
      WithIdAppend(InOrder(l), [x], id);
      assert WithId([x], id) == OneWithId(x, id);
      if id < x.objid {
        LookupIsFirst(l, id);
        NoneRight(t, id);
      } else {
        NoneLeft(t, id);
        LookupIsFirst(r, id);
      }
  }

  lemma NoneLeft(t: Tree, id: nat)
    requires t.Node? && Ordered(t) && t.obj.objid <= id
    ensures WithId(InOrder(t.left), id) == []
  {
    InOrderNodes(t.left);
    forall y | y in InOrder(t.left) ensures y.objid != id {
      assert y in Nodes(t.left);
    }
    NoneWithId(InOrder(t.left), id);
  }

  lemma NoneRight(t: Tree, id: nat)
    requires t.Node? && Ordered(t) && id < t.obj.objid
    ensures WithId(InOrder(t.right), id) == []
  {
    InOrderNodes(t.right);
    forall y | y in InOrder(t.right) ensures y.objid != id {
      assert y in Nodes(t.right);
    }
    NoneWithId(InOrder(t.right), id);
  }

  /** A search succeeds exactly for the ids that were inserted, and finds the object that was
      inserted first among those with that id. */
  lemma FindsOldest(objs: seq<Obj>, id: nat)
    requires Distinct(objs)
    ensures var same := WithId(objs, id);
            Lookup(Build(objs), id) == if same == [] then null else same[0]
    ensures Lookup(Build(objs), id) != null <==> exists x :: x in objs && x.objid == id
    ensures Lookup(Build(objs), id) != null ==> Lookup(Build(objs), id).objid == id
  {
    BuildSorts(objs);
    LookupIsFirst(Build(objs), id);
    StableSortCorrect(objs, id);
    WithIdMembers(objs, id);
    var same := WithId(objs, id);
    if same != [] {
      assert same[0] in same;
    } else {
      forall x | x in objs ensures x.objid != id {
        assert x in same <==> x.objid == id;
      }
    }
  }

  /** A whole run: objects inserted one after another under the first, then listed. */
  method InsertAllAndList(objs: seq<Obj>) returns (listed: seq<Obj>)
    requires Distinct(objs) && objs != []
    requires forall x | x in objs :: x.left == null && x.right == null
    modifies objs
    ensures listed == StableSort(objs)
    ensures Represents(objs[0], Build(objs))
  {
    hide StableInsert, StableSort, Ordered, InOrder;
    var root := objs[0];
    ghost var t := Single(root);
    assert objs[..1] == [root] && Build([root]) == t;
    assert Links(t.left) && Links(t.right) && Proper(t.left) && Proper(t.right);
    assert objs[0].left == null && objs[0].right == null;
    for i := 1 to |objs|
      invariant t == Build(objs[..i]) && Represents(root, t)
      invariant forall j | i <= j < |objs| :: objs[j].left == null && objs[j].right == null
    {
      assert objs[..i + 1][..i] == objs[..i];
      BuildNodes(objs[..i]);
      ghost var u := Single(objs[i]);
      assert Links(u);
      Insert(root, objs[i], t, u);
      t := Graft(t, u);
    }
    assert objs[..|objs|] == objs;
    BuildNodes(objs);
    BuildSorts(objs);
    listed := InOrderTraversal(root, t);
  }
}
