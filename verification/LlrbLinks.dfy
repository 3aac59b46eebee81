/** How nodes on the heap represent a shape, and how a shape represents a tree. */
module LlrbLinks {
  import opened LlrbNode
  import T = LlrbTree

  /** Every node of the shape links to its children as drawn and is their parent; no node occurs twice. */
  ghost predicate Linked(s: Shape)
    reads s.Nodes()`leftNode, s.Nodes()`rightNode, (if s.Bin? then s.Nodes() - {s.node} else {})`parent
  {
    s.Bin? ==> (
      && s.node !in s.left.Nodes() && s.node !in s.right.Nodes() && s.left.Nodes() !! s.right.Nodes()
      && s.node.leftNode == s.left.Root() && s.node.rightNode == s.right.Root()
      && (s.left.Bin? ==> s.left.node.parent == s.node) && (s.right.Bin? ==> s.right.node.parent == s.node)
      && Linked(s.left) && Linked(s.right))
  }

  /** The surroundings are linked around a subtree whose root is, as far as its holder knows, `hole`. */
  ghost predicate Surrounds(c: Context, hole: Node?)
    reads c.Nodes()`leftNode, c.Nodes()`rightNode, c.Nodes()`parent
  {
    !c.Top? ==> (
      && (if c.UnderLeft? then c.node.leftNode == hole && c.node.rightNode == c.right.Root()
          else c.node.rightNode == hole && c.node.leftNode == c.left.Root())
      && (c.Sibling().Bin? ==> c.Sibling().node.parent == c.node)
      && (!c.up.Top? ==> c.node.parent == c.up.node)
      && c.node !in c.Sibling().Nodes() && c.node !in c.up.Nodes() && c.Sibling().Nodes() !! c.up.Nodes()
      && Linked(c.Sibling()) && Surrounds(c.up, c.node))
  }

  /** The tree that a shape represents. */
  ghost function Abs(s: Shape): T.Tree
    reads s.Nodes()`color, s.Nodes()`value
    ensures Abs(s).Node? <==> s.Bin?
  {
    if s.Nil? then T.Leaf else T.Node(s.node.color, Abs(s.left), s.node.value, Abs(s.right))
  }

  /** The root of the whole tree, when `n` is the root of the subtree. */
  ghost function TopOf(n: Node?, c: Context): (t: Node?)
    ensures (t == n || t in c.Nodes()) && (n != null ==> t != null)
    decreases c
  {
    if c.Top? then n else TopOf(c.node, c.up)
  }

  /** All nodes of the tree, and the removed ones that parent links may still reach. */
  ghost function All(s: Shape, c: Context, removed: set<Node>): set<Node> {
    s.Nodes() + c.Nodes() + removed
  }

  /** The subtree `s` inside `c` makes up one whole tree; removed nodes are detached leaves. */
  ghost predicate Whole(s: Shape, c: Context, removed: set<Node>)
    reads All(s, c, removed)`leftNode, All(s, c, removed)`rightNode, All(s, c, removed)`parent
  {
    && Linked(s) && Surrounds(c, s.Root())
    && (s.Bin? && !c.Top? ==> s.node.parent == c.node)
    && s.Nodes() !! c.Nodes() && s.Nodes() + c.Nodes() !! removed
    && (forall m <- removed :: m.leftNode == null && m.rightNode == null)
    && var top := TopOf(s.Root(), c);
      top != null ==> top in s.Nodes() + c.Nodes() && (top.parent != null ==> top.parent in All(s, c, removed))
  }

  /** The pieces that a rotation puts together differently. */
  ghost predicate Pieces(a: Shape, n: Node, b: Shape, x: Node, c: Shape)
    reads a.Nodes()`leftNode, a.Nodes()`rightNode, (if a.Bin? then a.Nodes() - {a.node} else {})`parent
    reads b.Nodes()`leftNode, b.Nodes()`rightNode, (if b.Bin? then b.Nodes() - {b.node} else {})`parent
    reads c.Nodes()`leftNode, c.Nodes()`rightNode, (if c.Bin? then c.Nodes() - {c.node} else {})`parent
  {
    && Linked(a) && Linked(b) && Linked(c)
    && a.Nodes() !! b.Nodes() && a.Nodes() !! c.Nodes() && b.Nodes() !! c.Nodes()
    && n != x && {n, x} !! a.Nodes() && {n, x} !! b.Nodes() && {n, x} !! c.Nodes()
  }

  lemma PiecesOfRightHeavy(a: Shape, n: Node, b: Shape, x: Node, c: Shape)
    ensures Linked(Bin(a, n, Bin(b, x, c))) <==>
      && Pieces(a, n, b, x, c)
      && n.leftNode == a.Root() && n.rightNode == x && x.parent == n
      && x.leftNode == b.Root() && x.rightNode == c.Root()
      && (a.Bin? ==> a.node.parent == n) && (b.Bin? ==> b.node.parent == x) && (c.Bin? ==> c.node.parent == x)
    ensures Bin(a, n, Bin(b, x, c)).Nodes() == a.Nodes() + b.Nodes() + c.Nodes() + {n, x}
  {
  }

  lemma PiecesOfLeftHeavy(a: Shape, n: Node, b: Shape, x: Node, c: Shape)
    ensures Linked(Bin(Bin(a, n, b), x, c)) <==>
      && Pieces(a, n, b, x, c)
      && x.leftNode == n && x.rightNode == c.Root() && n.parent == x
      && n.leftNode == a.Root() && n.rightNode == b.Root()
      && (a.Bin? ==> a.node.parent == n) && (b.Bin? ==> b.node.parent == n) && (c.Bin? ==> c.node.parent == x)
    ensures Bin(Bin(a, n, b), x, c).Nodes() == a.Nodes() + b.Nodes() + c.Nodes() + {n, x}
  {
  }

  // ---- Links stay inside

  lemma LinkedHolds(s: Shape, m: Node, n: Node)
    requires Linked(s) && m in s.Nodes() && m.Holds(n)
    ensures n in s.Nodes() && n != s.node && n.parent == m && m != n
  {
  }

  lemma SurroundsHolds(c: Context, hole: Node, m: Node, n: Node)
    requires Surrounds(c, hole) && hole !in c.Nodes() && m in c.Nodes() && m.Holds(n)
    ensures m != n && (n in c.Nodes() || (n == hole && m == c.node))
  {
    if m == c.node {
    } else if m in c.Sibling().Nodes() {
      LinkedHolds(c.Sibling(), m, n);
    } else {
      SurroundsHolds(c.up, c.node, m, n);
    }
  }

  /** A node and its ancestors, with their depths. */
  ghost function Depths(n: Node, c: Context): (d: map<Node, nat>)
    ensures n in d && d[n] == c.Depth() && d.Keys <= {n} + c.Nodes()
    decreases c
  {
    (if c.Top? then map[] else Depths(c.node, c.up))[n := c.Depth()]
  }

  /** No node of `outer` links to a node of `inner`. */
  ghost predicate Avoids(outer: set<Node>, inner: set<Node>)
    reads outer`leftNode, outer`rightNode
  {
    forall m <- outer :: m.leftNode !in inner && m.rightNode !in inner
  }

  lemma LinkedAvoids(s: Shape, inner: set<Node>)
    requires Linked(s) && inner !! s.Nodes()
    ensures Avoids(s.Nodes(), inner) && NoSelfLinks(s.Nodes())
    ensures s.Bin? ==> Avoids(s.Nodes(), {s.node})
  {
    forall m | m in s.Nodes()
      ensures m.leftNode !in inner && m.rightNode !in inner && !m.Holds(m)
      ensures s.Bin? ==> !m.Holds(s.node)
    {
      if m.leftNode != null {
        LinkedHolds(s, m, m.leftNode);
      }
      if m.rightNode != null {
        LinkedHolds(s, m, m.rightNode);
      }
    }
  }

  lemma SurroundsAvoids(c: Context, hole: Node, inner: set<Node>)
    requires Surrounds(c, hole) && hole !in c.Nodes() && inner !! c.Nodes() + {hole}
    ensures Avoids(c.Nodes(), inner)
  {
    forall m | m in c.Nodes()
      ensures m.leftNode !in inner && m.rightNode !in inner
    {
      if m.leftNode != null {
        SurroundsHolds(c, hole, m, m.leftNode);
      }
      if m.rightNode != null {
        SurroundsHolds(c, hole, m, m.rightNode);
      }
    }
  }

  lemma {:induction false} AncestorsAreRanked(n: Node, c: Context, below: set<Node>, removed: set<Node>)
    requires n in below && Avoids(below, {n} + c.Nodes()) && NoSelfLinks(below)
    requires Surrounds(c, n) && below !! c.Nodes() && below + c.Nodes() !! removed
    requires !c.Top? ==> n.parent == c.node
    requires forall m <- removed :: m.leftNode == null && m.rightNode == null
    requires var top := TopOf(n, c);
      top != null && top.parent != null ==> top.parent in below + c.Nodes() + removed
    ensures Ranked(Depths(n, c), below + c.Nodes() + removed)
    ensures NoSelfLinks(below + c.Nodes() + removed)
    decreases c
  {
    var all := below + c.Nodes() + removed;
    if !c.Top? {
      var p, sib := c.node, c.Sibling();
      var wider := below + {p} + sib.Nodes();
      assert Avoids(wider, {p} + c.up.Nodes()) && NoSelfLinks(wider) by {
        LinkedAvoids(sib, {p} + c.up.Nodes());
      }
      assert wider + c.up.Nodes() + removed == all;
      AncestorsAreRanked(p, c.up, wider, removed);
      assert Avoids(all - {p}, {n}) by {
        LinkedAvoids(sib, {n});
        SurroundsAvoids(c.up, p, {n});
      }
      RankOneMore(n, p, Depths(p, c.up), c.Depth(), all);
    }
  }

  lemma RankOneMore(n: Node, p: Node, depth: map<Node, nat>, d: nat, all: set<Node>)
    requires Ranked(depth, all) && n in all && n !in depth && p in depth && depth[p] < d
    requires n.parent == p && Avoids(all - {p}, {n})
    ensures Ranked(depth[n := d], all)
  {
  }

  /** In a whole tree the root of a subtree is ranked with its ancestors and held by its holder only. */
  lemma WholeIsRanked(s: Shape, c: Context, removed: set<Node>)
    requires Whole(s, c, removed) && s.Bin?
    ensures Ranked(Depths(s.node, c), All(s, c, removed)) && NoSelfLinks(All(s, c, removed))
    ensures Avoids(c.Nodes() + removed - {c.Holder()}, s.Nodes())
  {
    LinkedAvoids(s, c.Nodes());
    AncestorsAreRanked(s.node, c, s.Nodes(), removed);
    forall m | m in c.Nodes() && m != c.Holder()
      ensures m.leftNode !in s.Nodes() && m.rightNode !in s.Nodes()
    {
      if m.leftNode != null {
        SurroundsHolds(c, s.node, m, m.leftNode);
      }
      if m.rightNode != null {
        SurroundsHolds(c, s.node, m, m.rightNode);
      }
    }
  }

  lemma WholeDownLeft(s: Shape, c: Context, removed: set<Node>)
    requires Whole(s, c, removed) && s.Bin?
    ensures Whole(s.left, UnderLeft(s.node, s.right, c), removed)
    ensures All(s.left, UnderLeft(s.node, s.right, c), removed) == All(s, c, removed)
  {
  }

  lemma WholeDownRight(s: Shape, c: Context, removed: set<Node>)
    requires Whole(s, c, removed) && s.Bin?
    ensures Whole(s.right, UnderRight(s.left, s.node, c), removed)
    ensures All(s.right, UnderRight(s.left, s.node, c), removed) == All(s, c, removed)
  {
  }

  /** A whole tree except for the two links from `n` down to its subtrees `l` and `r`. */
  ghost predicate Parts(l: Shape, n: Node, r: Shape, c: Context, removed: set<Node>, all: set<Node>)
    reads all`leftNode, all`rightNode, all`parent
  {
    && all == l.Nodes() + {n} + r.Nodes() + c.Nodes() + removed
    && Linked(l) && Linked(r) && Surrounds(c, n) && (!c.Top? ==> n.parent == c.node)
    && n !in l.Nodes() && n !in r.Nodes() && l.Nodes() !! r.Nodes()
    && l.Nodes() + {n} + r.Nodes() !! c.Nodes() && l.Nodes() + {n} + r.Nodes() + c.Nodes() !! removed
    && (forall m <- removed :: m.leftNode == null && m.rightNode == null)
    && (TopOf(n, c).parent != null ==> TopOf(n, c).parent in all)
  }

  ghost predicate ParentOf(n: Node, s: Shape)
    reads (if s.Bin? then {s.node} else {})`parent
  {
    s.Bin? ==> s.node.parent == n
  }

  lemma PartsMakeWhole(l: Shape, n: Node, r: Shape, c: Context, removed: set<Node>)
    requires Parts(l, n, r, c, removed, All(Bin(l, n, r), c, removed))
    requires n.leftNode == l.Root() && n.rightNode == r.Root() && ParentOf(n, l) && ParentOf(n, r)
    ensures Whole(Bin(l, n, r), c, removed)
  {
  }

  lemma PartsAreRanked(l: Shape, n: Node, r: Shape, c: Context, removed: set<Node>, all: set<Node>)
    requires Parts(l, n, r, c, removed, all)
    requires n.leftNode != null ==> n.leftNode in l.Nodes() + r.Nodes()
    requires n.rightNode != null ==> n.rightNode in l.Nodes() + r.Nodes()
    ensures Ranked(Depths(n, c), all) && NoSelfLinks(all)
  {
    LinkedAvoids(l, {n} + c.Nodes());
    LinkedAvoids(r, {n} + c.Nodes());
    AncestorsAreRanked(n, c, l.Nodes() + {n} + r.Nodes(), removed);
  }

  // ---- Counts and positions

  lemma {:induction false} WalkMatchesTree(s: Shape)
    ensures |s.Walk()| == |T.InOrder(Abs(s))| == T.Size(Abs(s))
    ensures forall i :: 0 <= i < |s.Walk()| ==> s.Walk()[i].value == T.InOrder(Abs(s))[i]
    ensures forall n <- s.Walk() :: n in s.Nodes()
  {
    if s.Bin? {
      WalkMatchesTree(s.left);
      WalkMatchesTree(s.right);
    }
  }

  /** Every count field is the number of nodes in the subtree. */
  ghost predicate Counted(s: Shape)
    reads s.Nodes()`childsNumber
  {
    s.Bin? ==> s.node.childsNumber == |s.Walk()| && Counted(s.left) && Counted(s.right)
  }

  lemma CountedRoot(s: Shape)
    requires Counted(s)
    ensures CountOf(s.Root()) == |s.Walk()|
  {
  }

  lemma {:induction false} LocallyExactIsCounted(s: Shape)
    requires Linked(s) && forall m <- s.Nodes() :: m.Exact()
    ensures Counted(s)
  {
    if s.Bin? {
      LocallyExactIsCounted(s.left);
      LocallyExactIsCounted(s.right);
      assert s.node.Exact();
    }
  }

  lemma {:induction false} CountedIsLocallyExact(s: Shape)
    requires Linked(s) && Counted(s)
    ensures forall m <- s.Nodes() :: m.Exact()
  {
    if s.Bin? {
      CountedIsLocallyExact(s.left);
      CountedIsLocallyExact(s.right);
      assert CountOf(s.left.Root()) == |s.left.Walk()| && CountOf(s.right.Root()) == |s.right.Walk()|;
      assert s.node.Exact();
    }
  }
}
