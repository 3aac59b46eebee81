/**
 * The order-statistic tree on the heap: insertion, deletion, rank and iteration, each proved against the value
 * tree.
 */
module LlrbHeap {
  import opened Scores
  import opened LlrbNode
  import opened LlrbLinks
  import opened LlrbPaths
  import opened LlrbLeftovers
  import T = LlrbTree

  ghost function RotatedLeft(s: Shape): Shape
    requires s.Bin? && s.right.Bin?
  {
    Bin(Bin(s.left, s.node, s.right.left), s.right.node, s.right.right)
  }

  ghost function RotatedRight(s: Shape): Shape
    requires s.Bin? && s.left.Bin?
  {
    Bin(s.left.left, s.left.node, Bin(s.left.right, s.node, s.right))
  }

  /**
   * Everything known when a rotation starts: outside the subtree only `holder` links into it, and `depth` ranks the
   * root of the subtree and nodes outside it.
   */
  ghost predicate Rotatable(s: Shape, holder: Node?, depth: map<Node, nat>, all: set<Node>)
    reads all`leftNode, all`rightNode, all`parent, depth.Keys`parent
  {
    && s.Bin? && s.Nodes() <= all && Linked(s)
    && s.node in depth && depth.Keys !! s.Nodes() - {s.node} && Ranked(depth, all) && NoSelfLinks(all)
    && holder !in s.Nodes() && Avoids(all - s.Nodes() - {holder}, s.Nodes())
  }

  ghost function PieceNodes(a: Shape, n: Node, b: Shape, x: Node, c: Shape): set<Node> {
    a.Nodes() + b.Nodes() + c.Nodes() + {n, x}
  }

  /** Halfway through a rotation: `upper` still has `lower` as its parent and no node holds it. */
  ghost predicate Loose(a: Shape, n: Node, b: Shape, x: Node, c: Shape, lower: Node, upper: Node, below: set<Node>)
    reads below`leftNode, below`rightNode, below`parent, PieceNodes(a, n, b, x, c)`leftNode,
          PieceNodes(a, n, b, x, c)`rightNode, PieceNodes(a, n, b, x, c)`parent, upper`parent
  {
    && PieceNodes(a, n, b, x, c) <= below && Pieces(a, n, b, x, c)
    && upper.parent == lower && NoSelfLinks(below)
    && Avoids(below - PieceNodes(a, n, b, x, c), PieceNodes(a, n, b, x, c))
  }

  lemma NobodyHolds(a: Shape, n: Node, b: Shape, x: Node, c: Shape, lower: Node, upper: Node, all: set<Node>)
    requires Pieces(a, n, b, x, c) && ((lower == n && upper == x) || (lower == x && upper == n))
    requires lower in all && upper in all && upper.parent == lower
    requires !lower.Holds(upper) && !upper.Holds(upper)
    requires Avoids(all - PieceNodes(a, n, b, x, c), {upper})
    ensures Ranked(map[upper := 0], all)
  {
    LinkedAvoids(a, {upper});
    LinkedAvoids(b, {upper});
    LinkedAvoids(c, {upper});
  }

  /**
   * The parent link that the repairs of `t` leave on their result `r`: a rotation leaves it on the node that went
   * down, which is now a child of `r`; without one it is as `before`.
   */
  ghost predicate LeavesParent(t: T.Tree, r: Node, before: Node?)
    requires t.Node?
    reads r`parent, r`leftNode, r`rightNode
  {
    var a := T.LeanLeft(t);
    r.parent == if T.IsRed(a.left) && T.IsRed(a.left.left) then r.rightNode
                else if T.IsRed(t.right) then r.leftNode else before
  }

  lemma AbsOfPieces(a: Shape, n: Node, b: Shape, x: Node, c: Shape)
    ensures Abs(Bin(a, n, Bin(b, x, c))) ==
      T.Node(n.color, Abs(a), n.value, T.Node(x.color, Abs(b), x.value, Abs(c)))
    ensures Abs(Bin(Bin(a, n, b), x, c)) ==
      T.Node(x.color, T.Node(n.color, Abs(a), n.value, Abs(b)), x.value, Abs(c))
  {
  }

  lemma AllExactPart(all: set<Node>, part: set<Node>)
    requires AllExact(all) && part <= all
    ensures AllExact(part)
  {
  }

  class RBTree {
    var root: Node?
    ghost var shape: Shape
    ghost var removed: set<Node>

    static method LeftRotation(node: Node, ghost s: Shape, ghost holder: Node?, ghost depth: map<Node, nat>,
                               ghost all: set<Node>)
      returns (x: Node)
      requires Rotatable(s, holder, depth, all) && s.right.Bin? && node == s.node && AllExact(all)
      modifies s.Nodes()`leftNode, s.Nodes()`rightNode, s.Nodes()`parent, all`childsNumber
      modifies s.node`color, s.right.node`color
      ensures x == s.right.node && x.parent == node
      ensures x.color == old(node.color) && node.color == T.RED
      ensures RotatedLeft(s).Nodes() == s.Nodes()
      ensures Abs(s.left) == old(Abs(s.left))
      ensures Abs(s.right.left) == old(Abs(s.right.left)) && Abs(s.right.right) == old(Abs(s.right.right))
      ensures AllExact(all - {holder})
      ensures Rotatable(RotatedLeft(s), holder, map[x := 0], all - {holder})
    {
      ghost var a, b, c := s.left, s.right.left, s.right.right;
      assert {node, s.right.node} !! a.Nodes() && {node, s.right.node} !! b.Nodes()
             && {node, s.right.node} !! c.Nodes() by {
        PiecesOfRightHeavy(a, node, b, s.right.node, c);
      }
      x := RelinkLeft(node, s, holder, depth, all);
      PassColor(node, x);
    }

    /** First repair: a red right child comes up. */
    static method LeanLeft(node: Node, ghost s: Shape, ghost holder: Node?, ghost depth: map<Node, nat>,
                           ghost all: set<Node>)
      returns (r: Node, ghost s': Shape, ghost depth': map<Node, nat>, ghost all': set<Node>)
      requires Rotatable(s, holder, depth, all) && node == s.node && AllExact(all)
      modifies s.Nodes()`leftNode, s.Nodes()`rightNode, s.Nodes()`parent, s.Nodes()`color, all`childsNumber
      ensures s'.Bin? && r == s'.node && s'.Nodes() == s.Nodes()
      ensures Abs(s') == T.LeanLeft(old(Abs(s)))
      ensures all - {holder} <= all' <= all
      ensures AllExact(all') && Rotatable(s', holder, depth', all')
      ensures r.parent == if T.IsRed(old(Abs(s)).right) then r.leftNode else old(node.parent)
    {
      r, s', depth', all' := node, s, depth, all;
      if node.rightNode != null && node.rightNode.color == T.RED {
        ghost var a, b, x, c := s.left, s.right.left, s.right.node, s.right.right;
        AbsOfPieces(a, node, b, x, c);
        r := LeftRotation(node, s, holder, depth, all);
        s', depth', all' := RotatedLeft(s), map[r := 0], all - {holder};
        AbsOfPieces(a, node, b, x, c);
      }
    }

    /** The link changes of a left rotation. */
    static method RelinkLeft(node: Node, ghost s: Shape, ghost holder: Node?, ghost depth: map<Node, nat>,
                             ghost all: set<Node>)
      returns (x: Node)
      requires Rotatable(s, holder, depth, all) && s.right.Bin? && node == s.node && AllExact(all)
      modifies s.Nodes()`leftNode, s.Nodes()`rightNode, s.Nodes()`parent, all`childsNumber
      ensures x == s.right.node && x.parent == node
      ensures RotatedLeft(s).Nodes() == s.Nodes()
      ensures AllExact(all - {holder})
      ensures Rotatable(RotatedLeft(s), holder, map[x := 0], all - {holder})
    {
      x := node.rightNode;
      ghost var a, b, c := s.left, s.right.left, s.right.right;
      PiecesOfRightHeavy(a, node, b, x, c);
      LowerLeft(node, s, holder, depth, all);
      NobodyHolds(a, node, b, x, c, node, x, all - {holder});
      RaiseRight(node, x, a, b, c, all - {holder});
      PiecesOfLeftHeavy(a, node, b, x, c);
    }

    /** The right child's left subtree moves over, which leaves the right child held by nobody. */
    static method LowerLeft(node: Node, ghost s: Shape, ghost holder: Node?, ghost depth: map<Node, nat>,
                            ghost all: set<Node>)
      requires Rotatable(s, holder, depth, all) && s.right.Bin? && node == s.node && AllExact(all)
      modifies s.Nodes()`rightNode, s.Nodes()`parent, all`childsNumber
      ensures AllExact(all)
      ensures Loose(s.left, node, s.right.left, s.right.node, s.right.right, node, s.right.node, all - {holder})
      ensures node.leftNode == s.left.Root() && node.rightNode == s.right.left.Root()
      ensures s.right.node.rightNode == s.right.right.Root()
      ensures ParentOf(node, s.left) && ParentOf(node, s.right.left) && ParentOf(s.right.node, s.right.right)
    {
      ghost var x, a, b, c := s.right.node, s.left, s.right.left, s.right.right;
      PiecesOfRightHeavy(a, node, b, x, c);
      SetRightAmong(node, node.rightNode.leftNode, a, node, b, x, c, depth, all);
    }

    /** A new right child, seen from the pieces of a rotation. */
    static method SetRightAmong(node: Node, child: Node?, ghost a: Shape, ghost n: Node, ghost b: Shape, ghost x: Node,
                                ghost c: Shape, ghost depth: map<Node, nat>, ghost all: set<Node>)
      requires PieceNodes(a, n, b, x, c) <= all && Pieces(a, n, b, x, c) && node in {n, x} && child == b.Root()
      requires node in depth && (child != null ==> child !in depth)
      requires AllExact(all) && Ranked(depth, all) && NoSelfLinks(all)
      modifies node`rightNode, (if child == null then {} else {child})`parent, all`childsNumber
      ensures Pieces(a, n, b, x, c) == old(Pieces(a, n, b, x, c)) && AllExact(all)
      ensures node.rightNode == child && ParentOf(node, b)
    {
      assert AllExact(all - {node});
      node.SetRight(child, depth, all);
    }

    static method RaiseRight(node: Node, x: Node, ghost a: Shape, ghost b: Shape, ghost c: Shape,
                             ghost below: set<Node>)
      requires Loose(a, node, b, x, c, node, x, below) && AllExact(below) && Ranked(map[x := 0], below)
      requires node.leftNode == a.Root() && node.rightNode == b.Root() && x.rightNode == c.Root()
      requires ParentOf(node, a) && ParentOf(node, b) && ParentOf(x, c)
      modifies x`leftNode, node`parent, below`childsNumber
      ensures AllExact(below) && x.leftNode == node && node.parent == x
      ensures Pieces(a, node, b, x, c) && NoSelfLinks(below) && Ranked(map[x := 0], below)
      ensures Avoids(below - PieceNodes(a, node, b, x, c), PieceNodes(a, node, b, x, c))
    {
      x.SetLeft(node, map[x := 0], below);
      assert Pieces(a, node, b, x, c);
      assert Avoids(below - PieceNodes(a, node, b, x, c), PieceNodes(a, node, b, x, c));
      NobodyHolds(a, node, b, x, c, node, x, below);
    }

    static method RightRotation(node: Node, ghost s: Shape, ghost holder: Node?, ghost depth: map<Node, nat>,
                                ghost all: set<Node>)
      returns (x: Node)
      requires Rotatable(s, holder, depth, all) && s.left.Bin? && node == s.node && AllExact(all)
      modifies s.Nodes()`leftNode, s.Nodes()`rightNode, s.Nodes()`parent, all`childsNumber
      modifies s.node`color, s.left.node`color
      ensures x == s.left.node && x.parent == node
      ensures x.color == old(node.color) && node.color == T.RED
      ensures RotatedRight(s).Nodes() == s.Nodes()
      ensures Abs(s.right) == old(Abs(s.right))
      ensures Abs(s.left.left) == old(Abs(s.left.left)) && Abs(s.left.right) == old(Abs(s.left.right))
      ensures AllExact(all - {holder})
      ensures Rotatable(RotatedRight(s), holder, map[x := 0], all - {holder})
    {
      ghost var a, b, c := s.left.left, s.left.right, s.right;
      assert {node, s.left.node} !! a.Nodes() && {node, s.left.node} !! b.Nodes()
             && {node, s.left.node} !! c.Nodes() by {
        PiecesOfLeftHeavy(a, s.left.node, b, node, c);
      }
      x := RelinkRight(node, s, holder, depth, all);
      PassColor(node, x);
    }

    /** The link changes of a right rotation. */
    static method RelinkRight(node: Node, ghost s: Shape, ghost holder: Node?, ghost depth: map<Node, nat>,
                              ghost all: set<Node>)
      returns (x: Node)
      requires Rotatable(s, holder, depth, all) && s.left.Bin? && node == s.node && AllExact(all)
      modifies s.Nodes()`leftNode, s.Nodes()`rightNode, s.Nodes()`parent, all`childsNumber
      ensures x == s.left.node && x.parent == node
      ensures RotatedRight(s).Nodes() == s.Nodes()
      ensures AllExact(all - {holder})
      ensures Rotatable(RotatedRight(s), holder, map[x := 0], all - {holder})
    {
      x := node.leftNode;
      ghost var a, b, c := s.left.left, s.left.right, s.right;
      PiecesOfLeftHeavy(a, x, b, node, c);
      LowerRight(node, s, holder, depth, all);
      NobodyHolds(a, x, b, node, c, node, x, all - {holder});
      RaiseLeft(node, x, a, b, c, all - {holder});
      PiecesOfRightHeavy(a, x, b, node, c);
    }

    /** The left child's right subtree moves over, which leaves the left child held by nobody. */
    static method LowerRight(node: Node, ghost s: Shape, ghost holder: Node?, ghost depth: map<Node, nat>,
                             ghost all: set<Node>)
      requires Rotatable(s, holder, depth, all) && s.left.Bin? && node == s.node && AllExact(all)
      modifies s.Nodes()`leftNode, s.Nodes()`parent, all`childsNumber
      ensures AllExact(all)
      ensures Loose(s.left.left, s.left.node, s.left.right, node, s.right, node, s.left.node, all - {holder})
      ensures node.rightNode == s.right.Root() && node.leftNode == s.left.right.Root()
      ensures s.left.node.leftNode == s.left.left.Root()
      ensures ParentOf(node, s.right) && ParentOf(node, s.left.right) && ParentOf(s.left.node, s.left.left)
    {
      ghost var x, a, b, c := s.left.node, s.left.left, s.left.right, s.right;
      PiecesOfLeftHeavy(a, x, b, node, c);
      SetLeftAmong(node, node.leftNode.rightNode, a, x, b, node, c, depth, all);
    }

    /** A new left child, seen from the pieces of a rotation. */
    static method SetLeftAmong(node: Node, child: Node?, ghost a: Shape, ghost n: Node, ghost b: Shape, ghost x: Node,
                               ghost c: Shape, ghost depth: map<Node, nat>, ghost all: set<Node>)
      requires PieceNodes(a, n, b, x, c) <= all && Pieces(a, n, b, x, c) && node in {n, x} && child == b.Root()
      requires node in depth && (child != null ==> child !in depth)
      requires AllExact(all) && Ranked(depth, all) && NoSelfLinks(all)
      modifies node`leftNode, (if child == null then {} else {child})`parent, all`childsNumber
      ensures Pieces(a, n, b, x, c) == old(Pieces(a, n, b, x, c)) && AllExact(all)
      ensures node.leftNode == child && ParentOf(node, b)
    {
      assert AllExact(all - {node});
      node.SetLeft(child, depth, all);
    }

    static method RaiseLeft(node: Node, x: Node, ghost a: Shape, ghost b: Shape, ghost c: Shape, ghost below: set<Node>)
      requires Loose(a, x, b, node, c, node, x, below) && AllExact(below) && Ranked(map[x := 0], below)
      requires node.rightNode == c.Root() && node.leftNode == b.Root() && x.leftNode == a.Root()
      requires ParentOf(node, c) && ParentOf(node, b) && ParentOf(x, a)
      modifies x`rightNode, node`parent, below`childsNumber
      ensures AllExact(below) && x.rightNode == node && node.parent == x
      ensures Pieces(a, x, b, node, c) && NoSelfLinks(below) && Ranked(map[x := 0], below)
      ensures Avoids(below - PieceNodes(a, x, b, node, c), PieceNodes(a, x, b, node, c))
    {
      x.SetRight(node, map[x := 0], below);
      assert Pieces(a, x, b, node, c);
      assert Avoids(below - PieceNodes(a, x, b, node, c), PieceNodes(a, x, b, node, c));
      NobodyHolds(a, x, b, node, c, node, x, below);
    }

    /** Second repair: of two reds in a row on the left the upper one comes up. */
    static method LiftReds(node: Node, ghost s: Shape, ghost holder: Node?, ghost depth: map<Node, nat>,
                           ghost all: set<Node>)
      returns (r: Node, ghost s': Shape)
      requires Rotatable(s, holder, depth, all) && node == s.node && AllExact(all)
      modifies s.Nodes()`leftNode, s.Nodes()`rightNode, s.Nodes()`parent, s.Nodes()`color, all`childsNumber
      ensures s'.Bin? && r == s'.node && s'.Nodes() == s.Nodes() && Linked(s')
      ensures Abs(s') == T.LiftReds(old(Abs(s)))
      ensures AllExact(all - {holder})
      ensures var t := old(Abs(s));
        if T.IsRed(t.left) && T.IsRed(t.left.left) then r.parent == r.rightNode
        else r.parent == old(node.parent) && r.leftNode == old(node.leftNode)
    {
      r, s' := node, s;
      assert T.IsRed(Abs(s.left)) <==> node.leftNode != null && node.leftNode.color == T.RED;
      assert Linked(s.left);
      assert s.left.Bin? ==> node.leftNode.leftNode == s.left.left.Root();
      assert s.left.Bin? ==> (T.IsRed(Abs(s.left.left)) <==>
        node.leftNode.leftNode != null && node.leftNode.leftNode.color == T.RED);
      if node.leftNode != null && node.leftNode.color == T.RED
         && node.leftNode.leftNode != null && node.leftNode.leftNode.color == T.RED {
        ghost var a, x, b, c := s.left.left, s.left.node, s.left.right, s.right;
        AbsOfPieces(a, x, b, node, c);
        r := RightRotation(node, s, holder, depth, all);
        s' := RotatedRight(s);
        AbsOfPieces(a, x, b, node, c);
      }
    }

    /** The node that comes up takes the colour of the one that goes down, which becomes red. */
    static method PassColor(node: Node, x: Node)
      requires x != node
      modifies node`color, x`color
      ensures x.color == old(node.color) && node.color == T.RED
    {
      x.color := node.color;
      node.color := T.RED;
    }

    /** Third repair: two red children pass their colour up. */
    static method Split(node: Node, ghost s: Shape)
      requires s.Bin? && Linked(s) && node == s.node
      modifies s.Nodes()`color
      ensures Linked(s) && Abs(s) == T.Split(old(Abs(s)))
    {
      if node.leftNode != null && node.leftNode.color == T.RED
         && node.rightNode != null && node.rightNode.color == T.RED {
        FlipColors(node, s);
      }
    }

    static method FlipColors(node: Node, ghost s: Shape)
      requires s.Bin? && Linked(s) && node == s.node && s.left.Bin? && s.right.Bin?
      modifies node`color, s.left.node`color, s.right.node`color
      ensures Linked(s) && Abs(s) == T.FlipColors(old(Abs(s)))
    {
      node.color := T.Opposite(node.color);
      node.leftNode.color := T.Opposite(node.leftNode.color);
      node.rightNode.color := T.Opposite(node.rightNode.color);
    }

    /** Returns the new root of the subtree; its holder, if any, has yet to link to it. */
    static method RecursiveInsertion(node: Node?, value: ScoreIndex, ghost s: Shape, ghost c: Context,
                                     ghost removed: set<Node>, ghost all: set<Node>)
      returns (r: Node, ghost s': Shape)
      requires Whole(s, c, removed) && node == s.Root() && all == All(s, c, removed) && AllExact(all)
      modifies s.Nodes(), (all - s.Nodes())`childsNumber
      ensures s'.Bin? && r == s'.node && Linked(s')
      ensures s.Nodes() <= s'.Nodes() && fresh(s'.Nodes() - s.Nodes())
      ensures Abs(s') == T.InsertBelow(old(Abs(s)), value)
      ensures AllExact(all + s'.Nodes() - {c.Holder()})
      ensures r.parent != null ==> r.parent in all + s'.Nodes()
      ensures if node == null then r.parent == null
              else LeavesParent(T.Descend(old(Abs(s)), value), r, old(node.parent))
      decreases s, 3
    {
      if node == null {
        r := new Node(value);
        s' := Bin(Nil, r, Nil);
        return;
      }
      ghost var s2, all2 := Descend(node, value, s, c, removed, all);
      WholeIsRanked(s2, c, removed);
      r, s' := Repair(node, s2, c.Holder(), Depths(node, c), all2);
    }

    /** The three repairs on the way back up, in the order of the source. */
    static method Repair(node: Node, ghost s: Shape, ghost holder: Node?, ghost depth: map<Node, nat>,
                         ghost all: set<Node>)
      returns (r: Node, ghost s': Shape)
      requires Rotatable(s, holder, depth, all) && node == s.node && AllExact(all)
      modifies s.Nodes()`leftNode, s.Nodes()`rightNode, s.Nodes()`parent, s.Nodes()`color, all`childsNumber
      ensures s'.Bin? && r == s'.node && s'.Nodes() == s.Nodes() && Linked(s')
      ensures Abs(s') == T.Repair(old(Abs(s)))
      ensures AllExact(all - {holder})
      ensures LeavesParent(old(Abs(s)), r, old(node.parent))
    {
      ghost var s1, depth1, all1;
      r, s1, depth1, all1 := LeanLeft(node, s, holder, depth, all);
      r, s' := LiftReds(r, s1, holder, depth1, all1);
      Split(r, s');
      AllExactPart(all1 - {holder}, all - {holder});
    }

    /** Inserts into the child that the value belongs to and links the result. */
    static method Descend(node: Node, value: ScoreIndex, ghost s: Shape, ghost c: Context, ghost removed: set<Node>,
                          ghost all: set<Node>)
      returns (ghost s': Shape, ghost all': set<Node>)
      requires Whole(s, c, removed) && node == s.Root() && all == All(s, c, removed) && AllExact(all)
      modifies s.Nodes(), (all - s.Nodes())`childsNumber
      ensures s'.Bin? && s'.node == node && node.parent == old(node.parent)
      ensures s.Nodes() <= s'.Nodes() && fresh(s'.Nodes() - s.Nodes())
      ensures Abs(s') == T.Descend(old(Abs(s)), value)
      ensures all' == All(s', c, removed) && AllExact(all') && Whole(s', c, removed)
      decreases s, 2
    {
      s', all' := s, all;
      if Less(node.value, value) {
        s', all' := DescendRight(node, value, s, c, removed, all);
      } else if Less(value, node.value) {
        s', all' := DescendLeft(node, value, s, c, removed, all);
      }
      Refresh(node, s', c, removed, all');
    }

    static method Refresh(node: Node, ghost s: Shape, ghost c: Context, ghost removed: set<Node>, ghost all: set<Node>)
      requires Whole(s, c, removed) && s.Bin? && s.node == node && all == All(s, c, removed) && AllExact(all)
      modifies all`childsNumber
      ensures Whole(s, c, removed) && AllExact(all) && Abs(s) == old(Abs(s))
    {
      WholeIsRanked(s, c, removed);
      node.RefreshChild(Depths(node, c), all);
    }

    static method DescendRight(node: Node, value: ScoreIndex, ghost s: Shape, ghost c: Context,
                               ghost removed: set<Node>,
                               ghost all: set<Node>)
      returns (ghost s': Shape, ghost all': set<Node>)
      requires Whole(s, c, removed) && node == s.Root() && all == All(s, c, removed) && AllExact(all)
      modifies s.Nodes(), (all - s.Nodes())`childsNumber
      ensures s'.Bin? && s'.node == node && s'.left == s.left && node.parent == old(node.parent)
      ensures s.Nodes() <= s'.Nodes() && fresh(s'.Nodes() - s.Nodes())
      ensures node.color == old(node.color) && node.value == old(node.value)
      ensures Abs(s.left) == old(Abs(s.left)) && Abs(s'.right) == T.InsertBelow(old(Abs(s.right)), value)
      ensures all' == All(s', c, removed) && AllExact(all') && Whole(s', c, removed)
      decreases s, 1
    {
      var r;
      ghost var s1;
      r, s1, all' := GrowRight(node, value, s, c, removed, all);
      s' := Bin(s.left, node, s1);
      AttachRight(node, r, s', c, removed, all');
    }

    /** Insertion below `holder`, seen from its other subtree and from what is above it. */
    static method InsertBeside(holder: Node, node: Node?, value: ScoreIndex, ghost s: Shape, ghost inner: Context,
                               ghost other: Shape, ghost c: Context, ghost removed: set<Node>, ghost all: set<Node>)
      returns (r: Node, ghost s1: Shape)
      requires Whole(s, inner, removed) && node == s.Root() && all == All(s, inner, removed) && AllExact(all)
      requires !inner.Top? && inner.node == holder && inner.Sibling() == other && inner.up == c
      modifies s.Nodes(), (all - s.Nodes())`childsNumber
      ensures s1.Bin? && r == s1.node && Linked(s1)
      ensures s.Nodes() <= s1.Nodes() && fresh(s1.Nodes() - s.Nodes())
      ensures Abs(s1) == T.InsertBelow(old(Abs(s)), value) && AllExact(all + s1.Nodes() - {holder})
      ensures Linked(other) == old(Linked(other)) && Surrounds(c, holder) == old(Surrounds(c, holder))
      ensures Abs(other) == old(Abs(other))
      decreases s, 4
    {
      r, s1 := RecursiveInsertion(node, value, s, inner, removed, all);
    }

    static method GrowRight(node: Node, value: ScoreIndex, ghost s: Shape, ghost c: Context, ghost removed: set<Node>,
                            ghost all: set<Node>)
      returns (r: Node, ghost s1: Shape, ghost all': set<Node>)
      requires Whole(s, c, removed) && node == s.Root() && all == All(s, c, removed) && AllExact(all)
      modifies s.right.Nodes(), (all - s.right.Nodes())`childsNumber
      ensures s1.Bin? && r == s1.node
      ensures s.right.Nodes() <= s1.Nodes() && fresh(s1.Nodes() - s.right.Nodes())
      ensures Abs(s.left) == old(Abs(s.left)) && Abs(s1) == T.InsertBelow(old(Abs(s.right)), value)
      ensures Parts(s.left, node, s1, c, removed, all') && AllExact(all' - {node})
      ensures node.leftNode == s.left.Root() && ParentOf(node, s.left)
      ensures node.rightNode != null ==> node.rightNode in s1.Nodes()
      decreases s, 0
    {
      WholeDownRight(s, c, removed);
      r, s1 := InsertBeside(node, node.rightNode, value, s.right, UnderRight(s.left, node, c), s.left, c, removed, all);
      all' := all + s1.Nodes();
    }

    static method DescendLeft(node: Node, value: ScoreIndex, ghost s: Shape, ghost c: Context, ghost removed: set<Node>,
                               ghost all: set<Node>)
      returns (ghost s': Shape, ghost all': set<Node>)
      requires Whole(s, c, removed) && node == s.Root() && all == All(s, c, removed) && AllExact(all)
      modifies s.Nodes(), (all - s.Nodes())`childsNumber
      ensures s'.Bin? && s'.node == node && s'.right == s.right && node.parent == old(node.parent)
      ensures s.Nodes() <= s'.Nodes() && fresh(s'.Nodes() - s.Nodes())
      ensures node.color == old(node.color) && node.value == old(node.value)
      ensures Abs(s.right) == old(Abs(s.right)) && Abs(s'.left) == T.InsertBelow(old(Abs(s.left)), value)
      ensures all' == All(s', c, removed) && AllExact(all') && Whole(s', c, removed)
      decreases s, 1
    {
      var r;
      ghost var s1;
      r, s1, all' := GrowLeft(node, value, s, c, removed, all);
      s' := Bin(s1, node, s.right);
      AttachLeft(node, r, s', c, removed, all');
    }

    static method GrowLeft(node: Node, value: ScoreIndex, ghost s: Shape, ghost c: Context, ghost removed: set<Node>,
                            ghost all: set<Node>)
      returns (r: Node, ghost s1: Shape, ghost all': set<Node>)
      requires Whole(s, c, removed) && node == s.Root() && all == All(s, c, removed) && AllExact(all)
      modifies s.left.Nodes(), (all - s.left.Nodes())`childsNumber
      ensures s1.Bin? && r == s1.node
      ensures s.left.Nodes() <= s1.Nodes() && fresh(s1.Nodes() - s.left.Nodes())
      ensures Abs(s.right) == old(Abs(s.right)) && Abs(s1) == T.InsertBelow(old(Abs(s.left)), value)
      ensures Parts(s1, node, s.right, c, removed, all') && AllExact(all' - {node})
      ensures node.rightNode == s.right.Root() && ParentOf(node, s.right)
      ensures node.leftNode != null ==> node.leftNode in s1.Nodes()
      decreases s, 0
    {
      WholeDownLeft(s, c, removed);
      r, s1 := InsertBeside(node, node.leftNode, value, s.left, UnderLeft(node, s.right, c), s.right, c, removed, all);
      all' := all + s1.Nodes();
    }

    static method LinkRight(node: Node, r: Node, ghost left: Shape, ghost right: Shape, ghost c: Context,
                            ghost depth: map<Node, nat>, ghost all: set<Node>)
      requires Linked(left) && Linked(right) && Surrounds(c, node) && r == right.Root() && r !in depth && node in depth
      requires left.Nodes() + right.Nodes() + c.Nodes() <= all
      requires node !in left.Nodes() + right.Nodes() + c.Nodes() && r !in left.Nodes() + c.Nodes() && r in all
      requires ParentOf(node, left) && AllExact(all - {node}) && Ranked(depth, all) && NoSelfLinks(all)
      modifies node`rightNode, r`parent, all`childsNumber
      ensures Linked(left) == old(Linked(left)) && Linked(right) == old(Linked(right))
      ensures Surrounds(c, node) == old(Surrounds(c, node)) && AllExact(all)
      ensures node.rightNode == r && r.parent == node && ParentOf(node, left)
    {
      SetRightBeside(node, r, left, right, depth, all);
    }

    /** A new child, seen from the two subtrees. */
    static method SetRightBeside(node: Node, r: Node, ghost left: Shape, ghost right: Shape, ghost depth: map<Node,
                                 nat>,
                                 ghost all: set<Node>)
      requires left.Nodes() + right.Nodes() <= all && node !in left.Nodes() + right.Nodes() && r == right.Root()
      requires r !in left.Nodes()
      requires r in all && r !in depth && node in depth && AllExact(all - {node}) && Ranked(depth, all)
      requires NoSelfLinks(all)
      modifies node`rightNode, r`parent, all`childsNumber
      ensures Linked(left) == old(Linked(left)) && Linked(right) == old(Linked(right))
      ensures AllExact(all) && node.rightNode == r && r.parent == node
    {
      node.SetRight(r, depth, all);
    }

    static method LinkLeft(node: Node, r: Node, ghost left: Shape, ghost right: Shape, ghost c: Context,
                            ghost depth: map<Node, nat>, ghost all: set<Node>)
      requires Linked(left) && Linked(right) && Surrounds(c, node) && r == left.Root() && r !in depth && node in depth
      requires left.Nodes() + right.Nodes() + c.Nodes() <= all
      requires node !in left.Nodes() + right.Nodes() + c.Nodes() && r !in right.Nodes() + c.Nodes() && r in all
      requires ParentOf(node, right) && AllExact(all - {node}) && Ranked(depth, all) && NoSelfLinks(all)
      modifies node`leftNode, r`parent, all`childsNumber
      ensures Linked(left) == old(Linked(left)) && Linked(right) == old(Linked(right))
      ensures Surrounds(c, node) == old(Surrounds(c, node)) && AllExact(all)
      ensures node.leftNode == r && r.parent == node && ParentOf(node, right)
    {
      SetLeftBeside(node, r, left, right, depth, all);
    }

    /** A new child, seen from the two subtrees. */
    static method SetLeftBeside(node: Node, r: Node, ghost left: Shape, ghost right: Shape, ghost depth: map<Node, nat>,
                                 ghost all: set<Node>)
      requires left.Nodes() + right.Nodes() <= all && node !in left.Nodes() + right.Nodes() && r == left.Root()
      requires r !in right.Nodes()
      requires r in all && r !in depth && node in depth && AllExact(all - {node}) && Ranked(depth, all)
      requires NoSelfLinks(all)
      modifies node`leftNode, r`parent, all`childsNumber
      ensures Linked(left) == old(Linked(left)) && Linked(right) == old(Linked(right))
      ensures AllExact(all) && node.leftNode == r && r.parent == node
    {
      node.SetLeft(r, depth, all);
    }

    static method AttachRight(node: Node, r: Node, ghost s: Shape, ghost c: Context, ghost removed: set<Node>,
                              ghost all: set<Node>)
      requires s.Bin? && s.node == node && Parts(s.left, node, s.right, c, removed, all)
      requires r == s.right.Root() && AllExact(all - {node})
      requires node.leftNode == s.left.Root() && ParentOf(node, s.left)
      requires node.rightNode != null ==> node.rightNode in s.right.Nodes()
      modifies node`rightNode, r`parent, all`childsNumber
      ensures Whole(s, c, removed) && AllExact(all) && node.parent == old(node.parent)
      ensures Abs(s) == old(Abs(s))
    {
      AttachRightLinks(node, r, s, c, removed, all);
    }

    static method AttachRightLinks(node: Node, r: Node, ghost s: Shape, ghost c: Context, ghost removed: set<Node>,
                                   ghost all: set<Node>)
      requires s.Bin? && s.node == node && Parts(s.left, node, s.right, c, removed, all)
      requires r == s.right.Root() && AllExact(all - {node})
      requires node.leftNode == s.left.Root() && ParentOf(node, s.left)
      requires node.rightNode != null ==> node.rightNode in s.right.Nodes()
      modifies node`rightNode, r`parent, all`childsNumber
      ensures Whole(s, c, removed) && AllExact(all) && node.parent == old(node.parent)
    {
      PartsAreRanked(s.left, node, s.right, c, removed, all);
      LinkRight(node, r, s.left, s.right, c, Depths(node, c), all);
      PartsMakeWhole(s.left, node, s.right, c, removed);
    }

    static method AttachLeft(node: Node, r: Node, ghost s: Shape, ghost c: Context, ghost removed: set<Node>,
                              ghost all: set<Node>)
      requires s.Bin? && s.node == node && Parts(s.left, node, s.right, c, removed, all)
      requires r == s.left.Root() && AllExact(all - {node})
      requires node.rightNode == s.right.Root() && ParentOf(node, s.right)
      requires node.leftNode != null ==> node.leftNode in s.left.Nodes()
      modifies node`leftNode, r`parent, all`childsNumber
      ensures Whole(s, c, removed) && AllExact(all) && node.parent == old(node.parent)
      ensures Abs(s) == old(Abs(s))
    {
      AttachLeftLinks(node, r, s, c, removed, all);
    }

    static method AttachLeftLinks(node: Node, r: Node, ghost s: Shape, ghost c: Context, ghost removed: set<Node>,
                                   ghost all: set<Node>)
      requires s.Bin? && s.node == node && Parts(s.left, node, s.right, c, removed, all)
      requires r == s.left.Root() && AllExact(all - {node})
      requires node.rightNode == s.right.Root() && ParentOf(node, s.right)
      requires node.leftNode != null ==> node.leftNode in s.left.Nodes()
      modifies node`leftNode, r`parent, all`childsNumber
      ensures Whole(s, c, removed) && AllExact(all) && node.parent == old(node.parent)
    {
      PartsAreRanked(s.left, node, s.right, c, removed, all);
      LinkLeft(node, r, s.left, s.right, c, Depths(node, c), all);
      PartsMakeWhole(s.left, node, s.right, c, removed);
    }

    // ---- The tree as a whole

    ghost predicate Valid()
      reads this, shape.Nodes(), removed
    {
      root == shape.Root() && Sound(shape, removed)
    }

    static ghost predicate Sound(s: Shape, removed: set<Node>)
      reads s.Nodes(), removed
    {
      && Whole(s, Top, removed) && Counted(s) && (forall m <- removed :: m.childsNumber == 1)
      && T.Valid(Abs(s)) && Homing(s.Nodes() + removed, removed)
    }

    ghost function Tree(): T.Tree
      reads this, shape.Nodes()
    {
      Abs(shape)
    }

    /** The keys in leaderboard order. */
    ghost function Keys(): seq<ScoreIndex>
      reads this, shape.Nodes()
    {
      T.InOrder(Abs(shape))
    }

    constructor ()
      ensures Valid() && Keys() == [] && T.Balanced(Tree()) && shape == Nil && removed == {}
    {
      root, shape, removed := null, Nil, {};
    }

    method Insert(value: ScoreIndex)
      requires Valid()
      modifies this, shape.Nodes(), removed
      ensures Valid() && Tree() == T.Insert(old(Tree()), value)
      ensures removed == old(removed) && fresh(shape.Nodes() - old(shape.Nodes())) && root != null
      ensures if old(root) == null then root.parent == null
              else LeavesParent(T.Descend(old(Tree()), value), root, old(root.parent))
    {
      T.InsertIsCorrect(Tree(), value);
      var r;
      ghost var s;
      r, s := InsertAtRoot(root, value, shape, removed, shape.Nodes() + removed);
      HomingInMore(old(shape.Nodes()) + removed, s.Nodes() + removed, removed);
      root, shape := r, s;
    }

    static method InsertAtRoot(root: Node?, value: ScoreIndex, ghost s: Shape, ghost removed: set<Node>,
                               ghost all: set<Node>)
      returns (r: Node, ghost s': Shape)
      requires Whole(s, Top, removed) && root == s.Root() && all == s.Nodes() + removed
      requires Counted(s) && forall m <- removed :: m.childsNumber == 1
      modifies all
      ensures Whole(s', Top, removed) && r == s'.Root() && s.Nodes() <= s'.Nodes() && fresh(s'.Nodes() - s.Nodes())
      ensures Counted(s') && forall m <- removed :: m.childsNumber == 1
      ensures forall m <- removed :: m.parent == old(m.parent)
      ensures Abs(s') == T.Insert(old(Abs(s)), value)
      ensures if root == null then r.parent == null
              else LeavesParent(T.Descend(old(Abs(s)), value), r, old(root.parent))
    {
      r, s' := InsertCounted(root, value, s, removed, all);
      Blacken(r, s', removed);
    }

    /** The whole insertion but for the colour of the root. */
    static method InsertCounted(root: Node?, value: ScoreIndex, ghost s: Shape, ghost removed: set<Node>,
                                ghost all: set<Node>)
      returns (r: Node, ghost s': Shape)
      requires Whole(s, Top, removed) && root == s.Root() && all == s.Nodes() + removed
      requires Counted(s) && forall m <- removed :: m.childsNumber == 1
      modifies s.Nodes(), (all - s.Nodes())`childsNumber
      ensures Whole(s', Top, removed) && r == s'.Root() && s.Nodes() <= s'.Nodes() && fresh(s'.Nodes() - s.Nodes())
      ensures Counted(s') && forall m <- removed :: m.childsNumber == 1
      ensures Abs(s') == T.InsertBelow(old(Abs(s)), value)
      ensures if root == null then r.parent == null
              else LeavesParent(T.Descend(old(Abs(s)), value), r, old(root.parent))
    {
      CountedIsLocallyExact(s);
      r, s' := RecursiveInsertion(root, value, s, Top, removed, all);
      CountedWhenExact(s', removed);
    }

    static lemma CountedWhenExact(s: Shape, removed: set<Node>)
      requires Linked(s) && AllExact(s.Nodes() + removed)
      requires forall m <- removed :: m.leftNode == null && m.rightNode == null
      ensures Counted(s) && forall m <- removed :: m.childsNumber == 1
    {
      LocallyExactIsCounted(s);
      assert forall m <- removed :: m.Exact();
    }

    static method Blacken(r: Node, ghost s: Shape, ghost removed: set<Node>)
      requires Whole(s, Top, removed) && r == s.Root() && Counted(s)
      modifies r`color
      ensures Whole(s, Top, removed) && Counted(s) && r.parent == old(r.parent)
      ensures old(Abs(s)).Node? && Abs(s) == old(Abs(s)).(color := T.BLACK)
      ensures forall m <- removed :: m.childsNumber == old(m.childsNumber)
    {
      r.color := T.BLACK;
    }

    // ---- Rank and position

    function Size(): (n: int)
      requires Valid()
      reads this, shape.Nodes(), removed
      ensures n == |Keys()|
    {
      WalkMatchesTree(shape);
      if root == null then 0 else root.childsNumber
    }

    function ByIndex(index: int): (res: Node?)
      requires Valid()
      reads this, shape.Nodes(), removed
      ensures res == if 0 <= index < |shape.Walk()| then shape.Walk()[index] else null
      ensures res != null <==> 0 <= index < |Keys()|
      ensures res != null ==> res in shape.Nodes() && res.value == Keys()[index]
    {
      WalkMatchesTree(shape);
      if root == null then null else ByIndexBelow(index, root, shape)
    }

    static function ByIndexBelow(index: int, n: Node, ghost s: Shape): (res: Node?)
      requires Linked(s) && n == s.Root() && Counted(s)
      reads s.Nodes()
      ensures res == if 0 <= index < |s.Walk()| then s.Walk()[index] else null
      decreases s
    {
      var before := if n.leftNode != null then n.leftNode.childsNumber else 0;
      CountedRoot(s.left);
      if n.leftNode != null && index < before then ByIndexBelow(index, n.leftNode, s.left)
      else if index - before == 0 then n
      else if n.rightNode != null then ByIndexBelow(index - before - 1, n.rightNode, s.right)
      else null
    }

    /** The node of a key and its rank; without such a node null, and `rank` plus the number of smaller keys. */
    function Search(value: ScoreIndex, rank: int): (r: (Node?, int))
      requires Valid()
      reads this, shape.Nodes(), removed
      ensures r.0 != null <==> value in Keys()
      ensures if r.0 != null then r.1 == Rank(Keys(), value) && r.0 == ByIndex(r.1) && r.0.value == value
              else r.1 == rank + Rank(Keys(), value)
    {
      WalkMatchesTree(shape);
      RecursiveSearch(root, value, rank, shape)
    }

    static function RecursiveSearch(node: Node?, value: ScoreIndex, rank: int, ghost s: Shape): (r: (Node?, int))
      requires Linked(s) && node == s.Root() && Counted(s) && Sorted(T.InOrder(Abs(s)))
      reads s.Nodes()
      ensures r.0 != null <==> value in T.InOrder(Abs(s))
      ensures r.0 != null ==>
        r.1 == Rank(T.InOrder(Abs(s)), value) < |s.Walk()| && r.0 == s.Walk()[r.1] && r.0.value == value
      ensures r.0 == null ==> r.1 == rank + Rank(T.InOrder(Abs(s)), value)
      decreases s
    {
      if node == null then (null, rank)
      else
        SortedPart(T.InOrder(Abs(s.left)), node.value, T.InOrder(Abs(s.right)));
        RankAround(T.InOrder(Abs(s.left)), node.value, T.InOrder(Abs(s.right)), value);
        WalkMatchesTree(s.left);
        var before := if node.leftNode != null then node.leftNode.childsNumber else 0;
        CountedRoot(s.left);
        if Less(value, node.value) then RecursiveSearch(node.leftNode, value, rank, s.left)
        else if Less(node.value, value) then
          var (n, inRight) := RecursiveSearch(node.rightNode, value, rank, s.right);
          (n, inRight + before + 1)
        else (node, before)
    }

    // ---- Deletion

    /** The leftmost node of the right subtree. */
    static method TreeSuccessor(z: Node, ghost s: Shape) returns (y: Node)
      requires s.Bin? && Linked(s) && s.right.Bin? && z == s.node
      ensures y == s.right.Walk()[0] && T.Size(old(Abs(s.right))) > 0 && y.value == T.InOrder(old(Abs(s.right)))[0]
    {
      WalkMatchesTree(s.right);
      y := z.rightNode;
      ghost var cur := s.right;
      while y.leftNode != null
        invariant Linked(cur) && cur.Bin? && y == cur.node && cur.Walk()[0] == s.right.Walk()[0]
        decreases cur
      {
        y := y.leftNode;
        cur := cur.left;
      }
    }

    /** The rightmost node of the left subtree. */
    static method TreeMinor(z: Node, ghost s: Shape) returns (y: Node)
      requires s.Bin? && Linked(s) && s.left.Bin? && z == s.node
      ensures y == s.left.Walk()[|s.left.Walk()| - 1]
      ensures T.Size(old(Abs(s.left))) > 0 && y.value == T.InOrder(old(Abs(s.left)))[T.Size(old(Abs(s.left))) - 1]
    {
      WalkMatchesTree(s.left);
      y := z.leftNode;
      ghost var cur := s.left;
      while y.rightNode != null
        invariant Linked(cur) && cur.Bin? && y == cur.node
        invariant cur.Walk()[|cur.Walk()| - 1] == s.left.Walk()[|s.left.Walk()| - 1]
        decreases cur
      {
        y := y.rightNode;
        cur := cur.right;
      }
    }

    /** Unlinks a leaf from its parent. A lone root's left-over parent does not hold it, and nothing changes. */
    static method RemoveLeaf(z: Node, ghost c: Context, ghost removed: set<Node>, ghost all: set<Node>)
      requires Whole(Bin(Nil, z, Nil), c, removed) && all == All(Bin(Nil, z, Nil), c, removed)
      requires AllExact(all) && z.parent != null
      modifies (if c.Top? then {} else {c.node})`leftNode, (if c.Top? then {} else {c.node})`rightNode, all`childsNumber
      ensures AllExact(all)
      ensures if c.Top? then Whole(Bin(Nil, z, Nil), c, removed) else Whole(Nil, c, removed + {z})
    {
      var p := z.parent;
      Unlink(p, z, c, removed, all);
      p.RefreshChild(map[], all);
    }

    static method Unlink(p: Node, z: Node, ghost c: Context, ghost removed: set<Node>, ghost all: set<Node>)
      requires Whole(Bin(Nil, z, Nil), c, removed) && all == All(Bin(Nil, z, Nil), c, removed)
      requires AllExact(all) && z.parent == p
      modifies (if c.Top? then {} else {c.node})`leftNode, (if c.Top? then {} else {c.node})`rightNode, all`childsNumber
      ensures AllExact(all) && NoSelfLinks(all)
      ensures if c.Top? then Whole(Bin(Nil, z, Nil), c, removed) else Whole(Nil, c, removed + {z})
    {
      WholeIsRanked(Bin(Nil, z, Nil), c, removed);
      if p.leftNode == z {
        UnlinkLeft(z, c, removed, all);
      }
      if p.rightNode == z {
        UnlinkRight(z, c, removed, all);
      }
    }

    static method UnlinkLeft(z: Node, ghost c: Context, ghost removed: set<Node>, ghost all: set<Node>)
      requires Whole(Bin(Nil, z, Nil), c, removed) && !c.Top? && all == All(Bin(Nil, z, Nil), c, removed)
      requires AllExact(all) && z.parent.leftNode == z
      modifies c.node`leftNode, all`childsNumber
      ensures Whole(Nil, c, removed + {z}) && AllExact(all) && NoSelfLinks(all)
    {
      WholeUp(Bin(Nil, z, Nil), c, removed);
      WholeIsRanked(Bin(Bin(Nil, z, Nil), c.node, c.right), c.up, removed);
      z.parent.SetLeft(null, Depths(z.parent, c.up), all);
    }

    static method UnlinkRight(z: Node, ghost c: Context, ghost removed: set<Node>, ghost all: set<Node>)
      requires Whole(Bin(Nil, z, Nil), c, removed) && !c.Top? && all == All(Bin(Nil, z, Nil), c, removed)
      requires AllExact(all) && z.parent.rightNode == z
      modifies c.node`rightNode, all`childsNumber
      ensures Whole(Nil, c, removed + {z}) && AllExact(all) && NoSelfLinks(all)
    {
      WholeUp(Bin(Nil, z, Nil), c, removed);
      WholeIsRanked(Bin(c.left, c.node, Bin(Nil, z, Nil)), c.up, removed);
      z.parent.SetRight(null, Depths(z.parent, c.up), all);
    }

    /** A tree of one node. */
    static ghost predicate Alone(s: Shape, c: Context) {
      c.Top? && s.Bin? && s.left.Nil? && s.right.Nil?
    }

    /** Deletion at a node by shifting keys up and dropping a leaf; a lone root stays. */
    static method DeleteNode(z: Node, ghost s: Shape, ghost c: Context, ghost removed: set<Node>, ghost all: set<Node>)
      returns (ghost s': Shape, ghost removed': set<Node>)
      requires Whole(s, c, removed) && s.Root() == z && all == All(s, c, removed) && AllExact(all)
      requires Alone(s, c) ==> z.parent != null
      modifies s.Nodes()`value, s.Nodes()`leftNode, s.Nodes()`rightNode
      modifies (if c.Top? then {} else {c.node})`leftNode, (if c.Top? then {} else {c.node})`rightNode, all`childsNumber
      ensures Whole(s', c, removed') && All(s', c, removed') == all && AllExact(all)
      ensures s'.Nodes() <= s.Nodes() && removed <= removed'
      ensures s.left.Bin? || s.right.Bin? ==> s'.Root() == z
      ensures if Alone(s, c) then s' == s && removed' == removed && Abs(s') == old(Abs(s))
              else Abs(s') == T.DeleteRoot(old(Abs(s)))
      ensures s.left.Nil? && s.right.Nil? && !c.Top? ==> s' == Nil
      decreases s.Nodes(), 2, 0
    {
      s', removed' := s, removed;
      if z.leftNode == null && z.rightNode == null {
        RemoveLeaf(z, c, removed, all);
        if !c.Top? {
          s', removed' := Nil, removed + {z};
        }
        return;
      }
      if z.rightNode != null {
        s', removed' := DeleteSuccessor(z, s, c, removed, all);
      }
      if z.leftNode != null {
        s', removed' := DeletePredecessor(z, s', c, removed', all);
      }
    }

    static method DeleteSuccessor(z: Node, ghost s: Shape, ghost c: Context, ghost removed: set<Node>,
                                  ghost all: set<Node>)
      returns (ghost s': Shape, ghost removed': set<Node>)
      requires Whole(s, c, removed) && s.Root() == z && all == All(s, c, removed) && AllExact(all) && s.right.Bin?
      modifies s.Nodes()`value, s.Nodes()`leftNode, s.Nodes()`rightNode, all`childsNumber
      ensures Whole(s', c, removed') && All(s', c, removed') == all && AllExact(all)
      ensures s'.Nodes() <= s.Nodes() && removed <= removed' && s'.Root() == z && s'.left == s.left
      ensures Abs(s').Node? && old(Abs(s)).right.Node? && Abs(s') == T.ShiftSuccessor(old(Abs(s)))
      decreases s.Nodes(), 1
    {
      var y := CopySuccessor(z, s, c, removed, all);
      s', removed' := DropFromRight(y, s, c, removed, all);
    }

    static method SetValue(z: Node, v: ScoreIndex, ghost s: Shape, ghost c: Context, ghost removed: set<Node>,
                           ghost all: set<Node>)
      requires Whole(s, c, removed) && s.Bin? && s.node == z && all == All(s, c, removed) && AllExact(all)
      modifies z`value
      ensures Whole(s, c, removed) && AllExact(all) && z.value == v
      ensures Abs(s.left) == old(Abs(s.left)) && Abs(s.right) == old(Abs(s.right))
    {
      z.value := v;
    }

    static method CopySuccessor(z: Node, ghost s: Shape, ghost c: Context, ghost removed: set<Node>,
                                ghost all: set<Node>)
      returns (y: Node)
      requires Whole(s, c, removed) && s.Root() == z && all == All(s, c, removed) && AllExact(all) && s.right.Bin?
      modifies z`value
      ensures Whole(s, c, removed) && AllExact(all) && y == s.right.Walk()[0]
      ensures Abs(s.left) == old(Abs(s.left)) && Abs(s.right) == old(Abs(s.right))
      ensures T.Size(old(Abs(s.right))) > 0 && z.value == T.InOrder(old(Abs(s.right)))[0]
    {
      WalkMatchesTree(s.right);
      y := TreeSuccessor(z, s);
      SetValue(z, y.value, s, c, removed, all);
    }

    static method DropFromRight(y: Node, ghost s: Shape, ghost c: Context, ghost removed: set<Node>,
                                ghost all: set<Node>)
      returns (ghost s': Shape, ghost removed': set<Node>)
      requires Whole(s, c, removed) && s.Bin? && all == All(s, c, removed) && AllExact(all) && s.right.Bin?
      requires y == s.right.Walk()[0]
      modifies s.right.Nodes()`value, s.Nodes()`leftNode, s.Nodes()`rightNode, all`childsNumber
      ensures Whole(s', c, removed') && All(s', c, removed') == all && AllExact(all)
      ensures s'.Nodes() <= s.Nodes() && removed <= removed' && s'.Root() == s.node && s'.left == s.left
      ensures T.Size(old(Abs(s.right))) > 0
      ensures Abs(s.left) == old(Abs(s.left)) && Abs(s'.right) == T.DeleteAt(old(Abs(s.right)), 0)
      decreases s.Nodes(), 0
    {
      WholeDownRight(s, c, removed);
      WalkMatchesTree(s.right);
      ghost var inner, t := UnderRight(s.left, s.node, c), Nil;
      t, removed' := DeleteWithin(y, s.right, inner, 0, removed, all);
      s' := Bin(s.left, s.node, t);
      WholeUp(t, inner, removed');
    }

    static method DeletePredecessor(z: Node, ghost s: Shape, ghost c: Context, ghost removed: set<Node>,
                                  ghost all: set<Node>)
      returns (ghost s': Shape, ghost removed': set<Node>)
      requires Whole(s, c, removed) && s.Root() == z && all == All(s, c, removed) && AllExact(all) && s.left.Bin?
      modifies s.Nodes()`value, s.Nodes()`leftNode, s.Nodes()`rightNode, all`childsNumber
      ensures Whole(s', c, removed') && All(s', c, removed') == all && AllExact(all)
      ensures s'.Nodes() <= s.Nodes() && removed <= removed' && s'.Root() == z && s'.right == s.right
      ensures Abs(s').Node? && old(Abs(s)).left.Node? && Abs(s') == T.ShiftPredecessor(old(Abs(s)))
      decreases s.Nodes(), 1
    {
      ghost var l, v, r := Abs(s.left), z.value, Abs(s.right);
      assert Abs(s) == T.Node(z.color, l, v, r);
      s', removed' := ShiftLeftUp(z, s, c, removed, all);
      assert Abs(s') == T.Node(z.color, Abs(s'.left), z.value, r);
      T.ShiftedByParts(z.color, l, v, r, Abs(s'.left), z.value);
    }

    static method ShiftLeftUp(z: Node, ghost s: Shape, ghost c: Context, ghost removed: set<Node>, ghost all: set<Node>)
      returns (ghost s': Shape, ghost removed': set<Node>)
      requires Whole(s, c, removed) && s.Root() == z && all == All(s, c, removed) && AllExact(all) && s.left.Bin?
      modifies s.Nodes()`value, s.Nodes()`leftNode, s.Nodes()`rightNode, all`childsNumber
      ensures Whole(s', c, removed') && All(s', c, removed') == all && AllExact(all)
      ensures s'.Nodes() <= s.Nodes() && removed <= removed' && s'.Root() == z && s'.right == s.right
      ensures Abs(s.right) == old(Abs(s.right)) && T.LastTaken(old(Abs(s.left)), Abs(s'.left), z.value)
      decreases s.Nodes(), 0, 1
    {
      var y := CopyPredecessor(z, s, c, removed, all);
      s', removed' := DropFromLeft(y, s, c, removed, all);
    }

    static method CopyPredecessor(z: Node, ghost s: Shape, ghost c: Context, ghost removed: set<Node>,
                                  ghost all: set<Node>)
      returns (y: Node)
      requires Whole(s, c, removed) && s.Root() == z && all == All(s, c, removed) && AllExact(all) && s.left.Bin?
      modifies z`value
      ensures Whole(s, c, removed) && AllExact(all) && y == s.left.Walk()[|s.left.Walk()| - 1]
      ensures Abs(s.left) == old(Abs(s.left)) && Abs(s.right) == old(Abs(s.right))
      ensures T.Size(old(Abs(s.left))) > 0 && z.value == T.InOrder(old(Abs(s.left)))[T.Size(old(Abs(s.left))) - 1]
    {
      WalkMatchesTree(s.left);
      y := TreeMinor(z, s);
      SetValue(z, y.value, s, c, removed, all);
    }

    static method DropFromLeft(y: Node, ghost s: Shape, ghost c: Context, ghost removed: set<Node>,
                               ghost all: set<Node>)
      returns (ghost s': Shape, ghost removed': set<Node>)
      requires Whole(s, c, removed) && s.Bin? && all == All(s, c, removed) && AllExact(all) && s.left.Bin?
      requires y == s.left.Walk()[|s.left.Walk()| - 1]
      modifies s.left.Nodes()`value, s.Nodes()`leftNode, s.Nodes()`rightNode, all`childsNumber
      ensures Whole(s', c, removed') && All(s', c, removed') == all && AllExact(all)
      ensures s'.Nodes() <= s.Nodes() && removed <= removed' && s'.Root() == s.node && s'.right == s.right
      ensures T.Size(old(Abs(s.left))) > 0
      ensures Abs(s.right) == old(Abs(s.right))
      ensures Abs(s'.left) == T.DeleteAt(old(Abs(s.left)), T.Size(old(Abs(s.left))) - 1)
      decreases s.Nodes(), 0, 0
    {
      WholeDownLeft(s, c, removed);
      WalkMatchesTree(s.left);
      ghost var inner, t, k := UnderLeft(s.node, s.right, c), Nil, T.Size(Abs(s.left)) - 1;
      t, removed' := DeleteWithin(y, s.left, inner, k, removed, all);
      s' := Bin(t, s.node, s.right);
      WholeUp(t, inner, removed');
    }

    /** Deletion at the i-th node of a subtree. */
    static method DeleteWithin(y: Node, ghost s: Shape, ghost c: Context, ghost i: nat, ghost removed: set<Node>,
                               ghost all: set<Node>)
      returns (ghost s': Shape, ghost removed': set<Node>)
      requires Whole(s, c, removed) && i < |s.Walk()| && y == s.Walk()[i]
      requires all == All(s, c, removed) && AllExact(all)
      requires Alone(s, c) ==> y.parent != null
      modifies s.Nodes()`value, s.Nodes()`leftNode, s.Nodes()`rightNode
      modifies (if c.Top? then {} else {c.node})`leftNode, (if c.Top? then {} else {c.node})`rightNode, all`childsNumber
      ensures Whole(s', c, removed') && All(s', c, removed') == all && AllExact(all)
      ensures s'.Nodes() <= s.Nodes() && removed <= removed' && (c.Top? ==> s'.Root() == s.Root())
      ensures i < T.Size(old(Abs(s)))
      ensures if Alone(s, c) then s' == s && removed' == removed && Abs(s') == old(Abs(s))
              else Abs(s') == T.DeleteAt(old(Abs(s)), i)
      ensures !Alone(s, c) && LeafAt(s, i) ==> s' == PutAt(s, i, Nil)
      decreases s.Nodes(), 3
    {
      BeforeDeletion(s, c, i, removed);
      ghost var t;
      t, removed' := DeleteInPlace(y, s, c, i, removed, all);
      s' := if Alone(s, c) then s else PutAt(s, i, t);
      AfterDeletionOrNot(s, c, i, t, removed');
    }

    /** Deletion at the i-th node, seen from the nodes around it. */
    static method DeleteInPlace(y: Node, ghost s: Shape, ghost c: Context, ghost i: nat, ghost removed: set<Node>,
                                ghost all: set<Node>)
      returns (ghost t: Shape, ghost removed': set<Node>)
      requires i < |s.Walk()| && Distinct(s) && y == s.Walk()[i] && s.Nodes() <= all
      requires Whole(ShapeAt(s, i), ContextAt(s, c, i), removed)
      requires all == All(ShapeAt(s, i), ContextAt(s, c, i), removed) && AllExact(all)
      requires Alone(ShapeAt(s, i), ContextAt(s, c, i)) ==> y.parent != null
      modifies s.Nodes()`value, s.Nodes()`leftNode, s.Nodes()`rightNode
      modifies (if c.Top? then {} else {c.node})`leftNode, (if c.Top? then {} else {c.node})`rightNode, all`childsNumber
      ensures var at, around, u := ShapeAt(s, i), ContextAt(s, c, i), T.DeleteRoot(old(Abs(ShapeAt(s, i))));
        && Whole(t, around, removed') && All(t, around, removed') == all && AllExact(all)
        && t.Nodes() <= at.Nodes() && removed <= removed' && (at.left.Bin? || at.right.Bin? ==> t.Root() == y)
        && (at.left.Nil? && at.right.Nil? && !around.Top? ==> t == Nil)
        && (if Alone(at, around) then t == at && removed' == removed && Abs(t) == old(Abs(at)) else Abs(t) == u)
        && AbsAround(s, i, u) == old(AbsAround(s, i, u))
      decreases s.Nodes(), 2, 1
    {
      t, removed' := DeleteNode(y, ShapeAt(s, i), ContextAt(s, c, i), removed, all);
    }

    static lemma AfterDeletionOrNot(s: Shape, c: Context, i: nat, t: Shape, removed: set<Node>)
      requires i < |s.Walk()| && Distinct(s) && Whole(t, ContextAt(s, c, i), removed)
      requires t.Nodes() <= ShapeAt(s, i).Nodes() && (Alone(s, c) ==> t == s)
      ensures var s' := if Alone(s, c) then s else PutAt(s, i, t);
        && Whole(s', c, removed) && s'.Nodes() <= s.Nodes()
        && All(s', c, removed) == All(t, ContextAt(s, c, i), removed)
        && (!Alone(s, c) ==> Abs(s') == AbsAround(s, i, Abs(t)))
    {
      if !Alone(s, c) {
        AfterDeletion(s, c, i, t, removed);
      }
    }

    /** The i-th node has no children. */
    static ghost predicate LeafAt(s: Shape, i: nat)
      requires i < |s.Walk()|
    {
      ShapeAt(s, i).left.Nil? && ShapeAt(s, i).right.Nil?
    }

    /** Looks the key up and deletes its node. */
    method DeleteByKey(value: ScoreIndex) returns (ok: bool, ghost i: nat)
      requires Valid()
      modifies this, shape.Nodes(), removed
      ensures ok == !(value in old(Keys()) && |old(Keys())| == 1 && old(root != null && root.parent == null))
      ensures Valid() && Tree() == T.Apply(old(Tree()), T.Drop(value))
      ensures shape.Nodes() + removed == old(shape.Nodes() + removed)
      ensures root == old(root) && (root != null ==> root.parent == old(root.parent))
      ensures forall m <- old(shape.Nodes()) :: old(allocated(m)) ==> m.parent == old(m.parent)
      ensures value in old(Keys()) ==> i < |old(shape).Walk()| && i == Rank(old(Keys()), value)
      ensures value in old(Keys()) && !Alone(old(shape), Top) && LeafAt(old(shape), i) ==>
        shape == PutAt(old(shape), i, Nil)
    {
      WalkMatchesTree(shape);
      var (n, rank) := Search(value, 0);
      i := if n == null then 0 else rank;
      ok := true;
      if n != null {
        ghost var s', r' := shape, removed;
        ok, s', r' := DeleteFound(n, shape, rank, removed, shape.Nodes() + removed);
        shape, removed := s', r';
      }
    }

    /**
     * Deletion by key. `ok` is false where the source follows a null parent: for the only key, under a root that no
     * rotation has left a parent link on.
     */
    method MyDelete(value: ScoreIndex) returns (ok: bool, ghost i: nat)
      requires Valid()
      modifies this, shape.Nodes(), removed
      ensures ok == !(value in old(Keys()) && |old(Keys())| == 1 && old(root != null && root.parent == null))
      ensures Valid() && Tree() == T.Apply(old(Tree()), T.Drop(value))
      ensures value !in old(Keys()) ==> Tree() == old(Tree())
      ensures value in old(Keys()) ==>
        T.RemainAfter(old(Keys()), old(Tree()), Rank(old(Keys()), value), value, Keys())
      ensures shape.Nodes() + removed == old(shape.Nodes() + removed)
      ensures root == old(root) && (root != null ==> root.parent == old(root.parent))
      ensures forall m <- old(shape.Nodes()) :: old(allocated(m)) ==> m.parent == old(m.parent)
      ensures value in old(Keys()) ==> i < |old(shape).Walk()| && i == Rank(old(Keys()), value)
      ensures value in old(Keys()) && !Alone(old(shape), Top) && LeafAt(old(shape), i) ==>
        shape == PutAt(old(shape), i, Nil)
    {
      T.DropKeys(Tree(), value);
      ok, i := DeleteByKey(value);
    }

    /** Deletion of a node found, unless that follows a null parent. */
    static method DeleteFound(n: Node, ghost s: Shape, ghost i: nat, ghost removed: set<Node>, ghost all: set<Node>)
      returns (ok: bool, ghost s': Shape, ghost removed': set<Node>)
      requires Sound(s, removed) && i < |s.Walk()| && n == s.Walk()[i] && all == s.Nodes() + removed
      modifies all
      ensures ok == !(Alone(s, Top) && old(n.parent) == null)
      ensures Sound(s', removed') && s'.Nodes() + removed' == all && s'.Root() == s.Root()
      ensures forall m <- all :: m.parent == old(m.parent)
      ensures i < T.Size(old(Abs(s))) && Abs(s') == T.Apply(old(Abs(s)), T.Drop(T.InOrder(old(Abs(s)))[i]))
      ensures !Alone(s, Top) && LeafAt(s, i) ==> s' == PutAt(s, i, Nil)
    {
      WalkMatchesTree(s);
      LinkedIsLeveled(s, 0);
      GoDown(s, Top, i, removed);
      s', removed' := s, removed;
      ok := n.leftNode != null || n.rightNode != null || n.parent != null;
      assert ok == !(Alone(s, Top) && n.parent == null);
      if ok {
        s', removed' := DeleteFromRoot(n, s, i, removed, all);
      }
    }

    static method DeleteFromRoot(n: Node, ghost s: Shape, ghost i: nat, ghost removed: set<Node>, ghost all: set<Node>)
      returns (ghost s': Shape, ghost removed': set<Node>)
      requires Sound(s, removed) && i < |s.Walk()| && n == s.Walk()[i] && all == s.Nodes() + removed
      requires Alone(s, Top) ==> n.parent != null
      modifies all
      ensures Sound(s', removed') && s'.Nodes() + removed' == all && s'.Root() == s.Root()
      ensures forall m <- all :: m.parent == old(m.parent)
      ensures i < T.Size(old(Abs(s))) && Abs(s') == T.Apply(old(Abs(s)), T.Drop(T.InOrder(old(Abs(s)))[i]))
      ensures !Alone(s, Top) && LeafAt(s, i) ==> s' == PutAt(s, i, Nil)
    {
      RootDeletionStarts(s, i, removed);
      ghost var level := Levels(s, 0);
      s', removed' := DeleteLeveled(n, s, i, level, removed, all);
      SoundAfterDeletion(level, s.node, removed, s', removed');
    }

    /** Deletion in a whole tree, seen from the parent links. */
    static method DeleteLeveled(n: Node, ghost s: Shape, ghost i: nat, ghost level: map<Node, nat>,
                                ghost removed: set<Node>, ghost all: set<Node>)
      returns (ghost s': Shape, ghost removed': set<Node>)
      requires Whole(s, Top, removed) && i < |s.Walk()| && n == s.Walk()[i] && all == s.Nodes() + removed
      requires AllExact(all)
      requires level.Keys == s.Nodes() && (Alone(s, Top) ==> n.parent != null)
      modifies all
      ensures Whole(s', Top, removed') && s'.Nodes() + removed' == all && AllExact(all)
      ensures s'.Root() == s.Root() && removed <= removed' && i < T.Size(old(Abs(s)))
      ensures Abs(s') == if Alone(s, Top) then old(Abs(s)) else T.DeleteAt(old(Abs(s)), i)
      ensures !Alone(s, Top) && LeafAt(s, i) ==> s' == PutAt(s, i, Nil)
      ensures forall m <- all :: m.parent == old(m.parent)
      ensures Leveled(level, s.node) == old(Leveled(level, s.node)) && Homing(all, removed) == old(Homing(all, removed))
    {
      s', removed' := DeleteWithin(n, s, Top, i, removed, all);
    }

    static lemma RootDeletionStarts(s: Shape, i: nat, removed: set<Node>)
      requires Sound(s, removed) && i < |s.Walk()|
      ensures AllExact(s.Nodes() + removed) && Leveled(Levels(s, 0), s.node) && i < T.Size(Abs(s))
      ensures var t := T.Apply(Abs(s), T.Drop(T.InOrder(Abs(s))[i]));
        T.Valid(t) && t == if Alone(s, Top) then Abs(s) else T.DeleteAt(Abs(s), i)
    {
      WalkMatchesTree(s);
      if !Alone(s, Top) {
        T.DropByKey(Abs(s), i);
      }
      CountedIsLocallyExact(s);
      LinkedIsLeveled(s, 0);
    }

    static lemma SoundAfterDeletion(level: map<Node, nat>, root: Node, before: set<Node>, s: Shape, removed: set<Node>)
      requires Whole(s, Top, removed) && AllExact(s.Nodes() + removed) && T.Valid(Abs(s))
      requires Leveled(level, root) && level.Keys !! before && Homing(level.Keys + before, before)
      requires level.Keys + before == s.Nodes() + removed && before <= removed && s.Root() == root
      ensures Sound(s, removed)
    {
      HomingAfterRemoval(level, root, before, removed);
      CountedWhenExact(s, removed);
    }
  }
}
