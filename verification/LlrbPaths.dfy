/** Going down to the i-th node of a shape and putting a changed subtree back in its place. */
module LlrbPaths {
  import opened LlrbNode
  import opened LlrbLinks
  import T = LlrbTree

  ghost predicate Distinct(s: Shape) {
    s.Bin? ==> s.node !in s.left.Nodes() && s.node !in s.right.Nodes() && s.left.Nodes() !! s.right.Nodes()
               && Distinct(s.left) && Distinct(s.right)
  }

  ghost function ShapeAt(s: Shape, i: nat): (r: Shape)
    requires i < |s.Walk()|
    ensures r.Bin? && r.node == s.Walk()[i] && r.Nodes() <= s.Nodes()
  {
    var k := |s.left.Walk()|;
    if i < k then ShapeAt(s.left, i) else if i == k then s else ShapeAt(s.right, i - k - 1)
  }

  ghost function ContextAt(s: Shape, c: Context, i: nat): (r: Context)
    requires i < |s.Walk()|
    ensures r == c || (!r.Top? && r.node in s.Nodes())
    decreases s
  {
    var k := |s.left.Walk()|;
    if i < k then ContextAt(s.left, UnderLeft(s.node, s.right, c), i)
    else if i == k then c
    else ContextAt(s.right, UnderRight(s.left, s.node, c), i - k - 1)
  }

  ghost function PutAt(s: Shape, i: nat, t: Shape): Shape
    requires i < |s.Walk()|
  {
    var k := |s.left.Walk()|;
    if i < k then Bin(PutAt(s.left, i, t), s.node, s.right)
    else if i == k then t
    else Bin(s.left, s.node, PutAt(s.right, i - k - 1, t))
  }

  lemma {:induction false} GoDown(s: Shape, c: Context, i: nat, removed: set<Node>)
    requires Whole(s, c, removed) && i < |s.Walk()|
    ensures Whole(ShapeAt(s, i), ContextAt(s, c, i), removed)
    ensures All(ShapeAt(s, i), ContextAt(s, c, i), removed) == All(s, c, removed)
    ensures TopOf(ShapeAt(s, i).Root(), ContextAt(s, c, i)) == TopOf(s.Root(), c)
    decreases s
  {
    var k := |s.left.Walk()|;
    if i < k {
      WholeDownLeft(s, c, removed);
      GoDown(s.left, UnderLeft(s.node, s.right, c), i, removed);
    } else if i > k {
      WholeDownRight(s, c, removed);
      GoDown(s.right, UnderRight(s.left, s.node, c), i - k - 1, removed);
    }
  }

  lemma WholeUp(t: Shape, c: Context, removed: set<Node>)
    requires Whole(t, c, removed) && !c.Top?
    ensures var s := if c.UnderLeft? then Bin(t, c.node, c.right) else Bin(c.left, c.node, t);
      Whole(s, c.up, removed) && All(s, c.up, removed) == All(t, c, removed)
  {
  }

  lemma {:induction false} ComeUp(s: Shape, c: Context, i: nat, t: Shape, removed: set<Node>)
    requires i < |s.Walk()| && Whole(t, ContextAt(s, c, i), removed)
    ensures Whole(PutAt(s, i, t), c, removed)
    ensures All(PutAt(s, i, t), c, removed) == All(t, ContextAt(s, c, i), removed)
    decreases s
  {
    var k := |s.left.Walk()|;
    if i < k {
      ComeUp(s.left, UnderLeft(s.node, s.right, c), i, t, removed);
      WholeUpLeft(PutAt(s.left, i, t), s.node, s.right, c, removed);
    } else if i > k {
      ComeUp(s.right, UnderRight(s.left, s.node, c), i - k - 1, t, removed);
      WholeUpRight(s.left, s.node, PutAt(s.right, i - k - 1, t), c, removed);
    }
  }

  lemma WholeUpLeft(t: Shape, n: Node, r: Shape, c: Context, removed: set<Node>)
    requires Whole(t, UnderLeft(n, r, c), removed)
    ensures Whole(Bin(t, n, r), c, removed) && All(Bin(t, n, r), c, removed) == All(t, UnderLeft(n, r, c), removed)
  {
    WholeUp(t, UnderLeft(n, r, c), removed);
  }

  lemma WholeUpRight(l: Shape, n: Node, t: Shape, c: Context, removed: set<Node>)
    requires Whole(t, UnderRight(l, n, c), removed)
    ensures Whole(Bin(l, n, t), c, removed) && All(Bin(l, n, t), c, removed) == All(t, UnderRight(l, n, c), removed)
  {
    WholeUp(t, UnderRight(l, n, c), removed);
  }

  lemma {:induction false} PutNodes(s: Shape, i: nat, t: Shape)
    requires i < |s.Walk()| && t.Nodes() <= ShapeAt(s, i).Nodes()
    ensures PutAt(s, i, t).Nodes() <= s.Nodes()
  {
    var k := |s.left.Walk()|;
    if i < k {
      PutNodes(s.left, i, t);
    } else if i > k {
      PutNodes(s.right, i - k - 1, t);
    }
  }

  lemma LinkedIsDistinct(s: Shape)
    requires Linked(s)
    ensures Distinct(s)
  {
  }

  /** The tree with `u` in place of the subtree at the i-th node, read off the nodes outside that subtree. */
  ghost function AbsAround(s: Shape, i: nat, u: T.Tree): T.Tree
    requires i < |s.Walk()| && Distinct(s)
    reads (s.Nodes() - ShapeAt(s, i).Nodes())`color, (s.Nodes() - ShapeAt(s, i).Nodes())`value
  {
    var k := |s.left.Walk()|;
    if i < k then T.Node(s.node.color, AbsAround(s.left, i, u), s.node.value, Abs(s.right))
    else if i == k then u
    else T.Node(s.node.color, Abs(s.left), s.node.value, AbsAround(s.right, i - k - 1, u))
  }

  lemma {:induction false} AbsAroundReplaces(s: Shape, i: nat, u: T.Tree)
    requires i < |s.Walk()| && Distinct(s)
    ensures |s.Walk()| == T.Size(Abs(s))
    ensures Abs(ShapeAt(s, i)) == T.SubtreeAt(Abs(s), i)
    ensures AbsAround(s, i, u) == T.ReplaceAt(Abs(s), i, u)
  {
    var k := |s.left.Walk()|;
    WalkMatchesTree(s);
    WalkMatchesTree(s.left);
    if i < k {
      AbsAroundReplaces(s.left, i, u);
    } else if i > k {
      AbsAroundReplaces(s.right, i - k - 1, u);
    }
  }

  lemma {:induction false} AbsOfPut(s: Shape, i: nat, t: Shape)
    requires i < |s.Walk()| && Distinct(s)
    ensures Abs(PutAt(s, i, t)) == AbsAround(s, i, Abs(t))
  {
    var k := |s.left.Walk()|;
    if i < k {
      AbsOfPut(s.left, i, t);
    } else if i > k {
      AbsOfPut(s.right, i - k - 1, t);
    }
  }

  /** Before a deletion at the i-th node: where it happens and what it should leave. */
  lemma BeforeDeletion(s: Shape, c: Context, i: nat, removed: set<Node>)
    requires Whole(s, c, removed) && i < |s.Walk()|
    ensures Distinct(s) && i < T.Size(Abs(s))
    ensures Whole(ShapeAt(s, i), ContextAt(s, c, i), removed)
    ensures All(ShapeAt(s, i), ContextAt(s, c, i), removed) == All(s, c, removed)
    ensures AbsAround(s, i, T.DeleteRoot(Abs(ShapeAt(s, i)))) == T.DeleteAt(Abs(s), i)
  {
    GoDown(s, c, i, removed);
    LinkedIsDistinct(s);
    AbsAroundReplaces(s, i, T.DeleteRoot(Abs(ShapeAt(s, i))));
    T.DeleteAtReplaces(Abs(s), i);
  }

  lemma AfterDeletion(s: Shape, c: Context, i: nat, t: Shape, removed: set<Node>)
    requires i < |s.Walk()| && Distinct(s) && Whole(t, ContextAt(s, c, i), removed)
    requires t.Nodes() <= ShapeAt(s, i).Nodes()
    ensures Whole(PutAt(s, i, t), c, removed) && PutAt(s, i, t).Nodes() <= s.Nodes()
    ensures All(PutAt(s, i, t), c, removed) == All(t, ContextAt(s, c, i), removed)
    ensures Abs(PutAt(s, i, t)) == AbsAround(s, i, Abs(t))
  {
    ComeUp(s, c, i, t, removed);
    PutNodes(s, i, t);
    AbsOfPut(s, i, t);
  }

  // ---- Neighbours in order

  /** The nodes left and right of a subtree in the whole tree. */
  ghost function Before(c: Context): seq<Node> {
    match c
    case Top => []
    case UnderLeft(_, _, up) => Before(up)
    case UnderRight(l, n, up) => Before(up) + l.Walk() + [n]
  }

  ghost function After(c: Context): seq<Node> {
    match c
    case Top => []
    case UnderLeft(n, r, up) => [n] + r.Walk() + After(up)
    case UnderRight(_, _, up) => After(up)
  }

  lemma Regroup(b: seq<Node>, l: seq<Node>, n: seq<Node>, r: seq<Node>, a: seq<Node>)
    ensures b + l + (n + r + a) == b + (l + n + r) + a == (b + l + n) + r + a
  {
  }

  lemma {:induction false} WalkAround(s: Shape, c: Context, i: nat)
    requires i < |s.Walk()|
    ensures var r, d := ShapeAt(s, i), ContextAt(s, c, i);
      && Before(d) + r.Walk() + After(d) == Before(c) + s.Walk() + After(c)
      && |Before(d)| + |r.left.Walk()| == |Before(c)| + i
    decreases s
  {
    var l, n, r := s.left.Walk(), [s.node], s.right.Walk();
    var b, a := Before(c), After(c);
    if i < |l| {
      WalkAround(s.left, UnderLeft(s.node, s.right, c), i);
      Regroup(b, l, n, r, a);
    } else if i > |l| {
      WalkAround(s.right, UnderRight(s.left, s.node, c), i - |l| - 1);
      Regroup(b, l, n, r, a);
    }
  }
}
