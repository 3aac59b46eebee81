/** The climbing loop of the iterator, and where it goes from the last node. */
module LlrbClimb {
  import opened LlrbNode
  import opened LlrbLinks
  import opened LlrbPaths
  import opened LlrbLeftovers

  datatype Climbing = At(node: Node) | Found(node: Node) | Ended {
    function Outcome(): Node?
      requires !At?
    {
      if Found? then node else null
    }
  }

  ghost predicate Closed(all: set<Node>)
    reads all`parent
  {
    forall m <- all :: m.parent != null ==> m.parent in all
  }

  /** The first `k` rounds of the loop from `n`. */
  ghost function Rounds(n: Node, k: nat, all: set<Node>): (c: Climbing)
    requires n in all && Closed(all)
    reads all`parent, all`leftNode
    ensures c.At? ==> c.node in all
  {
    if k == 0 then At(n)
    else if n.parent == null then Ended
    else if n.parent.leftNode == n then Found(n.parent)
    else Rounds(n.parent, k - 1, all)
  }

  lemma {:induction false} RoundsAdd(n: Node, j: nat, k: nat, all: set<Node>)
    requires n in all && Closed(all) && Rounds(n, j, all).At?
    ensures Rounds(n, j + k, all) == Rounds(Rounds(n, j, all).node, k, all)
  {
    if j > 0 {
      RoundsAdd(n.parent, j - 1, k, all);
    }
  }

  lemma {:induction false} RoundsStop(n: Node, j: nat, k: nat, all: set<Node>)
    requires n in all && Closed(all) && j <= k && !Rounds(n, j, all).At?
    ensures Rounds(n, k, all) == Rounds(n, j, all)
  {
    if n.parent != null && n.parent.leftNode != n {
      RoundsStop(n.parent, j - 1, k - 1, all);
    }
  }

  /** Inside the tree the loop finds the first node after the subtree, or else comes to the root. */
  lemma {:induction false} RoundsToTop(n: Node, c: Context, all: set<Node>) returns (k: nat)
    requires Surrounds(c, n) && n !in c.Nodes() && (!c.Top? ==> n.parent == c.node)
    requires {n} + c.Nodes() <= all && Closed(all)
    ensures TopOf(n, c) in all
    ensures Rounds(n, k, all) == if After(c) != [] then Found(After(c)[0]) else At(TopOf(n, c))
    decreases c
  {
    if c.Top? {
      k := 0;
    } else if c.UnderLeft? {
      k := 1;
    } else {
      k := RoundsToTop(c.node, c.up, all);
      assert c.node.leftNode != n;
      k := k + 1;
    }
  }

  /** Through removed nodes the loop goes on to where the parent links land. */
  lemma {:induction false} RoundsThroughRemoved(n: Node, removed: set<Node>, unseen: set<Node>, all: set<Node>)
    returns (k: nat)
    requires n in all && Closed(all) && unseen <= removed && Avoids(all, removed)
    requires Landing(n, unseen) != null
    ensures Rounds(n, k, all) == At(Landing(n, unseen))
    decreases unseen
  {
    if n in unseen {
      k := RoundsThroughRemoved(n.parent, removed, unseen - {n}, all);
      k := k + 1;
    } else {
      k := 0;
    }
  }

  /** The root and the nodes reached from it by right links alone. */
  ghost function RightSpine(s: Shape): (r: set<Node>)
    ensures r <= s.Nodes()
  {
    if s.Nil? then {} else {s.node} + RightSpine(s.right)
  }

  /** The nodes with nothing after them outside their subtree are those of the right spine. */
  lemma {:induction false} SpineHasNothingAfter(s: Shape, c: Context, i: nat)
    requires i < |s.Walk()| && Distinct(s)
    ensures |After(ContextAt(s, c, i))| >= |After(c)|
    ensures |After(ContextAt(s, c, i))| == |After(c)| <==> s.Walk()[i] in RightSpine(s)
    decreases s
  {
    var k := |s.left.Walk()|;
    if i < k {
      SpineHasNothingAfter(s.left, UnderLeft(s.node, s.right, c), i);
      assert s.Walk()[i] == ShapeAt(s.left, i).node;
    } else if i > k {
      SpineHasNothingAfter(s.right, UnderRight(s.left, s.node, c), i - k - 1);
      assert s.Walk()[i] == ShapeAt(s.right, i - k - 1).node;
    }
  }

  /** From a node of the right spine below the root the parent is on the spine too, and was left by its right link. */
  lemma {:induction false} SpineGoesUp(s: Shape, n: Node)
    requires Linked(s) && n in RightSpine(s)
    ensures n != s.node ==> n.parent != null && n.parent in RightSpine(s) && n.parent.leftNode != n
  {
    if n != s.node && n != s.right.node {
      SpineGoesUp(s.right, n);
    }
  }

  // ---- A whole tree

  ghost predicate Standing(s: Shape, removed: set<Node>)
    reads s.Nodes(), removed
  {
    s.Bin? && Whole(s, Top, removed) && Homing(s.Nodes() + removed, removed)
  }

  /** The parent link left over on the root leads back to the right spine, if need be over removed nodes. */
  ghost predicate GoesRound(s: Shape, removed: set<Node>)
    reads s.Nodes()`parent, removed`parent
  {
    s.Bin? && s.node.parent != null && Landing(s.node.parent, removed) in RightSpine(s)
  }

  lemma StandingIsClosed(s: Shape, removed: set<Node>)
    requires Standing(s, removed)
    ensures Closed(s.Nodes() + removed) && Avoids(s.Nodes() + removed, removed) && Avoids(s.Nodes() + removed, {s.node})
  {
    LinkedAvoids(s, removed);
    LinkedIsLeveled(s, 0);
    forall m | m in removed
      ensures m.parent in s.Nodes() + removed
    {
      ParentLandsAlike(m, s.Nodes() + removed, removed);
    }
  }

  /** Where the left-over parent link leads back into the tree. */
  lemma RootLands(s: Shape, removed: set<Node>)
    requires Standing(s, removed) && s.node.parent != null
    ensures Landing(s.node.parent, removed) in s.Nodes()
  {
  }

  /** The nodes that the loop never leaves. */
  ghost function Circle(s: Shape, removed: set<Node>): set<Node>
    reads removed`parent
  {
    RightSpine(s) + set m <- removed | Landing(m, removed) in RightSpine(s)
  }

  lemma CircleIsClosed(s: Shape, removed: set<Node>, n: Node)
    requires Standing(s, removed) && GoesRound(s, removed) && n in Circle(s, removed)
    ensures n.parent != null && n.parent in Circle(s, removed) && n.parent.leftNode != n
  {
    var all := s.Nodes() + removed;
    StandingIsClosed(s, removed);
    if n in removed {
      ParentLandsAlike(n, all, removed);
    } else if n != s.node {
      SpineGoesUp(s, n);
    }
  }

  lemma {:induction false} RoundForEver(s: Shape, removed: set<Node>, n: Node, k: nat)
    requires Standing(s, removed) && GoesRound(s, removed) && n in Circle(s, removed)
    ensures Closed(s.Nodes() + removed) && Rounds(n, k, s.Nodes() + removed).At?
  {
    StandingIsClosed(s, removed);
    if k > 0 {
      CircleIsClosed(s, removed, n);
      RoundForEver(s, removed, n.parent, k - 1);
    }
  }

  lemma {:induction false} EveryNodeIsWalked(s: Shape, n: Node)
    requires n in s.Nodes()
    ensures n in s.Walk()
  {
    if n in s.left.Nodes() {
      EveryNodeIsWalked(s.left, n);
    } else if n in s.right.Nodes() {
      EveryNodeIsWalked(s.right, n);
    }
  }

  ghost function IndexOf(s: Shape, n: Node): (i: nat)
    requires n in s.Nodes()
    ensures i < |s.Walk()| && s.Walk()[i] == n
  {
    EveryNodeIsWalked(s, n);
    var i :| 0 <= i < |s.Walk()| && s.Walk()[i] == n;
    i
  }

  /** How many nodes there are up to the end of the subtree at `n`. */
  ghost function EndOf(s: Shape, n: Node): nat
    requires n in s.Nodes()
  {
    IndexOf(s, n) + 1 + |ShapeAt(s, IndexOf(s, n)).right.Walk()|
  }

  /** What comes after the subtree at the i-th node. */
  lemma AfterSubtree(s: Shape, i: nat)
    requires i < |s.Walk()|
    ensures var k := i + 1 + |ShapeAt(s, i).right.Walk()|;
      k <= |s.Walk()| && After(ContextAt(s, Top, i)) == s.Walk()[k..]
  {
    var r, c := ShapeAt(s, i), ContextAt(s, Top, i);
    WalkAround(s, Top, i);
    var front := Before(c) + r.left.Walk() + [r.node] + r.right.Walk();
    assert s.Walk() == front + After(c) by {
      assert Before(c) + r.Walk() == front;
    }
  }

  ghost function LastOf(s: Shape): Node
    requires s.Bin?
  {
    s.Walk()[|s.Walk()| - 1]
  }

  /** From a node of the tree the loop finds the first node after its subtree, or else comes to the root. */
  lemma RoundsFrom(s: Shape, removed: set<Node>, i: nat) returns (k: nat)
    requires Standing(s, removed) && i < |s.Walk()|
    ensures Closed(s.Nodes() + removed) && s.Walk()[i] in s.Nodes()
    ensures var end := i + 1 + |ShapeAt(s, i).right.Walk()|;
      && end <= |s.Walk()|
      && Rounds(s.Walk()[i], k, s.Nodes() + removed) == if end < |s.Walk()| then Found(s.Walk()[end]) else At(s.node)
  {
    StandingIsClosed(s, removed);
    GoDown(s, Top, i, removed);
    AfterSubtree(s, i);
    k := RoundsToTop(s.Walk()[i], ContextAt(s, Top, i), s.Nodes() + removed);
  }

  /** Only nodes of the right spine have nothing after their subtree. */
  lemma EndOnSpine(s: Shape, i: nat)
    requires Linked(s) && i < |s.Walk()|
    ensures i + 1 + |ShapeAt(s, i).right.Walk()| == |s.Walk()| <==> s.Walk()[i] in RightSpine(s)
  {
    LinkedIsDistinct(s);
    SpineHasNothingAfter(s, Top, i);
    AfterSubtree(s, i);
  }

  lemma LastIsOnSpine(s: Shape, removed: set<Node>) returns (k: nat)
    requires Standing(s, removed)
    ensures Closed(s.Nodes() + removed) && LastOf(s) in RightSpine(s)
    ensures Rounds(LastOf(s), k, s.Nodes() + removed) == At(s.node)
  {
    var i := |s.Walk()| - 1;
    k := RoundsFrom(s, removed, i);
    EndOnSpine(s, i);
  }

  /** Where the left-over link leads back, unless it goes round, there are nodes after. */
  lemma LandsBeforeOthers(s: Shape, removed: set<Node>)
    requires Standing(s, removed) && !GoesRound(s, removed) && s.node.parent != null
    ensures Landing(s.node.parent, removed) in s.Nodes()
    ensures EndOf(s, Landing(s.node.parent, removed)) < |s.Walk()|
  {
    RootLands(s, removed);
    var i := IndexOf(s, Landing(s.node.parent, removed));
    EndOnSpine(s, i);
    AfterSubtree(s, i);
  }

  /** What is found past the last node: nothing, or the node after the subtree that the root's parent link leads to. */
  ghost function Overshoot(s: Shape, removed: set<Node>): Node?
    requires Standing(s, removed) && !GoesRound(s, removed)
    reads s.Nodes(), removed
  {
    if s.node.parent == null then null
    else
      LandsBeforeOthers(s, removed);
      s.Walk()[EndOf(s, Landing(s.node.parent, removed))]
  }

  /** From the last node the loop comes to the root and then past it. */
  lemma PastTheEnd(s: Shape, removed: set<Node>) returns (k: nat)
    requires Standing(s, removed) && !GoesRound(s, removed)
    ensures Closed(s.Nodes() + removed) && LastOf(s) in s.Nodes()
    ensures var c := Rounds(LastOf(s), k, s.Nodes() + removed);
      !c.At? && c.Outcome() == Overshoot(s, removed) && (c.Ended? <==> s.node.parent == null)
  {
    var all := s.Nodes() + removed;
    StandingIsClosed(s, removed);
    k := LastIsOnSpine(s, removed);
    if s.node.parent == null {
      RoundsAdd(LastOf(s), k, 1, all);
      k := k + 1;
    } else {
      var j := BackIntoTree(s, removed);
      RoundsAdd(LastOf(s), k, j, all);
      k := k + j;
    }
  }

  lemma BackIntoTree(s: Shape, removed: set<Node>) returns (k: nat)
    requires Standing(s, removed) && !GoesRound(s, removed) && s.node.parent != null
    ensures Closed(s.Nodes() + removed) && Overshoot(s, removed) != null
    ensures Rounds(s.node, k, s.Nodes() + removed) == Found(Overshoot(s, removed))
  {
    var all, p := s.Nodes() + removed, Landing(s.node.parent, removed);
    StandingIsClosed(s, removed);
    LandsBeforeOthers(s, removed);
    var j := RoundsThroughRemoved(s.node.parent, removed, removed, all);
    k := RoundsFrom(s, removed, IndexOf(s, p));
    RoundsAdd(s.node.parent, j, k, all);
    k := 1 + (j + k);
  }

  /** What the iterator does from the last node: exactly one of three things, by the root's left-over parent link. */
  lemma PastTheEndExactly(s: Shape, removed: set<Node>)
    requires Standing(s, removed)
    ensures Closed(s.Nodes() + removed) && LastOf(s) in s.Nodes()
    ensures var all := s.Nodes() + removed;
      && ((exists k :: Rounds(LastOf(s), k, all) == Ended) <==> s.node.parent == null)
      && ((forall k :: Rounds(LastOf(s), k, all).At?) <==> GoesRound(s, removed))
      && ((exists k :: Rounds(LastOf(s), k, all).Found?) <==> s.node.parent != null && !GoesRound(s, removed))
  {
    var all, n := s.Nodes() + removed, LastOf(s);
    var onSpine := LastIsOnSpine(s, removed);
    if GoesRound(s, removed) {
      forall k
        ensures Rounds(n, k, all).At?
      {
        RoundForEver(s, removed, n, k);
      }
    } else {
      var j := PastTheEnd(s, removed);
      forall k | !Rounds(n, k, all).At?
        ensures Rounds(n, k, all) == Rounds(n, j, all)
      {
        RoundsStop(n, j, if j < k then k else j, all);
        RoundsStop(n, k, if j < k then k else j, all);
      }
    }
  }

  /** A step from the i-th node: the least node on the right, or what finitely many rounds find. */
  lemma StepEnds(s: Shape, removed: set<Node>, i: nat) returns (k: nat)
    requires Standing(s, removed) && i < |s.Walk()| && (i + 1 < |s.Walk()| || !GoesRound(s, removed))
    ensures Closed(s.Nodes() + removed) && s.Walk()[i] in s.Nodes()
    ensures Linked(ShapeAt(s, i)) && ShapeAt(s, i).node == s.Walk()[i]
    ensures var right, c := ShapeAt(s, i).right, Rounds(s.Walk()[i], k, s.Nodes() + removed);
      if right.Bin? then i + 1 < |s.Walk()| && right.Walk()[0] == s.Walk()[i + 1]
      else !c.At? && c.Outcome() == if i + 1 < |s.Walk()| then s.Walk()[i + 1] else Overshoot(s, removed)
  {
    GoDown(s, Top, i, removed);
    k := RoundsFrom(s, removed, i);
    if ShapeAt(s, i).right.Bin? {
      RightComesNext(s, i);
    } else if i + 1 == |s.Walk()| {
      k := PastTheEnd(s, removed);
    }
  }

  lemma RightComesNext(s: Shape, i: nat)
    requires i < |s.Walk()| && ShapeAt(s, i).right.Bin?
    ensures i + 1 < |s.Walk()| && ShapeAt(s, i).right.Walk()[0] == s.Walk()[i + 1]
  {
    var r, c := ShapeAt(s, i), ContextAt(s, Top, i);
    WalkAround(s, Top, i);
    var front := Before(c) + r.left.Walk() + [r.node];
    assert s.Walk() == front + (r.right.Walk() + After(c)) by {
      assert Before(c) + r.Walk() + After(c) == front + (r.right.Walk() + After(c));
    }
  }
}
