/** Iteration over the index, the pages of the leaderboard, and where the iterator runs past its end. */
module Leaderboard {
  import opened Scores
  import opened LlrbNode
  import opened LlrbLinks
  import opened LlrbPaths
  import opened LlrbLeftovers
  import opened LlrbClimb
  import opened LlrbHeap
  import T = LlrbTree

  method GetMin(n: Node, ghost s: Shape) returns (r: Node)
    requires Linked(s) && n == s.Root()
    ensures r == s.Walk()[0]
  {
    r := n;
    ghost var cur := s;
    while r.leftNode != null
      invariant Linked(cur) && cur.Root() == r && cur.Walk()[0] == s.Walk()[0]
      decreases cur
    {
      r := r.leftNode;
      cur := cur.left;
    }
  }

  /** Stepping past the last node comes to an end. */
  ghost predicate Ends(tree: RBTree)
    reads tree, tree.shape.Nodes()`parent, tree.removed`parent
  {
    !GoesRound(tree.shape, tree.removed)
  }

  /** What the iterator shows after the last node: nothing, or a node that it has shown before. */
  ghost function AfterLast(tree: RBTree): Node?
    requires tree.Valid() && tree.root != null && Ends(tree)
    reads tree, tree.shape.Nodes(), tree.removed
  {
    Overshoot(tree.shape, tree.removed)
  }

  /** One step of the iterator from the i-th node, unless it goes round for ever. */
  method Next(tree: RBTree, n: Node, ghost i: nat) returns (r: Node?)
    requires tree.Valid() && i < |tree.shape.Walk()| && n == tree.shape.Walk()[i]
    requires i + 1 < |tree.shape.Walk()| || Ends(tree)
    ensures r == if i + 1 < |tree.shape.Walk()| then tree.shape.Walk()[i + 1] else old(AfterLast(tree))
    ensures tree.Valid() && tree.Keys() == old(tree.Keys()) && Ends(tree) == old(Ends(tree))
  {
    assert allocated(tree.shape.Nodes()) && allocated(tree.removed);
    ghost var s, all := tree.shape, tree.shape.Nodes() + tree.removed;
    ghost var k := StepEnds(s, tree.removed, i);
    if n.rightNode != null {
      r := GetMin(n.rightNode, ShapeAt(s, i).right);
    } else {
      r := Climb(n, all, k);
    }
  }

  /** Goes up until a left link is left behind or there is no parent, which takes at most `k` rounds. */
  method Climb(n: Node, ghost all: set<Node>, ghost k: nat) returns (r: Node?)
    requires n in all && Closed(all) && !Rounds(n, k, all).At?
    ensures r == old(Rounds(n, k, all)).Outcome()
  {
    var cur: Node := n;
    ghost var rest := k;
    while true
      invariant cur in all && Rounds(cur, rest, all) == Rounds(n, k, all)
      decreases rest
    {
      var p := cur.parent;
      if p == null {
        return null;
      }
      if p.leftNode == cur {
        return p;
      }
      cur := p;
      rest := rest - 1;
    }
  }

  // ---- Pages and ranks

  /** How many entries a page starting at `shift` gets; a negative end counts as beyond the size, as unsigned. */
  function PageLength(size: nat, shift: nat, count: int): (n: int)
    ensures n <= size - shift
  {
    if shift + count < 0 || shift + count > size then size - shift else count
  }

  /** How many entries there are from `shift` on. */
  function Rest(size: nat, shift: nat): nat {
    if shift <= size then size - shift else 0
  }

  /** Writes the user ids of a page of the leaderboard and returns how many there are. */
  method GetTopHundred(tree: RBTree, shift: nat, count: int, users: array<int>) returns (n: int)
    requires tree.Valid()
    requires PageLength(|tree.Keys()|, shift, count) <= users.Length
    requires shift + PageLength(|tree.Keys()|, shift, count) < |tree.Keys()| || Ends(tree)
    modifies users
    ensures 0 <= count <= old(|tree.Keys()|) - shift ==> n == count
    ensures count > old(|tree.Keys()|) - shift ==> n == Rest(old(|tree.Keys()|), shift)
    ensures count < 0 <= shift + count ==> n == 0
    ensures shift + count < 0 ==> n == Rest(old(|tree.Keys()|), shift)
    ensures n > 0 ==> shift + n <= old(|tree.Keys()|)
    ensures forall j :: 0 <= j < n ==> users[j] == old(tree.Keys())[shift + j].userId
  {
    WalkMatchesTree(tree.shape);
    var it := tree.ByIndex(shift);
    n := PageLength(tree.Size(), shift, count);
    if n < 0 {
      return 0;
    }
    FillPage(tree, shift, n, it, users);
  }

  /** The loop over the page, with the iterator one step ahead. */
  method FillPage(tree: RBTree, ghost shift: nat, n: nat, first: Node?, users: array<int>)
    requires tree.Valid() && n <= users.Length && (n > 0 ==> shift + n <= |tree.Keys()|)
    requires shift + n < |tree.Keys()| || Ends(tree)
    requires |tree.shape.Walk()| == |tree.Keys()| && (shift < |tree.Keys()| ==> first == tree.shape.Walk()[shift])
    modifies users
    ensures n > 0 ==> shift + n <= old(|tree.Keys()|)
    ensures forall j :: 0 <= j < n ==> users[j] == old(tree.Keys())[shift + j].userId
  {
    ghost var keys := tree.Keys();
    var i, it := 0, first;
    while i < n
      invariant 0 <= i <= n && tree.Valid() && tree.Keys() == keys
      invariant shift + n < |keys| || Ends(tree)
      invariant shift + i < |tree.shape.Walk()| ==> it == tree.shape.Walk()[shift + i]
      invariant forall j :: 0 <= j < i ==> users[j] == keys[shift + j].userId
    {
      it := PutUserAndStep(tree, users, i, it, shift + i);
      i := i + 1;
    }
  }

  method PutUserAndStep(tree: RBTree, users: array<int>, i: nat, it: Node, ghost k: nat) returns (next: Node?)
    requires tree.Valid() && k < |tree.shape.Walk()| && it == tree.shape.Walk()[k] && i < users.Length
    requires k + 1 < |tree.shape.Walk()| || Ends(tree)
    modifies users
    ensures tree.Valid() && tree.Keys() == old(tree.Keys()) && Ends(tree) == old(Ends(tree)) && k < |tree.Keys()|
    ensures k + 1 < |tree.shape.Walk()| ==> next == tree.shape.Walk()[k + 1]
    ensures users[i] == tree.Keys()[k].userId
    ensures forall j :: 0 <= j < users.Length && j != i ==> users[j] == old(users[j])
  {
    PutUser(tree, users, i, it, k);
    next := Next(tree, it, k);
  }

  method PutUser(tree: RBTree, users: array<int>, i: nat, it: Node, ghost k: nat)
    requires tree.Valid() && k < |tree.shape.Walk()| && it == tree.shape.Walk()[k] && i < users.Length
    modifies users
    ensures tree.Valid() && tree.Keys() == old(tree.Keys()) && k < |tree.Keys()|
    ensures users[i] == tree.Keys()[k].userId
    ensures forall j :: 0 <= j < users.Length && j != i ==> users[j] == old(users[j])
    ensures Ends(tree) == old(Ends(tree))
  {
    WalkMatchesTree(tree.shape);
    users[i] := it.value.userId;
  }

  /** The rank of a user's index entry; an absent entry leaves what `rank` held plus the entries ahead of it. */
  method GetUserRank(tree: RBTree, entry: ScoreIndex, rank: int) returns (r: int)
    requires tree.Valid()
    ensures entry in tree.Keys() ==> 0 <= r < |tree.Keys()| && tree.Keys()[r] == entry
    ensures entry !in tree.Keys() ==> r == rank + Rank(tree.Keys(), entry)
  {
    WalkMatchesTree(tree.shape);
    var (n, found) := tree.Search(entry, rank);
    r := found;
  }

  /** Looking up by position and looking up by key are inverse to each other. */
  lemma RankAndPositionAreInverse(tree: RBTree, i: int, rank: int)
    requires tree.Valid() && 0 <= i < |tree.Keys()|
    ensures tree.Search(tree.Keys()[i], rank) == (tree.ByIndex(i), i)
    ensures tree.ByIndex(tree.Search(tree.Keys()[i], rank).1) == tree.Search(tree.Keys()[i], rank).0
  {
  }

  /** Takes the entry out and puts it back; `ok` is false where taking it out follows a null parent. */
  method ChangeUser(tree: RBTree, entry: ScoreIndex) returns (ok: bool)
    requires tree.Valid()
    modifies tree, tree.shape.Nodes(), tree.removed
    ensures tree.Valid()
    ensures ok == !(entry.userId >= 1010 && entry in old(tree.Keys()) && |old(tree.Keys())| == 1
                    && old(tree.root != null && tree.root.parent == null))
    ensures tree.Tree() == if entry.userId < 1010 || !ok then old(tree.Tree())
      else T.Apply(T.Apply(old(tree.Tree()), T.Drop(entry)), T.Put(entry))
    ensures entry.userId >= 1010 && entry !in old(tree.Keys()) ==>
      tree.Keys() == InsertSorted(old(tree.Keys()), entry)
    ensures entry.userId >= 1010 && entry in old(tree.Keys()) ==>
      PutBack(old(tree.Keys()), old(tree.Tree()), Rank(old(tree.Keys()), entry), entry, tree.Keys())
  {
    if entry.userId < 1010 {
      return true;
    }
    ghost var i;
    ChangeKeys(tree.Tree(), entry);
    ok, i := tree.MyDelete(entry);
    if ok {
      tree.Insert(entry);
    }
  }

  /** Of `keys`, those of `t`, the i-th is `v`, and all stay but its successor if its node has two children. */
  predicate PutBack(keys: seq<ScoreIndex>, t: T.Tree, i: nat, v: ScoreIndex, after: seq<ScoreIndex>) {
    && i < |keys| == T.Size(t) && keys[i] == v && (T.TwoChildrenAt(t, i) ==> i + 1 < |keys|)
    && after == if T.TwoChildrenAt(t, i) then keys[..i + 1] + keys[i + 2..] else keys
  }

  lemma ChangeKeys(t: T.Tree, v: ScoreIndex)
    requires T.Valid(t)
    ensures var keys, after := T.InOrder(t), T.InOrder(T.Apply(T.Apply(t, T.Drop(v)), T.Put(v)));
      && (v !in keys ==> after == InsertSorted(keys, v))
      && (v in keys ==> PutBack(keys, t, Rank(keys, v), v, after))
  {
    T.DropKeys(t, v);
    if v in T.InOrder(t) {
      ChangeUserLosesSuccessor(t, Rank(T.InOrder(t), v));
    } else {
      T.InsertIsCorrect(t, v);
    }
  }

  /** Taking an entry out and putting it back loses the next entry exactly when its node has two children. */
  lemma ChangeUserLosesSuccessor(t: T.Tree, i: nat)
    requires T.Valid(t) && i < T.Size(t)
    ensures var v := T.InOrder(t)[i];
      var keys := T.InOrder(T.Apply(T.Apply(t, T.Drop(v)), T.Put(v)));
      && (T.TwoChildrenAt(t, i) ==> i + 1 < T.Size(t) && keys == T.InOrder(t)[..i + 1] + T.InOrder(t)[i + 2..])
      && (!T.TwoChildrenAt(t, i) ==> keys == T.InOrder(t))
  {
    var s, j := T.InOrder(t), if T.TwoChildrenAt(t, i) then i + 2 else i + 1;
    if T.Size(t) == 1 {
      T.InsertIsCorrect(t, s[i]);
      assert s == [s[0]];
      return;
    }
    T.DropByKey(t, i);
    T.InsertIsCorrect(T.DeleteAt(t, i), s[i]);
    Reinsert(s, i, j);
    assert s == s[..i + 1] + s[i + 1..];
  }

  lemma Reinsert(s: seq<ScoreIndex>, i: nat, j: nat)
    requires Sorted(s) && i < j <= |s|
    ensures InsertSorted(s[..i] + s[j..], s[i]) == s[..i + 1] + s[j..]
  {
    InsertBetween(s[..i], s[i], s[j..]);
    assert s[..i] + [s[i]] == s[..i + 1];
  }

  lemma {:induction false} InsertBetween(a: seq<ScoreIndex>, v: ScoreIndex, b: seq<ScoreIndex>)
    requires forall x :: x in a ==> Less(x, v)
    requires forall x :: x in b ==> Less(v, x)
    ensures InsertSorted(a + b, v) == a + [v] + b
  {
    if a == [] {
      assert a + b == b && (b != [] ==> b[0] in b);
    } else {
      assert (a + b)[1..] == a[1..] + b;
      InsertBetween(a[1..], v, b);
    }
  }

  /** Deleting the root of a three-key tree takes two keys with it. */
  lemma DeleteCanTakeTwoKeys(a: ScoreIndex, b: ScoreIndex, c: ScoreIndex)
    requires Less(a, b) && Less(b, c)
    ensures var t := T.Node(T.BLACK, One(T.BLACK, a), b, One(T.BLACK, c));
      T.Valid(t) && T.InOrder(t) == [a, b, c] && T.InOrder(T.Apply(t, T.Drop(b))) == [a]
  {
    var t := T.Node(T.BLACK, One(T.BLACK, a), b, One(T.BLACK, c));
    assert T.InOrder(t) == [a, b, c];
    T.DropByKey(t, 1);
  }

  // ---- Trees with a link left over on the root

  /** Two keys in order leave the root's parent link on its left child: past the last entry comes the last entry. */
  method InsertForwards(a: ScoreIndex, b: ScoreIndex) returns (tree: RBTree)
    requires Less(a, b)
    ensures tree.Valid() && tree.Keys() == [a, b] && tree.root != null && tree.root.parent != null
    ensures Ends(tree) && tree.root == LastOf(tree.shape) && AfterLast(tree) == tree.root
  {
    ForwardsTrees(a, b);
    tree := InsertTwo(a, b);
    ghost var s := tree.shape;
    LeafShape(s.left);
    assert s.right.Nil? && s.left.Walk() == [s.left.node];
    assert s.Walk() == [s.left.node, s.node];
    assert tree.root.parent == s.left.node && s.left.node !in tree.removed;
    assert s.left.node !in RightSpine(s);
    LandsBeforeOthers(s, tree.removed);
  }

  /** Three keys from the last to the first leave the root's parent link on its right child. */
  method InsertBackwards(a: ScoreIndex, b: ScoreIndex, c: ScoreIndex) returns (tree: RBTree)
    requires Less(a, b) && Less(b, c)
    ensures tree.Valid() && tree.Tree() == T.Node(T.BLACK, One(T.BLACK, a), b, One(T.BLACK, c))
    ensures tree.Keys() == [a, b, c] && tree.root != null && !Ends(tree) && tree.removed == {}
    ensures tree.root.parent == tree.shape.right.Root() && fresh(tree) && fresh(tree.shape.Nodes())
  {
    BackwardsTrees(a, b, c);
    tree := InsertTwo(c, b);
    ghost var two := tree.shape.Nodes();
    assert fresh(two);
    label Third:
    tree.Insert(a);
    forall n | n in tree.shape.Nodes()
      ensures fresh(n)
    {
      assert n in two || n in tree.shape.Nodes() - two;
      assert n in two || !old@Third(allocated(n));
    }
    assert tree.root.parent == tree.root.rightNode == tree.shape.right.Root();
    LinkToRightGoesRound(tree.shape);
  }

  method InsertTwo(first: ScoreIndex, second: ScoreIndex) returns (tree: RBTree)
    ensures tree.Valid() && tree.Tree() == T.Insert(T.Insert(T.Leaf, first), second) && tree.removed == {}
    ensures fresh(tree) && fresh(tree.shape.Nodes()) && tree.root != null
    ensures T.Insert(T.Leaf, first).Node? && tree.shape.Bin?
    ensures LeavesParent(T.Descend(T.Insert(T.Leaf, first), second), tree.root, null)
  {
    tree := new RBTree();
    tree.Insert(first);
    ghost var one := tree.shape.Nodes();
    assert one == one - Nil.Nodes() && fresh(one);
    label Second:
    tree.Insert(second);
    forall n | n in tree.shape.Nodes()
      ensures fresh(n)
    {
      assert n in one || n in tree.shape.Nodes() - one;
      assert n in one || !old@Second(allocated(n));
    }
  }

  lemma LinkToRightGoesRound(s: Shape)
    requires s.Bin? && s.right.Bin? && s.node.parent == s.right.node
    ensures GoesRound(s, {})
  {
  }

  /** Deleting the last of them leaves the link on a removed node, from where it leads back to the root. */
  method DropLastOfThree(a: ScoreIndex, b: ScoreIndex, c: ScoreIndex) returns (tree: RBTree)
    requires Less(a, b) && Less(b, c)
    ensures tree.Valid() && tree.root != null && tree.root.parent in tree.removed && !Ends(tree)
  {
    tree := InsertBackwards(a, b, c);
    ghost var s := tree.shape;
    ghost var last := s.right.node;
    LeafShape(s.left);
    LeafShape(s.right);
    ThreeNodes(s);
    RankIsPosition(tree.Keys(), 2);
    var ok, i := tree.MyDelete(c);
    LinkToRemovedGoesRound(tree.shape, tree.removed, last);
  }

  lemma ThreeNodes(s: Shape)
    requires s.Bin? && s.left.Bin? && s.right.Bin? && Linked(s)
    requires s.left == Bin(Nil, s.left.node, Nil) && s.right == Bin(Nil, s.right.node, Nil)
    ensures s.Walk() == [s.left.node, s.node, s.right.node]
    ensures ShapeAt(s, 2) == s.right && PutAt(s, 2, Nil) == Bin(s.left, s.node, Nil)
    ensures s.right.node.parent == s.node && s.right.node !in Bin(s.left, s.node, Nil).Nodes()
  {
    assert s.left.Walk() == [s.left.node] && s.right.Walk() == [s.right.node];
  }

  lemma LinkToRemovedGoesRound(s: Shape, removed: set<Node>, m: Node)
    requires s.Bin? && s.node.parent == m && m in removed && m.parent == s.node && s.node !in removed
    ensures GoesRound(s, removed)
  {
    assert Landing(s.node, removed - {m}) == s.node;
  }

  /** Deleting the other two leaves a lone key that no deletion takes out. */
  method LoneKeyStays(a: ScoreIndex, b: ScoreIndex, c: ScoreIndex) returns (tree: RBTree)
    requires Less(a, b) && Less(b, c)
    ensures tree.Valid() && tree.Keys() == [b]
  {
    tree := InsertBackwards(a, b, c);
    LoneTrees(a, b, c);
    var ok, i := tree.MyDelete(a);
    ok, i := tree.MyDelete(c);
    assert tree.root.parent != null;
    ok, i := tree.MyDelete(b);
    assert ok;
  }

  /** The only key ever inserted cannot be deleted: its node has no parent to follow. */
  method FirstKeyCannotGo(a: ScoreIndex) returns (tree: RBTree, ok: bool)
    ensures tree.Valid() && tree.Keys() == [a] && !ok
  {
    tree := new RBTree();
    tree.Insert(a);
    assert tree.Keys() == [a] by {
      assert T.Insert(T.Leaf, a) == One(T.BLACK, a);
    }
    ghost var i;
    ok, i := tree.MyDelete(a);
  }

  lemma LeafShape(s: Shape)
    requires Abs(s).Node? && Abs(s).left.Leaf? && Abs(s).right.Leaf?
    ensures s == Bin(Nil, s.node, Nil)
  {
  }

  function One(color: T.Color, v: ScoreIndex): (t: T.Tree)
    ensures T.InOrder(t) == [v] && T.LeftLeaning(t)
  {
    T.Node(color, T.Leaf, v, T.Leaf)
  }

  lemma BackwardsTrees(a: ScoreIndex, b: ScoreIndex, c: ScoreIndex)
    requires Less(a, b) && Less(b, c)
    ensures T.Insert(T.Leaf, c) == One(T.BLACK, c)
    ensures T.Insert(One(T.BLACK, c), b) == T.Node(T.BLACK, One(T.RED, b), c, T.Leaf)
    ensures T.Descend(T.Node(T.BLACK, One(T.RED, b), c, T.Leaf), a) ==
      T.Node(T.BLACK, T.Node(T.RED, One(T.RED, a), b, T.Leaf), c, T.Leaf)
    ensures T.Insert(T.Node(T.BLACK, One(T.RED, b), c, T.Leaf), a) ==
      T.Node(T.BLACK, One(T.BLACK, a), b, One(T.BLACK, c))
    ensures T.InOrder(T.Node(T.BLACK, One(T.BLACK, a), b, One(T.BLACK, c))) == [a, b, c]
  {
    assert T.InsertBelow(T.Leaf, b) == One(T.RED, b) && T.InsertBelow(T.Leaf, a) == One(T.RED, a);
    assert T.Descend(One(T.BLACK, c), b) == T.Node(T.BLACK, One(T.RED, b), c, T.Leaf);
    var below := T.Node(T.RED, One(T.RED, a), b, T.Leaf);
    assert T.Descend(One(T.RED, b), a) == below;
    assert T.InsertBelow(One(T.RED, b), a) == below;
  }

  lemma ForwardsTrees(a: ScoreIndex, b: ScoreIndex)
    requires Less(a, b)
    ensures T.Insert(T.Leaf, a) == One(T.BLACK, a)
    ensures T.Descend(One(T.BLACK, a), b) == T.Node(T.BLACK, T.Leaf, a, One(T.RED, b))
    ensures T.Insert(One(T.BLACK, a), b) == T.Node(T.BLACK, One(T.RED, a), b, T.Leaf)
    ensures T.InOrder(T.Node(T.BLACK, One(T.RED, a), b, T.Leaf)) == [a, b]
  {
    assert T.InsertBelow(T.Leaf, b) == One(T.RED, b);
  }

  lemma LoneTrees(a: ScoreIndex, b: ScoreIndex, c: ScoreIndex)
    requires Less(a, b) && Less(b, c)
    ensures var t := T.Node(T.BLACK, One(T.BLACK, a), b, One(T.BLACK, c));
      T.InOrder(T.Apply(t, T.Drop(a))) == [b, c] && T.InOrder(T.Apply(T.Apply(t, T.Drop(a)), T.Drop(c))) == [b]
  {
    var t := T.Node(T.BLACK, One(T.BLACK, a), b, One(T.BLACK, c));
    assert T.InOrder(t) == [a, b, c] && T.Valid(t);
    DropEnd(t, 0);
    DropEnd(T.Apply(t, T.Drop(a)), 1);
  }

  lemma DropEnd(t: T.Tree, i: nat)
    requires T.Valid(t) && 1 < T.Size(t) && (i == 0 || i == T.Size(t) - 1)
    ensures var s := T.InOrder(t);
      && T.Valid(T.Apply(t, T.Drop(s[i]))) && T.InOrder(T.Apply(t, T.Drop(s[i]))) == s[..i] + s[i + 1..]
  {
    T.DropByKey(t, i);
    T.EndsHaveOneChild(t);
  }
}
