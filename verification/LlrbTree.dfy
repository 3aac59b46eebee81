/** The left-leaning red-black tree as a value, without parent links or counts. */
module LlrbTree {
  import opened Scores

  datatype Color = RED | BLACK

  datatype Tree = Leaf | Node(color: Color, left: Tree, value: ScoreIndex, right: Tree)

  function InOrder(t: Tree): seq<ScoreIndex> {
    match t
    case Leaf => []
    case Node(_, l, v, r) => InOrder(l) + [v] + InOrder(r)
  }

  function Size(t: Tree): (n: nat)
    ensures n == |InOrder(t)|
  {
    if t.Leaf? then 0 else Size(t.left) + 1 + Size(t.right)
  }

  function Height(t: Tree): nat {
    if t.Leaf? then 0 else 1 + if Height(t.left) < Height(t.right) then Height(t.right) else Height(t.left)
  }

  predicate IsRed(t: Tree) {
    t.Node? && t.color == RED
  }

  /** No red right link and no two reds in a row. */
  predicate LeftLeaning(t: Tree) {
    t.Node? ==>
      && !IsRed(t.right)
      && (IsRed(t) ==> !IsRed(t.left))
      && LeftLeaning(t.left)
      && LeftLeaning(t.right)
  }

  /** Like LeftLeaning, but a red root may have a red left child. */
  predicate AlmostLeftLeaning(t: Tree) {
    t.Node? ==> !IsRed(t.right) && LeftLeaning(t.left) && LeftLeaning(t.right)
  }

  /** Black nodes on the leftmost path. */
  function BlackHeight(t: Tree): nat {
    if t.Leaf? then 0 else BlackHeight(t.left) + if t.color == BLACK then 1 else 0
  }

  /** Every path to a leaf has the same number of black nodes. */
  predicate Balanced(t: Tree) {
    t.Node? ==> Balanced(t.left) && Balanced(t.right) && BlackHeight(t.left) == BlackHeight(t.right)
  }

  // ---- Insertion

  function Opposite(c: Color): Color {
    if c == RED then BLACK else RED
  }

  function RotateLeft(t: Tree): (r: Tree)
    requires t.Node? && t.right.Node?
  {
    var x := t.right;
    Node(t.color, Node(RED, t.left, t.value, x.left), x.value, x.right)
  }

  function RotateRight(t: Tree): (r: Tree)
    requires t.Node? && t.left.Node?
  {
    var x := t.left;
    Node(t.color, x.left, x.value, Node(RED, x.right, t.value, t.right))
  }

  function FlipColors(t: Tree): (r: Tree)
    requires t.Node? && t.left.Node? && t.right.Node?
  {
    Node(Opposite(t.color),
         t.left.(color := Opposite(t.left.color)), t.value,
         t.right.(color := Opposite(t.right.color)))
  }

  // The three repairs, in the order they are tried on the way back up.

  function LeanLeft(t: Tree): (r: Tree)
    requires t.Node?
    ensures r.Node?
  {
    if IsRed(t.right) then RotateLeft(t) else t
  }

  function LiftReds(t: Tree): (r: Tree)
    requires t.Node?
    ensures r.Node?
  {
    if IsRed(t.left) && IsRed(t.left.left) then RotateRight(t) else t
  }

  function Split(t: Tree): (r: Tree)
    requires t.Node?
    ensures r.Node?
  {
    if IsRed(t.left) && IsRed(t.right) then FlipColors(t) else t
  }

  function Repair(t: Tree): (r: Tree)
    requires t.Node?
    ensures r.Node?
  {
    Split(LiftReds(LeanLeft(t)))
  }

  function Descend(t: Tree, v: ScoreIndex): (r: Tree)
    requires t.Node?
    ensures r.Node?
    decreases t, 0
  {
    if Less(t.value, v) then t.(right := InsertBelow(t.right, v))
    else if Less(v, t.value) then t.(left := InsertBelow(t.left, v))
    else t
  }

  function InsertBelow(t: Tree, v: ScoreIndex): (r: Tree)
    ensures r.Node?
    decreases t, 1
  {
    if t.Leaf? then Node(RED, Leaf, v, Leaf) else Repair(Descend(t, v))
  }

  function Insert(t: Tree, v: ScoreIndex): Tree {
    var r := InsertBelow(t, v);
    Node(BLACK, r.left, r.value, r.right)
  }

  // ---- Insertion keeps order and adds exactly the value

  lemma Regroup(a: seq<ScoreIndex>, m: ScoreIndex, b: seq<ScoreIndex>, n: ScoreIndex, c: seq<ScoreIndex>)
    ensures a + [m] + (b + [n] + c) == (a + [m] + b) + [n] + c
  {
  }

  lemma RotateLeftKeepsOrder(t: Tree)
    requires t.Node? && t.right.Node?
    ensures InOrder(RotateLeft(t)) == InOrder(t)
  {
  }

  lemma RotateRightKeepsOrder(t: Tree)
    requires t.Node? && t.left.Node?
    ensures InOrder(RotateRight(t)) == InOrder(t)
  {
  }

  lemma RepairKeepsOrder(t: Tree)
    requires t.Node?
    ensures InOrder(Repair(t)) == InOrder(t)
  {
    var a := LeanLeft(t);
    if IsRed(t.right) {
      RotateLeftKeepsOrder(t);
    }
    if IsRed(a.left) && IsRed(a.left.left) {
      RotateRightKeepsOrder(a);
    }
    FlipKeepsOrder(LiftReds(a));
  }

  lemma FlipKeepsOrder(t: Tree)
    requires t.Node?
    ensures InOrder(Split(t)) == InOrder(t)
  {
  }

  lemma {:induction false} InsertBelowContents(t: Tree, v: ScoreIndex)
    requires Sorted(InOrder(t))
    ensures InOrder(InsertBelow(t, v)) == InsertSorted(InOrder(t), v)
  {
    if t.Node? {
      var l, m, r := InOrder(t.left), t.value, InOrder(t.right);
      SortedPart(l, m, r);
      RepairKeepsOrder(Descend(t, v));
      if Less(m, v) {
        InsertBelowContents(t.right, v);
        InsertSortedRight(l, m, r, v);
      } else if Less(v, m) {
        InsertBelowContents(t.left, v);
        InsertSortedLeft(l, m, r, v);
      } else {
        InsertSortedPresent(l, m, r);
      }
    }
  }

  lemma {:induction false} InsertSortedPresent(a: seq<ScoreIndex>, m: ScoreIndex, b: seq<ScoreIndex>)
    requires Sorted(a + [m] + b)
    ensures InsertSorted(a + [m] + b, m) == a + [m] + b
  {
    var s := a + [m] + b;
    if a == [] {
      assert s[0] == m;
    } else {
      assert s[|a|] == m && Less(s[0], s[|a|]);
      assert s[1..] == a[1..] + [m] + b;
      InsertSortedPresent(a[1..], m, b);
    }
  }

  // ---- Insertion keeps the shape

  /** What one recursive call gives back: a red root may keep a red left child only if it was red before. */
  lemma {:induction false} InsertBelowLeans(t: Tree, v: ScoreIndex)
    requires LeftLeaning(t)
    ensures var r := InsertBelow(t, v);
      AlmostLeftLeaning(r) && (IsRed(t) ==> IsRed(r)) && (!IsRed(t) ==> LeftLeaning(r))
  {
    if t.Node? {
      if Less(t.value, v) {
        InsertBelowLeans(t.right, v);
      } else if Less(v, t.value) {
        InsertBelowLeans(t.left, v);
      }
    }
  }

  lemma {:induction false} InsertBelowBalances(t: Tree, v: ScoreIndex)
    requires LeftLeaning(t) && Balanced(t)
    ensures Balanced(InsertBelow(t, v))
    ensures BlackHeight(InsertBelow(t, v)) == BlackHeight(t)
  {
    if t.Node? {
      if Less(t.value, v) {
        InsertBelowBalances(t.right, v);
        InsertBelowLeans(t.right, v);
      } else if Less(v, t.value) {
        InsertBelowBalances(t.left, v);
        InsertBelowLeans(t.left, v);
      }
    }
  }

  predicate Valid(t: Tree) {
    Sorted(InOrder(t)) && LeftLeaning(t) && !IsRed(t)
  }

  /** Insertion on a valid balanced tree gives a valid balanced tree with exactly one more key. */
  lemma InsertIsCorrect(t: Tree, v: ScoreIndex)
    requires Valid(t)
    ensures Valid(Insert(t, v)) && Insert(t, v).Node?
    ensures InOrder(Insert(t, v)) == InsertSorted(InOrder(t), v)
    ensures Balanced(t) ==> Balanced(Insert(t, v))
    ensures forall x :: x in InOrder(Insert(t, v)) <==> x in InOrder(t) || x == v
  {
    InsertBelowContents(t, v);
    InsertBelowLeans(t, v);
    InsertSortedContents(InOrder(t), v);
    if Balanced(t) {
      InsertBelowBalances(t, v);
    }
  }

  // ---- Height of a balanced tree

  function Pow2(n: nat): (p: nat)
    ensures p >= 1
  {
    if n == 0 then 1 else 2 * Pow2(n - 1)
  }

  lemma {:induction false} Pow2Sum(a: nat, b: nat)
    ensures Pow2(a + b) == Pow2(a) * Pow2(b)
  {
    if a > 0 {
      Pow2Sum(a - 1, b);
    }
  }

  lemma {:induction false} Pow2Monotone(a: nat, b: nat)
    requires a <= b
    ensures Pow2(a) <= Pow2(b)
  {
    if a < b {
      Pow2Monotone(a, b - 1);
    }
  }

  lemma {:induction false} BlackHeightBounds(t: Tree)
    requires Balanced(t)
    ensures Size(t) + 1 >= Pow2(BlackHeight(t))
  {
    if t.Node? {
      BlackHeightBounds(t.left);
      BlackHeightBounds(t.right);
    }
  }

  lemma {:induction false} BlackHeightIsHalf(t: Tree)
    requires LeftLeaning(t) && Balanced(t)
    ensures Height(t) <= 2 * BlackHeight(t) + if IsRed(t) then 1 else 0
  {
    if t.Node? {
      BlackHeightIsHalf(t.left);
      BlackHeightIsHalf(t.right);
    }
  }

  lemma SquareMonotone(a: nat, b: nat)
    requires a <= b
    ensures a * a <= b * b
  {
    var d := b - a;
    assert b * b == a * a + 2 * a * d + d * d by {
      assert (a + d) * (a + d) == a * a + 2 * a * d + d * d;
    }
  }

  /** Twice the exponent is the square. */
  lemma Pow2Square(b: nat, n: nat)
    requires Pow2(b) <= n
    ensures Pow2(b + b) <= n * n
  {
    Pow2Sum(b, b);
    SquareMonotone(Pow2(b), n);
  }

  lemma SquareBoundsHeight(m: nat, h: nat, b: nat)
    requires Pow2(b) <= m + 1 && h <= 2 * b
    ensures (m + 1) * (m + 1) >= Pow2(h)
  {
    Pow2Square(b, m + 1);
    Pow2Monotone(h, b + b);
  }

  lemma LogarithmBounds(t: Tree)
    requires LeftLeaning(t) && !IsRed(t) && Balanced(t)
    ensures Pow2(BlackHeight(t)) <= Size(t) + 1 && Height(t) <= 2 * BlackHeight(t)
  {
    BlackHeightBounds(t);
    BlackHeightIsHalf(t);
  }

  /** The height is at most twice the base-2 logarithm of the number of keys plus one. */
  lemma HeightIsLogarithmic(t: Tree)
    requires LeftLeaning(t) && !IsRed(t) && Balanced(t)
    ensures (Size(t) + 1) * (Size(t) + 1) >= Pow2(Height(t))
  {
    LogarithmBounds(t);
    SquareBoundsHeight(Size(t), Height(t), BlackHeight(t));
  }

  // ---- Deletion

  /**
   * The subtree left after deleting its root. Both `if`s run when there are two children: the successor's key
   * comes up and its node goes, then the predecessor's key comes up and its node goes.
   */
  function DeleteRoot(t: Tree): Tree
    requires t.Node?
    decreases t, 0
  {
    if t.left.Leaf? && t.right.Leaf? then Leaf
    else
      var u := if t.right.Leaf? then t else ShiftSuccessor(t);
      if t.left.Leaf? then u else ShiftPredecessor(u)
  }

  function ShiftSuccessor(t: Tree): (u: Tree)
    requires t.Node? && t.right.Node?
    ensures u.Node? && u.left == t.left
    decreases t.right, 2
  {
    Node(t.color, t.left, InOrder(t.right)[0], DeleteAt(t.right, 0))
  }

  function ShiftPredecessor(t: Tree): Tree
    requires t.Node? && t.left.Node?
    decreases t.left, 2
  {
    var k := Size(t.left) - 1;
    Node(t.color, DeleteAt(t.left, k), InOrder(t.left)[k], t.right)
  }

  /** Without its last key, which is `v'`. */
  predicate LastTaken(l: Tree, l': Tree, v': ScoreIndex) {
    Size(l) > 0 && l' == DeleteAt(l, Size(l) - 1) && v' == InOrder(l)[Size(l) - 1]
  }

  lemma ShiftedByParts(color: Color, l: Tree, v: ScoreIndex, r: Tree, l': Tree, v': ScoreIndex)
    ensures LastTaken(l, l', v') ==>
      l.Node? && Node(color, l', v', r) == ShiftPredecessor(Node(color, l, v, r))
  {
  }

  /** Deletion at the node that holds the i-th key. */
  function DeleteAt(t: Tree, i: nat): Tree
    requires i < Size(t)
    decreases t, 1
  {
    if i < Size(t.left) then t.(left := DeleteAt(t.left, i))
    else if i == Size(t.left) then DeleteRoot(t)
    else t.(right := DeleteAt(t.right, i - Size(t.left) - 1))
  }

  /** The subtree below the node that holds the i-th key. */
  function SubtreeAt(t: Tree, i: nat): (u: Tree)
    requires i < Size(t)
    ensures u.Node?
  {
    if i < Size(t.left) then SubtreeAt(t.left, i)
    else if i == Size(t.left) then t
    else SubtreeAt(t.right, i - Size(t.left) - 1)
  }

  function ReplaceAt(t: Tree, i: nat, u: Tree): Tree
    requires i < Size(t)
  {
    if i < Size(t.left) then t.(left := ReplaceAt(t.left, i, u))
    else if i == Size(t.left) then u
    else t.(right := ReplaceAt(t.right, i - Size(t.left) - 1, u))
  }

  lemma {:induction false} DeleteAtReplaces(t: Tree, i: nat)
    requires i < Size(t)
    ensures DeleteAt(t, i) == ReplaceAt(t, i, DeleteRoot(SubtreeAt(t, i)))
  {
    if i < Size(t.left) {
      DeleteAtReplaces(t.left, i);
    } else if i > Size(t.left) {
      DeleteAtReplaces(t.right, i - Size(t.left) - 1);
    }
  }

  /** Whether the node that holds the i-th key has two children. */
  predicate TwoChildrenAt(t: Tree, i: nat)
    requires i < Size(t)
  {
    SubtreeAt(t, i).left.Node? && SubtreeAt(t, i).right.Node?
  }

  /** The keys that remain: the i-th goes, and with two children its successor goes too. */
  function Remaining(s: seq<ScoreIndex>, i: nat, twoChildren: bool): seq<ScoreIndex>
    requires i < |s| && (twoChildren ==> i + 1 < |s|)
  {
    s[..i] + s[(if twoChildren then i + 2 else i + 1)..]
  }

  lemma RemainingLeft(a: seq<ScoreIndex>, m: ScoreIndex, b: seq<ScoreIndex>, i: nat, two: bool)
    requires i < |a| && (two ==> i + 1 < |a|)
    ensures Remaining(a + [m] + b, i, two) == Remaining(a, i, two) + [m] + b
  {
  }

  lemma RemainingHere(a: seq<ScoreIndex>, m: ScoreIndex, b: seq<ScoreIndex>, two: bool)
    requires two ==> b != []
    ensures Remaining(a + [m] + b, |a|, two) == a + if two then b[1..] else b
  {
  }

  lemma RemainingRight(a: seq<ScoreIndex>, m: ScoreIndex, b: seq<ScoreIndex>, i: nat, two: bool)
    requires |a| < i < |a| + 1 + |b| && (two ==> i < |a| + |b|)
    ensures Remaining(a + [m] + b, i, two) == a + [m] + Remaining(b, i - |a| - 1, two)
  {
  }

  /** The first and the last node have at most one child. */
  lemma {:induction false} EndsHaveOneChild(t: Tree)
    requires t.Node?
    ensures !TwoChildrenAt(t, 0) && !TwoChildrenAt(t, Size(t) - 1)
  {
    if t.left.Node? {
      EndsHaveOneChild(t.left);
    }
    if t.right.Node? {
      EndsHaveOneChild(t.right);
    }
  }

  lemma {:induction false} DeleteRootContents(t: Tree)
    requires t.Node?
    ensures InOrder(DeleteRoot(t)) ==
      InOrder(t.left) + if t.left.Node? && t.right.Node? then InOrder(t.right)[1..] else InOrder(t.right)
    decreases t, 0
  {
    if t.right.Node? {
      DeleteFirstContents(t.right);
    }
    if t.left.Node? {
      DeleteLastContents(t.left);
    }
  }

  lemma {:induction false} DeleteFirstContents(t: Tree)
    requires t.Node?
    ensures [InOrder(t)[0]] + InOrder(DeleteAt(t, 0)) == InOrder(t)
    ensures InOrder(DeleteAt(t, 0)) == InOrder(t)[1..]
    decreases t, 2
  {
    EndsHaveOneChild(t);
    DeleteAtContents(t, 0);
  }

  lemma {:induction false} DeleteLastContents(t: Tree)
    requires t.Node?
    ensures InOrder(DeleteAt(t, Size(t) - 1)) + [InOrder(t)[Size(t) - 1]] == InOrder(t)
    decreases t, 2
  {
    EndsHaveOneChild(t);
    DeleteAtContents(t, Size(t) - 1);
  }

  lemma {:induction false} DeleteAtContents(t: Tree, i: nat)
    requires i < Size(t)
    ensures TwoChildrenAt(t, i) ==> i + 1 < Size(t)
    ensures InOrder(DeleteAt(t, i)) == Remaining(InOrder(t), i, TwoChildrenAt(t, i))
    decreases t, 1
  {
    var l, m, r, two := InOrder(t.left), t.value, InOrder(t.right), TwoChildrenAt(t, i);
    if i < |l| {
      DeleteAtContents(t.left, i);
      RemainingLeft(l, m, r, i, two);
    } else if i == |l| {
      DeleteRootContents(t);
      RemainingHere(l, m, r, two);
    } else {
      var j := i - |l| - 1;
      DeleteAtContents(t.right, j);
      RemainingRight(l, m, r, i, two);
    }
  }

  lemma {:induction false} DeleteRootShape(t: Tree)
    requires t.Node? && LeftLeaning(t)
    ensures LeftLeaning(DeleteRoot(t))
    ensures IsRed(DeleteRoot(t)) ==> IsRed(t)
    decreases t, 0
  {
    if t.right.Node? {
      DeleteAtShape(t.right, 0);
    }
    if t.left.Node? {
      DeleteAtShape(t.left, Size(t.left) - 1);
    }
  }

  lemma {:induction false} DeleteAtShape(t: Tree, i: nat)
    requires i < Size(t) && LeftLeaning(t)
    ensures LeftLeaning(DeleteAt(t, i))
    ensures IsRed(DeleteAt(t, i)) ==> IsRed(t)
    decreases t, 1
  {
    if i < Size(t.left) {
      DeleteAtShape(t.left, i);
    } else if i == Size(t.left) {
      DeleteRootShape(t);
    } else {
      DeleteAtShape(t.right, i - Size(t.left) - 1);
    }
  }

  /** Deletion keeps order, colour rules and a black root, though not black height. */
  lemma DeleteIsCorrect(t: Tree, i: nat)
    requires Valid(t) && i < Size(t)
    ensures Valid(DeleteAt(t, i))
    ensures TwoChildrenAt(t, i) ==> i + 1 < Size(t)
    ensures InOrder(DeleteAt(t, i)) == Remaining(InOrder(t), i, TwoChildrenAt(t, i))
  {
    DeleteAtContents(t, i);
    DeleteAtShape(t, i);
  }

  // ---- Histories

  datatype Op = Put(value: ScoreIndex) | Drop(value: ScoreIndex)

  /** A lone key is never taken out: a leaf is only unlinked from a node that holds it. */
  function Apply(t: Tree, op: Op): Tree {
    match op
    case Put(v) => Insert(t, v)
    case Drop(v) =>
      var i := Rank(InOrder(t), v);
      if 1 < Size(t) && i < Size(t) && InOrder(t)[i] == v then DeleteAt(t, i) else t
  }

  /** Deletion by the key of a position is deletion at it, unless the key is alone. */
  lemma DropByKey(t: Tree, i: nat)
    requires Valid(t) && i < Size(t) && 1 < Size(t)
    ensures Apply(t, Drop(InOrder(t)[i])) == DeleteAt(t, i) && Valid(DeleteAt(t, i))
    ensures TwoChildrenAt(t, i) ==> i + 1 < Size(t)
    ensures InOrder(DeleteAt(t, i)) == Remaining(InOrder(t), i, TwoChildrenAt(t, i))
  {
    RankIsPosition(InOrder(t), i);
    DeleteIsCorrect(t, i);
  }

  /** Deletion of an absent key changes nothing; of a present one it leaves the remaining keys, a lone one stays. */
  lemma DropKeys(t: Tree, v: ScoreIndex)
    requires Valid(t)
    ensures v !in InOrder(t) ==> Apply(t, Drop(v)) == t
    ensures v in InOrder(t) ==> RemainAfter(InOrder(t), t, Rank(InOrder(t), v), v, InOrder(Apply(t, Drop(v))))
  {
    if v in InOrder(t) {
      var i :| 0 <= i < |InOrder(t)| && InOrder(t)[i] == v;
      RankIsPosition(InOrder(t), i);
      DeleteAtContents(t, i);
    }
  }

  /** Of `keys`, those of `t`, the i-th is `v`; without it, and its successor if its node has two children, remain. */
  predicate RemainAfter(keys: seq<ScoreIndex>, t: Tree, i: nat, v: ScoreIndex, remain: seq<ScoreIndex>) {
    && i < |keys| == Size(t) && keys[i] == v && (TwoChildrenAt(t, i) ==> i + 1 < |keys|)
    && remain == if |keys| == 1 then keys else Remaining(keys, i, TwoChildrenAt(t, i))
  }

  function Run(t: Tree, ops: seq<Op>): Tree
    decreases |ops|
  {
    if ops == [] then t else Run(Apply(t, ops[0]), ops[1..])
  }

  /** Every tree reached by inserts and deletes is ordered and left-leaning with a black root. */
  lemma {:induction false} EveryHistoryIsValid(t: Tree, ops: seq<Op>)
    requires Valid(t)
    ensures Valid(Run(t, ops))
    decreases |ops|
  {
    if ops != [] {
      if ops[0].Put? {
        InsertIsCorrect(t, ops[0].value);
      } else if Apply(t, ops[0]) != t {
        DeleteIsCorrect(t, Rank(InOrder(t), ops[0].value));
      }
      EveryHistoryIsValid(Apply(t, ops[0]), ops[1..]);
    }
  }

  lemma {:induction false} RunOfLast(t: Tree, ops: seq<Op>, op: Op)
    ensures Run(t, ops + [op]) == Apply(Run(t, ops), op)
    decreases |ops|
  {
    if ops != [] {
      assert (ops + [op])[1..] == ops[1..] + [op];
      RunOfLast(Apply(t, ops[0]), ops[1..], op);
    }
  }

  /**
   * What one more operation does after any history: an insertion adds its value and loses no key; a deletion changes
   * nothing unless its value is among the keys, and then takes out that one and at most the next.
   */
  lemma EveryOperationInAHistory(t: Tree, ops: seq<Op>, op: Op)
    requires Valid(t)
    ensures var u, r := Run(t, ops), Run(t, ops + [op]);
      && (op.Put? ==> forall v :: v in InOrder(r) <==> v in InOrder(u) || v == op.value)
      && (op.Put? && op.value in InOrder(u) ==> InOrder(r) == InOrder(u))
      && (op.Drop? && op.value !in InOrder(u) ==> r == u)
      && (op.Drop? && op.value in InOrder(u) ==>
            RemainAfter(InOrder(u), u, Rank(InOrder(u), op.value), op.value, InOrder(r)))
  {
    EveryHistoryIsValid(t, ops);
    RunOfLast(t, ops, op);
    if op.Put? {
      InsertAddsOne(Run(t, ops), op.value);
    } else {
      DropKeys(Run(t, ops), op.value);
    }
  }

  lemma InsertAddsOne(t: Tree, v: ScoreIndex)
    requires Valid(t)
    ensures forall x :: x in InOrder(Insert(t, v)) <==> x in InOrder(t) || x == v
    ensures v in InOrder(t) ==> InOrder(Insert(t, v)) == InOrder(t)
  {
    InsertIsCorrect(t, v);
    if v in InOrder(t) {
      InsertSortedAgain(InOrder(t), v);
    }
  }

  lemma InsertSortedAgain(s: seq<ScoreIndex>, v: ScoreIndex)
    requires Sorted(s) && v in s
    ensures InsertSorted(s, v) == s
  {
    var i :| 0 <= i < |s| && s[i] == v;
    assert s == s[..i] + [v] + s[i + 1..];
    InsertSortedPresent(s[..i], v, s[i + 1..]);
  }

  /** Users taken out and put back one after the other. */
  function Changes(entries: seq<ScoreIndex>): seq<Op> {
    if entries == [] then [] else [Drop(entries[0]), Put(entries[0])] + Changes(entries[1..])
  }

  /** Changing users who are not in the index yet adds them all and loses none. */
  lemma {:induction false} NewUsersAreAdded(t: Tree, entries: seq<ScoreIndex>)
    requires Valid(t) && forall v <- entries :: v !in InOrder(t)
    requires forall x, y :: 0 <= x < y < |entries| ==> entries[x] != entries[y]
    ensures Valid(Run(t, Changes(entries)))
    ensures forall v :: v in InOrder(Run(t, Changes(entries))) <==> v in InOrder(t) || v in entries
    decreases |entries|
  {
    if entries != [] {
      var v, ops, u := entries[0], Changes(entries), Insert(t, entries[0]);
      DropKeys(t, v);
      InsertIsCorrect(t, v);
      assert ops[0] == Drop(v) && ops[1..][0] == Put(v) && ops[1..][1..] == Changes(entries[1..]);
      assert Run(t, ops) == Run(u, Changes(entries[1..]));
      assert forall x <- entries[1..] :: x in entries && x != v;
      NewUsersAreAdded(u, entries[1..]);
      assert entries == [v] + entries[1..];
    }
  }

  /** Insert-only histories also stay balanced, so their search depth is logarithmic. */
  lemma {:induction false} InsertOnlyHistoryIsShallow(t: Tree, ops: seq<Op>)
    requires Valid(t) && Balanced(t)
    requires forall op :: op in ops ==> op.Put?
    ensures Balanced(Run(t, ops))
    ensures var n := Size(Run(t, ops)); (n + 1) * (n + 1) >= Pow2(Height(Run(t, ops)))
    decreases |ops|
  {
    if ops == [] {
      HeightIsLogarithmic(t);
    } else {
      assert ops[0] in ops;
      InsertIsCorrect(t, ops[0].value);
      InsertOnlyHistoryIsShallow(Apply(t, ops[0]), ops[1..]);
    }
  }
}
