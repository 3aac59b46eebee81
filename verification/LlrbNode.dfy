/** Tree nodes with parent links and subtree counts, and their in-place link and count updates. */
module LlrbNode {
  import opened Scores
  import T = LlrbTree

  /** The pointers of a subtree as a value: which node hangs where. */
  datatype Shape = Nil | Bin(left: Shape, node: Node, right: Shape) {
    ghost function Nodes(): set<Node> {
      if Nil? then {} else left.Nodes() + {node} + right.Nodes()
    }

    ghost function Root(): Node? {
      if Nil? then null else node
    }

    /** Nodes from left to right. */
    ghost function Walk(): seq<Node> {
      if Nil? then [] else left.Walk() + [node] + right.Walk()
    }

    ghost function Count(): nat {
      if Nil? then 0 else left.Count() + 1 + right.Count()
    }
  }

  /** What surrounds a subtree: the ancestors from the holder up, each with its other subtree. */
  datatype Context =
    | Top
    | UnderLeft(node: Node, right: Shape, up: Context)
    | UnderRight(left: Shape, node: Node, up: Context)
  {
    ghost function Sibling(): Shape
      requires !Top?
    {
      if UnderLeft? then right else left
    }

    ghost function Nodes(): set<Node> {
      if Top? then {} else {node} + Sibling().Nodes() + up.Nodes()
    }

    ghost function Holder(): Node? {
      if Top? then null else node
    }

    ghost function Depth(): nat {
      if Top? then 0 else 1 + up.Depth()
    }
  }

  class Node {
    var color: T.Color
    var leftNode: Node?
    var rightNode: Node?
    var parent: Node?
    var childsNumber: int
    var value: ScoreIndex

    constructor (v: ScoreIndex)
      ensures color == T.RED && leftNode == null && rightNode == null && parent == null
      ensures childsNumber == 1 && value == v
    {
      color, value, childsNumber := T.RED, v, 1;
      leftNode, rightNode, parent := null, null, null;
    }

    /** The count field agrees with the count fields of the two children. */
    ghost predicate Exact()
      reads this`childsNumber, this`leftNode, this`rightNode
      reads ({leftNode, rightNode} - {null})`childsNumber
    {
      childsNumber == 1 + CountOf(leftNode) + CountOf(rightNode)
    }

    ghost predicate Holds(c: Node)
      reads this`leftNode, this`rightNode
    {
      leftNode == c || rightNode == c
    }

    /**
     * Recomputes the count from the children and, if it changed, goes on at the parent. `depth` ranks this node and
     * its ancestors; beyond the topmost the walk may follow a stale parent link, where nothing changes.
     */
    method RefreshChild(ghost depth: map<Node, nat>, ghost all: set<Node>)
      requires this in all && NoSelfLinks(all) && Ranked(depth, all)
      requires forall m <- all :: m != this ==> m.Exact()
      requires this in depth || Exact()
      modifies all`childsNumber
      ensures forall m <- all :: m.Exact()
      decreases if Exact() then 0 else 1 + if this in depth then depth[this] else 0
    {
      var before := childsNumber;
      childsNumber := 1 + (if rightNode != null then rightNode.childsNumber else 0)
                        + (if leftNode != null then leftNode.childsNumber else 0);
      forall m <- all | before == childsNumber || !m.Holds(this)
        ensures m.Exact()
      {
        assert m != this ==> old(m.Exact());
      }
      if before != childsNumber && parent != null {
        parent.RefreshChild(depth, all);
      }
    }

    method SetLeft(c: Node?, ghost depth: map<Node, nat>, ghost all: set<Node>)
      requires this in depth && Ranked(depth, all) && NoSelfLinks(all)
      requires c != null ==> c in all && c !in depth
      requires AllExact(all - {this})
      modifies this`leftNode, (if c == null then {} else {c})`parent, all`childsNumber
      ensures leftNode == c && (c != null ==> c.parent == this)
      ensures AllExact(all)
    {
      leftNode := c;
      if c != null {
        c.parent := this;
      }
      forall m <- all | m != this
        ensures m.Exact()
      {
        assert old(m.Exact());
      }
      RefreshChild(depth, all);
    }

    method SetRight(c: Node?, ghost depth: map<Node, nat>, ghost all: set<Node>)
      requires this in depth && Ranked(depth, all) && NoSelfLinks(all)
      requires c != null ==> c in all && c !in depth
      requires AllExact(all - {this})
      modifies this`rightNode, (if c == null then {} else {c})`parent, all`childsNumber
      ensures rightNode == c && (c != null ==> c.parent == this)
      ensures AllExact(all)
    {
      rightNode := c;
      if c != null {
        c.parent := this;
      }
      forall m <- all | m != this
        ensures m.Exact()
      {
        assert old(m.Exact());
      }
      RefreshChild(depth, all);
    }
  }

  ghost function CountOf(n: Node?): int
    reads ({n} - {null})`childsNumber
  {
    if n == null then 0 else n.childsNumber
  }

  ghost predicate AllExact(all: set<Node>)
    reads all`childsNumber, all`leftNode, all`rightNode
    reads (set m <- all :: m.leftNode)`childsNumber, (set m <- all :: m.rightNode)`childsNumber
  {
    forall m <- all :: m.Exact()
  }

  ghost predicate NoSelfLinks(all: set<Node>)
    reads all`leftNode, all`rightNode
  {
    forall m <- all :: m.leftNode != m && m.rightNode != m
  }

  /**
   * The nodes of `depth` are ancestors of one another: whatever holds one of them is its parent, is one of them too
   * and is less deep. Parent links never leave `all`.
   */
  ghost predicate Ranked(depth: map<Node, nat>, all: set<Node>)
    reads all`leftNode, all`rightNode, depth.Keys`parent
  {
    && depth.Keys <= all
    && (forall c <- depth.Keys :: c.parent != null ==> c.parent in all)
    && (forall m <- all :: (m.leftNode in depth ==> Above(m, m.leftNode, depth)))
    && (forall m <- all :: (m.rightNode in depth ==> Above(m, m.rightNode, depth)))
  }

  ghost predicate Above(m: Node, c: Node, depth: map<Node, nat>)
    requires c in depth
    reads c`parent
  {
    c.parent == m && m in depth && depth[m] < depth[c]
  }
}
