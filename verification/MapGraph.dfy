/** The navigation graph: its edges, the in-place computation of all next hops, and path queries. */
module MapGraph {
  import opened ShortestPaths

  datatype Point = Point(x: real, y: real)

  datatype Edge = Edge(v: nat, length: real)

  datatype Node = Node(id: nat, pos: Point, neighbors: seq<Edge>)

  datatype ShortPath = ShortPath(nextV: nat, pathDistance: real)

  /** The index of an entry in the flat table. */
  function Flat(n: nat, i: nat, j: nat): nat {
    i * n + j
  }

  lemma FlatInRange(n: nat, i: nat, j: nat)
    requires i < n && j < n
    ensures Flat(n, i, j) < n * n
  {
    assert i * n <= (n - 1) * n;
    assert (n - 1) * n == n * n - n;
  }

  lemma RowsAreApart(n: nat, i: nat, j: nat, i': nat)
    requires i < i' && j < n
    ensures i * n + j < i' * n
    decreases i' - i
  {
    if i + 1 < i' {
      RowsAreApart(n, i, j, i' - 1);
      assert (i' - 1) * n == i' * n - n;
    } else {
      assert i' * n == i * n + n;
    }
  }

  lemma FlatIsInjective(n: nat, i: nat, j: nat, i': nat, j': nat)
    requires j < n && j' < n && Flat(n, i, j) == Flat(n, i', j')
    ensures i == i' && j == j'
  {
    if i < i' {
      RowsAreApart(n, i, j, i');
    } else if i' < i {
      RowsAreApart(n, i', j', i);
    }
  }

  /** The flat table holds the next hops and distances of `t`. */
  ghost predicate Holds(a: seq<ShortPath>, t: Table, n: nat) {
    && |a| == n * n && IsTable(t, n)
    && forall i, j :: 0 <= i < n && 0 <= j < n ==> HoldsAt(a, t, n, i, j)
  }

  ghost predicate HoldsAt(a: seq<ShortPath>, t: Table, n: nat, i: nat, j: nat)
    requires |a| == n * n && IsTable(t, n) && i < n && j < n
  {
    FlatInRange(n, i, j);
    a[Flat(n, i, j)] == ShortPath(t[(i, j)].next, t[(i, j)].distance)
  }

  lemma HoldsAfterWrite(a: seq<ShortPath>, t: Table, n: nat, i: nat, j: nat, e: Entry)
    requires Holds(a, t, n) && i < n && j < n
    ensures Flat(n, i, j) < |a|
    ensures Holds(a[Flat(n, i, j) := ShortPath(e.next, e.distance)], t[(i, j) := e], n)
  {
    FlatInRange(n, i, j);
    var a', t' := a[Flat(n, i, j) := ShortPath(e.next, e.distance)], t[(i, j) := e];
    forall i', j' | 0 <= i' < n && 0 <= j' < n
      ensures HoldsAt(a', t', n, i', j')
    {
      FlatInRange(n, i', j');
      assert HoldsAt(a, t, n, i', j');
      if Flat(n, i', j') == Flat(n, i, j) {
        FlatIsInjective(n, i', j', i, j);
      }
    }
  }

  lemma ReadsEntry(a: seq<ShortPath>, t: Table, n: nat, i: nat, j: nat)
    requires Holds(a, t, n) && i < n && j < n
    ensures Flat(n, i, j) < |a|
    ensures a[Flat(n, i, j)] == ShortPath(t[(i, j)].next, t[(i, j)].distance)
  {
    FlatInRange(n, i, j);
    assert HoldsAt(a, t, n, i, j);
  }

  /** Only the entries inside the table matter. */
  lemma HoldsOther(a: seq<ShortPath>, t: Table, t': Table, n: nat)
    requires Holds(a, t, n) && IsTable(t', n)
    requires forall i, j :: 0 <= i < n && 0 <= j < n ==> t'[(i, j)] == t[(i, j)]
    ensures Holds(a, t', n)
  {
    forall i, j | 0 <= i < n && 0 <= j < n
      ensures HoldsAt(a, t', n, i, j)
    {
      assert HoldsAt(a, t, n, i, j);
    }
  }

  // ---- The edges of the node list

  /** Edges out of node `i`; a later edge to the same target replaces an earlier one. */
  function EdgesFrom(i: nat, es: seq<Edge>): Graph {
    if es == [] then map[] else EdgesFrom(i, es[..|es| - 1])[(i, es[|es| - 1].v) := es[|es| - 1].length]
  }

  function EdgesOf(nodes: seq<Node>): Graph {
    if nodes == [] then map[]
    else EdgesOf(nodes[..|nodes| - 1]) + EdgesFrom(|nodes| - 1, nodes[|nodes| - 1].neighbors)
  }

  lemma {:induction false} EdgesFromMember(i: nat, es: seq<Edge>, p: (nat, nat))
    ensures p in EdgesFrom(i, es) ==> p.0 == i && exists e <- es :: e.v == p.1 && e.length == EdgesFrom(i, es)[p]
    ensures p.0 == i && (exists e <- es :: e.v == p.1) ==> p in EdgesFrom(i, es)
  {
    if es != [] {
      var last := es[|es| - 1];
      EdgesFromMember(i, es[..|es| - 1], p);
      assert es == es[..|es| - 1] + [last];
      assert last in es;
    }
  }

  /** The graph has exactly the edges of the neighbour lists. */
  lemma {:induction false} EdgesOfMember(nodes: seq<Node>, p: (nat, nat))
    ensures p in EdgesOf(nodes) ==>
      p.0 < |nodes| && exists e <- nodes[p.0].neighbors :: e.v == p.1 && e.length == EdgesOf(nodes)[p]
    ensures p.0 < |nodes| && (exists e <- nodes[p.0].neighbors :: e.v == p.1) ==> p in EdgesOf(nodes)
  {
    if nodes != [] {
      var m := |nodes| - 1;
      EdgesOfMember(nodes[..m], p);
      EdgesFromMember(m, nodes[m].neighbors, p);
    }
  }

  ghost predicate IsMetric(dist: (Point, Point) -> real) {
    && (forall a, b :: dist(a, b) >= 0.0 && dist(a, b) == dist(b, a))
    && (forall a, b, c :: dist(a, c) <= dist(a, b) + dist(b, c))
  }

  /** The length of a line through the given points. */
  function Length(dist: (Point, Point) -> real, points: seq<Point>): real {
    if |points| < 2 then 0.0
    else Length(dist, points[..|points| - 1]) + dist(points[|points| - 2], points[|points| - 1])
  }

  datatype Path = Path(points: seq<Point>, d: real)

  class MapGraph {
    const dist: (Point, Point) -> real
    const clear: (Point, Point, real) -> bool
    var nodes: seq<Node>
    var belman: array<ShortPath>
    ghost var table: Table

    constructor (dist: (Point, Point) -> real, clear: (Point, Point, real) -> bool)
      ensures nodes == [] && WellNumbered() && this.dist == dist && this.clear == clear
    {
      this.dist, this.clear := dist, clear;
      nodes, belman, table := [], new ShortPath[0], map[];
    }

    method PushNode(p: Point) returns (id: nat)
      requires WellNumbered()
      modifies this`nodes
      ensures WellNumbered() && id == |old(nodes)| && nodes == old(nodes) + [Node(id, p, [])]
    {
      id := |nodes|;
      nodes := nodes + [Node(id, p, [])];
    }

    predicate Joined(ns: seq<Node>, i: nat, j: nat, distance: real, tankR: real)
      requires i < |ns| && j < |ns|
    {
      i != j && dist(ns[i].pos, ns[j].pos) < distance && clear(ns[i].pos, ns[j].pos, tankR)
    }

    /** The new edges from node `i` to the first `m` nodes. */
    function Reach(ns: seq<Node>, i: nat, m: nat, distance: real, tankR: real): (es: seq<Edge>)
      requires i < |ns| && m <= |ns|
    {
      if m == 0 then []
      else if Joined(ns, i, m - 1, distance, tankR)
      then Reach(ns, i, m - 1, distance, tankR) + [Edge(m - 1, dist(ns[i].pos, ns[m - 1].pos))]
      else Reach(ns, i, m - 1, distance, tankR)
    }

    /** One edge to every node joined to `i` and no other, in order of their numbers. */
    lemma {:induction false} ReachIsJoined(ns: seq<Node>, i: nat, m: nat, distance: real, tankR: real)
      requires i < |ns| && m <= |ns|
      ensures forall x :: 0 <= x < |Reach(ns, i, m, distance, tankR)| ==>
        IsJoint(ns, i, m, distance, tankR, Reach(ns, i, m, distance, tankR)[x])
      ensures forall j :: 0 <= j < m && Joined(ns, i, j, distance, tankR) ==>
        Edge(j, dist(ns[i].pos, ns[j].pos)) in Reach(ns, i, m, distance, tankR)
      ensures forall x, y :: 0 <= x < y < |Reach(ns, i, m, distance, tankR)| ==>
        Reach(ns, i, m, distance, tankR)[x].v < Reach(ns, i, m, distance, tankR)[y].v
    {
      if m > 0 {
        var before, es := Reach(ns, i, m - 1, distance, tankR), Reach(ns, i, m, distance, tankR);
        ReachIsJoined(ns, i, m - 1, distance, tankR);
        assert forall x :: 0 <= x < |before| ==> before[x].v < m - 1 && es[x] == before[x];
      }
    }

    predicate IsJoint(ns: seq<Node>, i: nat, m: nat, distance: real, tankR: real, e: Edge)
      requires i < |ns| && m <= |ns|
    {
      e.v < m && Joined(ns, i, e.v, distance, tankR) && e.length == dist(ns[i].pos, ns[e.v].pos)
    }

    /** Both loops: every node gains its edges to all others, and nothing else changes. */
    method CreateEdges(distance: real, tankR: real)
      requires WellNumbered()
      modifies this`nodes
      ensures WellNumbered() && |nodes| == |old(nodes)|
      ensures forall i :: 0 <= i < |nodes| ==>
        nodes[i] == old(nodes)[i].(
          neighbors := old(nodes)[i].neighbors + Reach(old(nodes), i, |nodes|, distance, tankR))
    {
      ghost var ns := nodes;
      for i := 0 to |nodes|
        invariant |nodes| == |ns|
        invariant forall x :: 0 <= x < i ==>
          nodes[x] == ns[x].(neighbors := ns[x].neighbors + Reach(ns, x, |ns|, distance, tankR))
        invariant forall x :: i <= x < |ns| ==> nodes[x] == ns[x]
      {
        for j := 0 to |nodes|
          invariant |nodes| == |ns|
          invariant forall x :: 0 <= x < i ==>
            nodes[x] == ns[x].(neighbors := ns[x].neighbors + Reach(ns, x, |ns|, distance, tankR))
          invariant nodes[i] == ns[i].(neighbors := ns[i].neighbors + Reach(ns, i, j, distance, tankR))
          invariant forall x :: i < x < |ns| ==> nodes[x] == ns[x]
        {
          var a, b := nodes[i].pos, nodes[j].pos;
          if i != j && dist(a, b) < distance && clear(a, b, tankR) {
            nodes := nodes[i := nodes[i].(neighbors := nodes[i].neighbors + [Edge(j, dist(a, b))])];
          }
        }
      }
      ReachesStayInside(ns, distance, tankR);
    }

    lemma ReachesStayInside(ns: seq<Node>, distance: real, tankR: real)
      ensures forall i, e :: 0 <= i < |ns| && e in Reach(ns, i, |ns|, distance, tankR) ==> e.v < |ns|
    {
      forall i, e | 0 <= i < |ns| && e in Reach(ns, i, |ns|, distance, tankR)
        ensures e.v < |ns|
      {
        ReachIsJoined(ns, i, |ns|, distance, tankR);
      }
    }

    /** The graph that edge creation gives fresh nodes: an edge exactly where two nodes are joined, as long as it is. */
    lemma CreatedGraph(ns: seq<Node>, made: seq<Node>, distance: real, tankR: real, i: nat, j: nat)
      requires |made| == |ns| && i < |ns| && j < |ns|
      requires made[i].neighbors == Reach(ns, i, |ns|, distance, tankR)
      ensures (i, j) in EdgesOf(made) <==>
        i != j && dist(ns[i].pos, ns[j].pos) < distance && clear(ns[i].pos, ns[j].pos, tankR)
      ensures (i, j) in EdgesOf(made) ==> EdgesOf(made)[(i, j)] == dist(ns[i].pos, ns[j].pos)
    {
      ReachIsJoined(ns, i, |ns|, distance, tankR);
      EdgesOfMember(made, (i, j));
    }

    /** Edges created once, no longer than the sentinel, are what the shortest-path table needs. */
    lemma CreatedGraphIsOk(ns: seq<Node>, made: seq<Node>, distance: real, tankR: real)
      requires |made| == |ns| && distance <= SENTINEL && IsMetric(dist)
      requires forall i :: 0 <= i < |ns| ==> made[i] == ns[i].(neighbors := Reach(ns, i, |ns|, distance, tankR))
      ensures GraphOk(EdgesOf(made), |made|) && Straight(made)
    {
      forall e | e in EdgesOf(made)
        ensures e.0 < |made| && e.1 < |made| && 0.0 <= EdgesOf(made)[e] < SENTINEL
        ensures EdgesOf(made)[e] == dist(made[e.0].pos, made[e.1].pos)
      {
        EdgesOfMember(made, e);
        ReachesStayInside(ns, distance, tankR);
        CreatedGraph(ns, made, distance, tankR, e.0, e.1);
      }
    }

    /** Every edge is as long as its ends are apart. */
    ghost predicate Straight(ns: seq<Node>) {
      forall e <- EdgesOf(ns) :: e.0 < |ns| && e.1 < |ns| && EdgesOf(ns)[e] == dist(ns[e.0].pos, ns[e.1].pos)
    }

    /** Nodes are numbered by position, and edges lead to nodes. */
    ghost predicate WellNumbered()
      reads this
    {
      forall i :: 0 <= i < |nodes| ==> (nodes[i].id == i && forall e <- nodes[i].neighbors :: e.v < |nodes|)
    }

    /** The finished table: least distances and consistent next hops. */
    ghost predicate Solved()
      reads this, belman
    {
      && WellNumbered() && GraphOk(EdgesOf(nodes), |nodes|)
      && Holds(belman[..], table, |nodes|)
      && AllShortest(EdgesOf(nodes), table, |nodes|, |nodes|)
      && AllContinue(EdgesOf(nodes), table, |nodes|)
    }

    /** All shortest distances and next hops, in place over one flat table. */
    method BelMan()
      requires WellNumbered() && GraphOk(EdgesOf(nodes), |nodes|)
      modifies this
      ensures Solved() && nodes == old(nodes) && fresh(belman)
    {
      var a;
      ghost var t;
      a, t := Solve(nodes);
      belman, table := a, t;
    }

    static method Solve(nodes: seq<Node>) returns (a: array<ShortPath>, ghost t: Table)
      requires forall i :: 0 <= i < |nodes| ==> (nodes[i].id == i && forall e <- nodes[i].neighbors :: e.v < |nodes|)
      requires GraphOk(EdgesOf(nodes), |nodes|)
      ensures fresh(a) && Holds(a[..], t, |nodes|)
      ensures AllShortest(EdgesOf(nodes), t, |nodes|, |nodes|) && AllContinue(EdgesOf(nodes), t, |nodes|)
    {
      var n := |nodes|;
      a := new ShortPath[n * n];
      t := InitEdges(a, nodes);
      ghost var g := EdgesOf(nodes);
      InitialIsSound(g, t, n);
      for k := 0 to n
        invariant Holds(a[..], t, n) && AllShortest(g, t, n, k) && AllContinue(g, t, n)
      {
        t := RelaxStage(a, n, k, t, g);
      }
    }

    static method RelaxStage(a: array<ShortPath>, n: nat, k: nat, ghost t: Table, ghost g: Graph)
      returns (ghost t': Table)
      requires k < n && GraphOk(g, n) && AllShortest(g, t, n, k) && AllContinue(g, t, n) && Holds(a[..], t, n)
      modifies a
      ensures Holds(a[..], t', n) && AllShortest(g, t', n, k + 1) && AllContinue(g, t', n)
    {
      assert Shortest(g, t[(k, k)], k, k, k);
      HoldsOther(a[..], t, Partly(t, n, k, 0, 0), n);
      for i := 0 to n
        invariant Holds(a[..], Partly(t, n, k, i, 0), n)
      {
        RelaxRow(a, n, k, i, t);
      }
      t' := Stage(t, n, k);
      HoldsOther(a[..], Partly(t, n, k, n, 0), t', n);
      StageIsShortest(g, t, n, k);
      StageAllContinue(g, t, n, k);
    }

    /** Every distance starts at the sentinel, also on the diagonal, and every edge sets its own entry. */
    static method InitEdges(a: array<ShortPath>, nodes: seq<Node>) returns (ghost t: Table)
      requires a.Length == |nodes| * |nodes|
      requires forall i :: 0 <= i < |nodes| ==> (nodes[i].id == i && forall e <- nodes[i].neighbors :: e.v < |nodes|)
      modifies a
      ensures Holds(a[..], t, |nodes|) && Initial(EdgesOf(nodes), t, |nodes|)
    {
      var n := |nodes|;
      for x := 0 to a.Length
        invariant forall y :: 0 <= y < x ==> a[y].pathDistance == SENTINEL
      {
        a[x] := a[x].(pathDistance := SENTINEL);
      }
      t := TableOf(a[..], n);
      TableOfIsInitial(a[..], n);
      for i := 0 to n
        invariant Holds(a[..], t, n) && Initial(EdgesOf(nodes[..i]), t, n)
      {
        assert nodes[..i + 1][..i] == nodes[..i];
        t := InitNode(a, n, nodes[i], EdgesOf(nodes[..i]), t);
      }
      assert nodes[..n] == nodes;
    }

    static method InitNode(a: array<ShortPath>, n: nat, v: Node, ghost g: Graph, ghost t: Table)
      returns (ghost t': Table)
      requires v.id < n && (forall e <- v.neighbors :: e.v < n)
      requires Holds(a[..], t, n) && Initial(g, t, n)
      modifies a
      ensures Holds(a[..], t', n) && Initial(g + EdgesFrom(v.id, v.neighbors), t', n)
    {
      var es := v.neighbors;
      t' := t;
      assert g + EdgesFrom(v.id, []) == g;
      for x := 0 to |es|
        invariant Holds(a[..], t', n) && Initial(g + EdgesFrom(v.id, es[..x]), t', n)
      {
        var e := es[x];
        ghost var entry := Entry(e.v, e.length, 1);
        HoldsAfterWrite(a[..], t', n, v.id, e.v, entry);
        a[v.id * n + e.v] := ShortPath(e.v, e.length);
        t' := t'[(v.id, e.v) := entry];
        assert es[..x + 1][..x] == es[..x];
        assert g + EdgesFrom(v.id, es[..x + 1]) == (g + EdgesFrom(v.id, es[..x]))[(v.id, e.v) := e.length];
      }
      assert es[..|es|] == es;
    }

    /** The table that a freshly initialised array holds, whatever its next hops are. */
    static ghost function TableOf(a: seq<ShortPath>, n: nat): Table
      requires |a| == n * n
    {
      map i: nat, j: nat | i < n && j < n :: (i, j) := Entry(FlatAt(a, n, i, j).nextV, SENTINEL, 0)
    }

    static function FlatAt(a: seq<ShortPath>, n: nat, i: nat, j: nat): (e: ShortPath)
      requires |a| == n * n && i < n && j < n
      ensures e in a
    {
      FlatInRange(n, i, j);
      a[Flat(n, i, j)]
    }

    static lemma TableOfIsInitial(a: seq<ShortPath>, n: nat)
      requires |a| == n * n && forall e <- a :: e.pathDistance == SENTINEL
      ensures Holds(a, TableOf(a, n), n) && Initial(map[], TableOf(a, n), n)
    {
    }

    /** One row of one stage, in place. */
    static method RelaxRow(a: array<ShortPath>, n: nat, k: nat, i: nat, ghost t: Table)
      requires IsTable(t, n) && k < n && i < n && t[(k, k)].distance >= 0.0
      requires Holds(a[..], Partly(t, n, k, i, 0), n)
      modifies a
      ensures Holds(a[..], Partly(t, n, k, i + 1, 0), n)
    {
      for j := 0 to n
        invariant Holds(a[..], Partly(t, n, k, i, j), n)
      {
        RelaxCell(a, n, k, i, j, t);
      }
      HoldsOther(a[..], Partly(t, n, k, i, n), Partly(t, n, k, i + 1, 0), n);
    }

    static method RelaxCell(a: array<ShortPath>, n: nat, k: nat, i: nat, j: nat, ghost t: Table)
      requires IsTable(t, n) && k < n && i < n && j < n && t[(k, k)].distance >= 0.0
      requires Holds(a[..], Partly(t, n, k, i, j), n)
      modifies a
      ensures Holds(a[..], Partly(t, n, k, i, j + 1), n)
    {
      ghost var u := Partly(t, n, k, i, j);
      ghost var e := Better(u, k, i, j);
      var ij, ik, kj := i * n + j, i * n + k, k * n + j;
      ReadsEntry(a[..], u, n, i, j);
      ReadsEntry(a[..], u, n, i, k);
      ReadsEntry(a[..], u, n, k, j);
      PartlyReadsOld(t, n, k, i, j);
      HoldsAfterWrite(a[..], u, n, i, j, e);
      HoldsOther(a[..][Flat(n, i, j) := ShortPath(e.next, e.distance)], u[(i, j) := e], Partly(t, n, k, i, j + 1), n);
      ghost var before := a[..];
      if a[ij].pathDistance > a[ik].pathDistance + a[kj].pathDistance {
        a[ij] := ShortPath(a[ik].nextV, a[ik].pathDistance + a[kj].pathDistance);
      }
      assert a[..] == before[Flat(n, i, j) := ShortPath(e.next, e.distance)];
    }

    // ---- Ways in and out of the graph

    predicate Sees(ns: seq<Node>, center: Point, tankR: real, i: nat) {
      i < |ns| && clear(center, ns[i].pos, tankR)
    }

    predicate Near(ns: seq<Node>, center: Point, distance: real, tankR: real, i: nat) {
      Sees(ns, center, tankR, i) && dist(center, ns[i].pos) < distance
    }

    /** The first of the closest visible nodes, if it is less than 100000 away. */
    ghost predicate Closest(ns: seq<Node>, center: Point, tankR: real, i: nat) {
      && Sees(ns, center, tankR, i) && dist(center, ns[i].pos) < 100000.0
      && forall k: nat | Sees(ns, center, tankR, k) ::
           && dist(center, ns[i].pos) <= dist(center, ns[k].pos)
           && (k < i ==> dist(center, ns[i].pos) < dist(center, ns[k].pos))
    }

    /** Nodes where a path from `center` may enter: the near ones or, with none near, the closest one. */
    ghost predicate Access(ns: seq<Node>, center: Point, distance: real, tankR: real, i: nat) {
      if exists k :: Near(ns, center, distance, tankR, k) then Near(ns, center, distance, tankR, i)
      else Closest(ns, center, tankR, i)
    }

    /** If some node is near and in clear sight, those are the ways in; if not, the first closest one in clear sight. */
    lemma WaysIn(ns: seq<Node>, center: Point, distance: real, tankR: real, i: nat)
      requires i < |ns|
      ensures Access(ns, center, distance, tankR, i) ==> clear(center, ns[i].pos, tankR)
      ensures dist(center, ns[i].pos) < distance && clear(center, ns[i].pos, tankR) ==>
        Access(ns, center, distance, tankR, i)
        && forall k: nat :: Access(ns, center, distance, tankR, k) ==> k < |ns| && dist(center, ns[k].pos) < distance
      ensures Access(ns, center, distance, tankR, i) && !(dist(center, ns[i].pos) < distance) ==>
        dist(center, ns[i].pos) < 100000.0
        && forall k: nat :: k < |ns| && clear(center, ns[k].pos, tankR) ==>
             && dist(center, ns[k].pos) >= distance && dist(center, ns[i].pos) <= dist(center, ns[k].pos)
             && (Access(ns, center, distance, tankR, k) ==> k == i)
    {
      if dist(center, ns[i].pos) < distance && clear(center, ns[i].pos, tankR) {
        assert Near(ns, center, distance, tankR, i);
      }
      forall k: nat | k < |ns| && clear(center, ns[k].pos, tankR)
        ensures Sees(ns, center, tankR, k)
        ensures dist(center, ns[k].pos) < distance ==> Near(ns, center, distance, tankR, k)
      {
      }
    }

    method FindNodes(center: Point, distance: real, tankR: real) returns (res: seq<nat>)
      requires WellNumbered()
      ensures forall i :: i in res <==> Access(nodes, center, distance, tankR, i)
      ensures forall x, y :: 0 <= x < y < |res| ==> res[x] < res[y]
    {
      res := [];
      for j := 0 to |nodes|
        invariant forall i: nat :: i in res <==> (i < j && Near(nodes, center, distance, tankR, i))
        invariant forall x :: 0 <= x < |res| ==> res[x] < j
        invariant forall x, y :: 0 <= x < y < |res| ==> res[x] < res[y]
      {
        if dist(center, nodes[j].pos) < distance && clear(center, nodes[j].pos, tankR) {
          res := res + [nodes[j].id];
        }
      }
      if |res| < 1 {
        assert forall i :: Near(nodes, center, distance, tankR, i) ==> i in res;
        res := FindClosest(center, tankR);
      } else {
        assert res[0] in res;
      }
    }

    /** The second half of `FindNodes`: at most one node. */
    method FindClosest(center: Point, tankR: real) returns (res: seq<nat>)
      requires WellNumbered()
      ensures |res| <= 1 && forall i :: i in res <==> Closest(nodes, center, tankR, i)
    {
      var mind: real, besti: nat := 100000.0, 0;
      for j := 0 to |nodes|
        invariant mind <= 100000.0
        invariant mind < 100000.0 ==> 0 <= besti < j && Sees(nodes, center, tankR, besti)
        invariant mind < 100000.0 ==> mind == dist(center, nodes[besti].pos)
        invariant forall k: nat :: k < j && Sees(nodes, center, tankR, k) ==>
          mind <= dist(center, nodes[k].pos) && (k < besti && mind < 100000.0 ==> mind < dist(center, nodes[k].pos))
      {
        if clear(center, nodes[j].pos, tankR) && dist(center, nodes[j].pos) < mind {
          mind, besti := dist(center, nodes[j].pos), nodes[j].id;
        }
      }
      res := if mind < 100000.0 then [besti] else [];
      if mind < 100000.0 {
        assert Sees(nodes, center, tankR, besti);
      }
    }

    // ---- Paths

    /** What entering at `i` and leaving at `j` costs: both legs and the stored distance between. */
    ghost function Cost(s: Point, f: Point, i: nat, j: nat): real
      requires Solved() && i < |nodes| && j < |nodes|
      reads this, belman
    {
      dist(s, nodes[i].pos) + dist(f, nodes[j].pos) + table[(i, j)].distance
    }

    /** No way in, along a walk and out costs less, and unless it is the sentinel that leads, some way costs as much. */
    lemma CostIsLeast(s: Point, f: Point, i: nat, j: nat)
      requires Solved() && i < |nodes| && j < |nodes|
      ensures var legs := dist(s, nodes[i].pos) + dist(f, nodes[j].pos);
        && (forall w, k :: IsWalk(EdgesOf(nodes), i, w, j, k) ==>
              Cost(s, f, i, j) <= legs + Weight(EdgesOf(nodes), i, w))
        && (Cost(s, f, i, j) < legs + SENTINEL ==>
              exists w :: IsWalk(EdgesOf(nodes), i, w, j, |nodes|)
                && Cost(s, f, i, j) == legs + Weight(EdgesOf(nodes), i, w))
    {
      DistancesAreLeast(EdgesOf(nodes), table, |nodes|, i, j);
    }

    static function Positions(ns: seq<Node>, trail: seq<nat>): (ps: seq<Point>)
      requires forall x :: 0 <= x < |trail| ==> trail[x] < |ns|
    {
      seq(|trail|, x requires 0 <= x < |trail| => ns[trail[x]].pos)
    }

    function StoredCost(s: Point, f: Point, i: nat, j: nat): (c: real)
      requires Solved() && i < |nodes| && j < |nodes|
      reads this, belman
      ensures c == Cost(s, f, i, j)
    {
      ReadsEntry(belman[..], table, |nodes|, i, j);
      dist(s, nodes[i].pos) + dist(f, nodes[j].pos) + belman[i * |nodes| + j].pathDistance
    }

    /** The best pair of access nodes, if any costs less than the sentinel. */
    method BestPair(s: Point, f: Point, ss: seq<nat>, ff: seq<nat>) returns (d: real, besti: nat, bestj: nat)
      requires Solved() && (forall i <- ss :: i < |nodes|) && (forall j <- ff :: j < |nodes|)
      ensures d <= SENTINEL && (d == SENTINEL ==> besti == bestj)
      ensures d < SENTINEL ==> besti in ss && bestj in ff && d == Cost(s, f, besti, bestj)
      ensures forall i, j :: i in ss && j in ff ==> d <= Cost(s, f, i, j)
    {
      d, besti, bestj := SENTINEL, 0, 0;
      for x := 0 to |ss|
        invariant d <= SENTINEL && (d == SENTINEL ==> besti == bestj)
        invariant d < SENTINEL ==> besti in ss && bestj in ff && d == Cost(s, f, besti, bestj)
        invariant forall x', j ::
          (0 <= x' < x && j in ff && j < |nodes| && ss[x'] < |nodes| ==> d <= Cost(s, f, ss[x'], j))
      {
        var i := ss[x];
        assert i in ss;
        for y := 0 to |ff|
          invariant d <= SENTINEL && (d == SENTINEL ==> besti == bestj)
          invariant d < SENTINEL ==> besti in ss && bestj in ff && d == Cost(s, f, besti, bestj)
          invariant forall x', j ::
          (0 <= x' < x && j in ff && j < |nodes| && ss[x'] < |nodes| ==> d <= Cost(s, f, ss[x'], j))
          invariant forall y' :: 0 <= y' < y && ff[y'] < |nodes| ==> d <= Cost(s, f, i, ff[y'])
        {
          var j := ff[y];
          assert j in ff;
          var c := StoredCost(s, f, i, j);
          if c < d {
            d, besti, bestj := c, i, j;
          }
        }
      }
    }

    /** A line that, gone on straight to point `p` and then along `rest`, is within `d`. */
    ghost predicate Within(points: seq<Point>, p: Point, rest: real, d: real) {
      |points| > 0 && Length(dist, points) + dist(points[|points| - 1], p) + rest <= d
    }

    lemma WithinStep(points: seq<Point>, p: Point, q: Point, rest: real, d: real)
      requires Within(points, p, dist(p, q) + rest, d)
      ensures Within(points + [p], q, rest, d)
    {
    }

    /** Leaving out the exit node makes the line no longer. */
    lemma WithinAtEnd(points: seq<Point>, exit: Point, f: Point, d: real)
      requires IsMetric(dist) && Within(points, exit, dist(f, exit), d)
      ensures Length(dist, points + [f]) <= d
    {
    }

    function StoredHop(i: nat, j: nat): (m: nat)
      requires Solved() && i < |nodes| && j < |nodes|
      reads this, belman
      ensures m == table[(i, j)].next
    {
      ReadsEntry(belman[..], table, |nodes|, i, j);
      belman[i * |nodes| + j].nextV
    }

    /** One round of the loop keeps the trail a walk and the line within `d`. */
    lemma HopKeeps(trail: seq<nat>, points: seq<Point>, i: nat, j: nat, tail: real, d: real)
      requires Solved() && Straight(nodes) && i < |nodes| && j < |nodes| && i != j && Rest(table, i, j) < SENTINEL
      ensures var m := table[(i, j)].next;
        && m < |nodes| && Rest(table, m, j) < SENTINEL && Left(table, m, j) < Left(table, i, j)
        && (Walked(EdgesOf(nodes), table, |nodes|, trail, j) && trail[|trail| - 1] == i ==>
              Walked(EdgesOf(nodes), table, |nodes|, trail + [m], j))
        && (Within(points, nodes[i].pos, Rest(table, i, j) + tail, d) ==>
              Within(points + [nodes[i].pos], nodes[m].pos, Rest(table, m, j) + tail, d))
    {
      var g, n, m := EdgesOf(nodes), |nodes|, table[(i, j)].next;
      NextHop(g, table, n, i, j);
      if Walked(g, table, n, trail, j) && trail[|trail| - 1] == i {
        WalkedStep(g, table, n, trail, j, m);
      }
      if Within(points, nodes[i].pos, Rest(table, i, j) + tail, d) {
        WithinStep(points, nodes[i].pos, nodes[m].pos, Rest(table, m, j) + tail, d);
      }
    }

    /** The loop has come from `start` to node `i` along the trail, and the line so far and the rest are within `d`. */
    ghost predicate Underway(s: Point, start: nat, trail: seq<nat>, points: seq<Point>, i: nat, j: nat, tail: real,
                             d: real)
      requires Solved() && j < |nodes|
      reads this, belman
    {
      && i < |nodes| && Rest(table, i, j) < SENTINEL
      && Walked(EdgesOf(nodes), table, |nodes|, trail, j) && trail[0] == start && trail[|trail| - 1] == i
      && points == [s] + Positions(nodes, trail[..|trail| - 1])
      && Within(points, nodes[i].pos, Rest(table, i, j) + tail, d)
    }

    lemma StillUnderway(s: Point, start: nat, trail: seq<nat>, points: seq<Point>, i: nat, j: nat, tail: real, d: real)
      requires Solved() && Straight(nodes) && i < |nodes| && j < |nodes| && i != j
      ensures Underway(s, start, trail, points, i, j, tail, d) ==>
        var m := table[(i, j)].next;
        && m < |nodes| && Left(table, m, j) < Left(table, i, j)
        && Underway(s, start, trail + [m], points + [nodes[i].pos], m, j, tail, d)
    {
      if Underway(s, start, trail, points, i, j, tail, d) {
        HopKeeps(trail, points, i, j, tail, d);
        LineGoesOn(nodes, s, trail, points, i, table[(i, j)].next);
      }
    }

    static lemma LineGoesOn(ns: seq<Node>, s: Point, trail: seq<nat>, points: seq<Point>, i: nat, m: nat)
      requires trail != [] && trail[|trail| - 1] == i < |ns| && forall x :: 0 <= x < |trail| ==> trail[x] < |ns|
      requires points == [s] + Positions(ns, trail[..|trail| - 1])
      ensures (trail + [m])[..|trail + [m]| - 1] == trail
      ensures points + [ns[i].pos] == [s] + Positions(ns, trail)
    {
      assert trail == trail[..|trail| - 1] + [i];
    }

    /** The loop along the stored next hops. */
    method FollowHops(s: Point, besti: nat, bestj: nat, ghost tail: real, ghost d: real)
      returns (points: seq<Point>, ghost trail: seq<nat>)
      requires Solved() && Straight(nodes) && besti < |nodes| && bestj < |nodes| && Rest(table, besti, bestj) < SENTINEL
      requires dist(s, nodes[besti].pos) + Rest(table, besti, bestj) + tail <= d
      ensures Route(EdgesOf(nodes), |nodes|, trail, besti, bestj) && |trail| <= |nodes|
      ensures points == [s] + Positions(nodes, trail[..|trail| - 1]) && Within(points, nodes[bestj].pos, tail, d)
    {
      var i: nat, j := besti, bestj;
      points, trail := [s], [i];
      while i != j
        invariant Underway(s, besti, trail, points, i, j, tail, d)
        decreases Left(table, i, j)
      {
        StillUnderway(s, besti, trail, points, i, j, tail, d);
        var m := StoredHop(i, j);
        points := points + [nodes[i].pos];
        trail := trail + [m];
        i := m;
      }
      WalkedIsRoute(EdgesOf(nodes), table, |nodes|, trail, j);
    }

    /** The cheapest path by access nodes and stored distances; the node it leaves the graph from is not on it. */
    method FindPath(s: Point, f: Point, distance: real, tankR: real)
      returns (res: Path, ghost trail: seq<nat>, ghost i: nat, ghost j: nat)
      requires Solved() && IsMetric(dist) && Straight(nodes)
      ensures res.d <= SENTINEL
      ensures forall a, b ::
        (Access(nodes, s, distance, tankR, a) && Access(nodes, f, distance, tankR, b) ==> res.d <= Cost(s, f, a, b))
      ensures res.d < SENTINEL ==>
        && Access(nodes, s, distance, tankR, i) && Access(nodes, f, distance, tankR, j) && res.d == Cost(s, f, i, j)
        && Route(EdgesOf(nodes), |nodes|, trail, i, j) && |trail| <= |nodes|
        && res.points == [s] + Positions(nodes, trail[..|trail| - 1]) + [f]
        && Length(dist, res.points) <= res.d
      ensures res.d == SENTINEL ==> res.points == [s, f]
    {
      var ss := FindNodes(s, distance, tankR);
      var ff := FindNodes(f, distance, tankR);
      res, trail, i, j := PathBetween(s, f, ss, ff);
    }

    method PathBetween(s: Point, f: Point, ss: seq<nat>, ff: seq<nat>)
      returns (res: Path, ghost trail: seq<nat>, ghost i: nat, ghost j: nat)
      requires Solved() && IsMetric(dist) && Straight(nodes)
      requires (forall a <- ss :: a < |nodes|) && (forall b <- ff :: b < |nodes|)
      ensures res.d <= SENTINEL && forall a, b :: a in ss && b in ff ==> res.d <= Cost(s, f, a, b)
      ensures res.d < SENTINEL ==>
        && i in ss && j in ff && res.d == Cost(s, f, i, j)
        && Route(EdgesOf(nodes), |nodes|, trail, i, j) && |trail| <= |nodes|
        && res.points == [s] + Positions(nodes, trail[..|trail| - 1]) + [f]
        && Length(dist, res.points) <= res.d
      ensures res.d == SENTINEL ==> res.points == [s, f]
    {
      var d, besti, bestj := BestPair(s, f, ss, ff);
      assert forall a, b :: a in ss && b in ff ==> d <= old(Cost(s, f, a, b));
      i, j, trail := besti, bestj, [bestj];
      var points := [s, f];
      if d < SENTINEL {
        points, trail := PathThrough(s, f, besti, bestj);
      }
      res := Path(points, d);
      forall a, b | a in ss && b in ff
        ensures d <= Cost(s, f, a, b)
      {
        assert Cost(s, f, a, b) == old(Cost(s, f, a, b));
      }
    }

    method PathThrough(s: Point, f: Point, i: nat, j: nat) returns (points: seq<Point>, ghost trail: seq<nat>)
      requires Solved() && IsMetric(dist) && Straight(nodes)
      requires i < |nodes| && j < |nodes| && Cost(s, f, i, j) < SENTINEL
      ensures Route(EdgesOf(nodes), |nodes|, trail, i, j) && |trail| <= |nodes|
      ensures points == [s] + Positions(nodes, trail[..|trail| - 1]) + [f]
      ensures Length(dist, points) <= Cost(s, f, i, j)
    {
      CostIsAtLeastRest(s, f, i, j);
      ghost var d := Cost(s, f, i, j);
      points, trail := FollowHops(s, i, j, dist(f, nodes[j].pos), d);
      WithinAtEnd(points, nodes[j].pos, f, d);
      points := points + [f];
    }

    lemma CostIsAtLeastRest(s: Point, f: Point, i: nat, j: nat)
      requires Solved() && IsMetric(dist) && i < |nodes| && j < |nodes|
      ensures dist(s, nodes[i].pos) + Rest(table, i, j) + dist(f, nodes[j].pos) <= Cost(s, f, i, j)
      ensures Rest(table, i, j) <= Cost(s, f, i, j)
    {
      assert Shortest(EdgesOf(nodes), table[(i, j)], |nodes|, i, j);
    }
  }
}
