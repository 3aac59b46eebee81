/** Weighted graphs, their walks, and the table of shortest walks built one intermediate node at a time. */
module ShortestPaths {

  const SENTINEL: real := 1000000.0

  /** Edge weights by source and target. */
  type Graph = map<(nat, nat), real>

  predicate GraphOk(g: Graph, n: nat) {
    forall e <- g.Keys :: e.0 < n && e.1 < n && 0.0 <= g[e] < SENTINEL
  }

  /** A non-empty walk, without the node it starts from. */
  datatype Walk = Last(to: nat) | Via(to: nat, rest: Walk)

  /** `w` leads from `i` to `j` along edges, and every node strictly between is below `k`. */
  predicate IsWalk(g: Graph, i: nat, w: Walk, j: nat, k: nat)
    decreases w
  {
    && (i, w.to) in g
    && match w
       case Last(to) => to == j
       case Via(m, rest) => m < k && IsWalk(g, m, rest, j, k)
  }

  /** The total weight of the edges walked, counting 0 for a missing one. */
  function Weight(g: Graph, i: nat, w: Walk): (r: real)
    decreases w
  {
    (if (i, w.to) in g then g[(i, w.to)] else 0.0) + if w.Via? then Weight(g, w.to, w.rest) else 0.0
  }

  lemma {:induction false} WeightIsNonNegative(g: Graph, n: nat, i: nat, w: Walk)
    requires GraphOk(g, n)
    ensures Weight(g, i, w) >= 0.0
    decreases w
  {
    if w.Via? {
      WeightIsNonNegative(g, n, w.to, w.rest);
    }
  }

  lemma {:induction false} WiderBound(g: Graph, i: nat, w: Walk, j: nat, k: nat, k': nat)
    requires IsWalk(g, i, w, j, k) && k <= k'
    ensures IsWalk(g, i, w, j, k')
    decreases w
  {
    if w.Via? {
      WiderBound(g, w.to, w.rest, j, k, k');
    }
  }

  function Join(a: Walk, b: Walk): Walk {
    match a
    case Last(to) => Via(to, b)
    case Via(m, rest) => Via(m, Join(rest, b))
  }

  lemma {:induction false} JoinIsWalk(g: Graph, i: nat, a: Walk, m: nat, b: Walk, j: nat, k: nat)
    requires IsWalk(g, i, a, m, k) && IsWalk(g, m, b, j, k) && m < k
    ensures IsWalk(g, i, Join(a, b), j, k) && Join(a, b).to == a.to
    ensures Weight(g, i, Join(a, b)) == Weight(g, i, a) + Weight(g, m, b)
    decreases a
  {
    if a.Via? {
      JoinIsWalk(g, a.to, a.rest, m, b, j, k);
    }
  }

  /** A walk with nodes up to `k` either avoids `k` or splits where it first meets `k`. */
  lemma {:induction false} SplitAtFirst(g: Graph, i: nat, w: Walk, j: nat, k: nat)
    returns (avoids: bool, a: Walk, b: Walk)
    requires IsWalk(g, i, w, j, k + 1)
    ensures if avoids then IsWalk(g, i, w, j, k)
            else b < w && IsWalk(g, i, a, k, k) && IsWalk(g, k, b, j, k + 1)
                 && Weight(g, i, w) == Weight(g, i, a) + Weight(g, k, b)
    decreases w
  {
    avoids, a, b := true, w, w;
    if w.Via? {
      if w.to == k {
        avoids, a, b := false, Last(k), w.rest;
      } else {
        avoids, a, b := SplitAtFirst(g, w.to, w.rest, j, k);
        a := Via(w.to, a);
      }
    }
  }

  // ---- The table

  /** `hops` is how many next hops lead to the target; the program does not store it. */
  datatype Entry = Entry(next: nat, distance: real, hops: nat)

  type Table = map<(nat, nat), Entry>

  predicate IsTable(t: Table, n: nat) {
    forall i, j :: 0 <= i < n && 0 <= j < n ==> (i, j) in t
  }

  function Better(t: Table, k: nat, i: nat, j: nat): (e: Entry)
    requires (i, j) in t && (i, k) in t && (k, j) in t
  {
    var through := t[(i, k)].distance + t[(k, j)].distance;
    if t[(i, j)].distance > through then Entry(t[(i, k)].next, through, t[(i, k)].hops + t[(k, j)].hops)
    else t[(i, j)]
  }

  /** All entries improved by node `k` at once. */
  function Stage(t: Table, n: nat, k: nat): (r: Table)
    requires IsTable(t, n) && k < n
    ensures IsTable(r, n)
    ensures forall i, j :: 0 <= i < n && 0 <= j < n ==> r[(i, j)] == Better(t, k, i, j)
  {
    map p: (nat, nat) | p in t.Keys && p.0 < n && p.1 < n :: Better(t, k, p.0, p.1)
  }

  /** A stage half done in place: the entries before (i, j) in row order are improved. */
  function Partly(t: Table, n: nat, k: nat, i: nat, j: nat): (r: Table)
    requires IsTable(t, n) && k < n
    ensures IsTable(r, n)
    ensures forall i', j' :: 0 <= i' < n && 0 <= j' < n ==>
      r[(i', j')] == if i' < i || (i' == i && j' < j) then Better(t, k, i', j') else t[(i', j')]
  {
    map p: (nat, nat) | p in t.Keys && p.0 < n && p.1 < n ::
      if p.0 < i || (p.0 == i && p.1 < j) then Better(t, k, p.0, p.1) else t[p]
  }

  /** Improving in place reads the same values as improving all at once, since row and column `k` do not change. */
  lemma PartlyReadsOld(t: Table, n: nat, k: nat, i: nat, j: nat)
    requires IsTable(t, n) && k < n && i < n && j < n && t[(k, k)].distance >= 0.0
    ensures Better(Partly(t, n, k, i, j), k, i, j) == Better(t, k, i, j)
  {
  }

  // ---- What the entries say

  ghost predicate Attained(g: Graph, e: Entry, k: nat, i: nat, j: nat) {
    exists w :: IsWalk(g, i, w, j, k) && Weight(g, i, w) == e.distance && w.to == e.next
  }

  ghost predicate Least(g: Graph, e: Entry, k: nat, i: nat, j: nat) {
    forall w :: IsWalk(g, i, w, j, k) ==> e.distance <= Weight(g, i, w)
  }

  /** The distance is the least weight of a walk with intermediate nodes below `k`, capped by the sentinel. */
  ghost predicate Shortest(g: Graph, e: Entry, k: nat, i: nat, j: nat) {
    0.0 <= e.distance <= SENTINEL && (e.distance < SENTINEL ==> Attained(g, e, k, i, j)) && Least(g, e, k, i, j)
  }

  /** The next hop is an edge, and the entry behind it continues the walk with one hop less. */
  predicate Continues(g: Graph, t: Table, n: nat, i: nat, j: nat)
    requires IsTable(t, n) && i < n && j < n
  {
    var e := t[(i, j)];
    e.distance < SENTINEL ==>
      && (i, e.next) in g && e.next < n
      && if e.next == j then e.distance == g[(i, j)] && e.hops == 1
         else e.distance == g[(i, e.next)] + t[(e.next, j)].distance && e.hops == 1 + t[(e.next, j)].hops
  }

  ghost predicate AllShortest(g: Graph, t: Table, n: nat, k: nat) {
    && IsTable(t, n)
    && forall i, j {:trigger Shortest(g, t[(i, j)], k, i, j)} ::
         (0 <= i < n && 0 <= j < n ==> Shortest(g, t[(i, j)], k, i, j))
  }

  predicate AllContinue(g: Graph, t: Table, n: nat) {
    && IsTable(t, n)
    && forall i, j {:trigger Continues(g, t, n, i, j)} ::
         (0 <= i < n && 0 <= j < n ==> Continues(g, t, n, i, j))
  }

  // ---- A stage keeps the distances shortest

  lemma BetterIsAttained(g: Graph, t: Table, n: nat, k: nat, i: nat, j: nat)
    requires GraphOk(g, n) && AllShortest(g, t, n, k) && k < n && i < n && j < n
    requires Better(t, k, i, j).distance < SENTINEL
    ensures Attained(g, Better(t, k, i, j), k + 1, i, j)
  {
    var e, p, q := t[(i, j)], t[(i, k)], t[(k, j)];
    assert Shortest(g, e, k, i, j) && Shortest(g, p, k, i, k) && Shortest(g, q, k, k, j);
    if Better(t, k, i, j) == e {
      var w :| IsWalk(g, i, w, j, k) && Weight(g, i, w) == e.distance && w.to == e.next;
      WiderBound(g, i, w, j, k, k + 1);
    } else {
      AttainedThrough(g, p, q, k, i, j, Better(t, k, i, j));
    }
  }

  lemma AttainedThrough(g: Graph, p: Entry, q: Entry, k: nat, i: nat, j: nat, e: Entry)
    requires Attained(g, p, k, i, k) && Attained(g, q, k, k, j)
    requires e.next == p.next && e.distance == p.distance + q.distance
    ensures Attained(g, e, k + 1, i, j)
  {
    var u :| IsWalk(g, i, u, k, k) && Weight(g, i, u) == p.distance && u.to == p.next;
    var v :| IsWalk(g, k, v, j, k) && Weight(g, k, v) == q.distance && v.to == q.next;
    WiderBound(g, i, u, k, k, k + 1);
    WiderBound(g, k, v, j, k, k + 1);
    JoinIsWalk(g, i, u, k, v, j, k + 1);
  }

  /** No walk up to `k` is shorter: the part up to the first `k` and the rest each have an entry, without loops. */
  lemma {:induction false} BetterIsLeast(g: Graph, t: Table, n: nat, k: nat, i: nat, w: Walk, j: nat)
    requires GraphOk(g, n) && AllShortest(g, t, n, k) && k < n && i < n && j < n
    requires IsWalk(g, i, w, j, k + 1)
    ensures Better(t, k, i, j).distance <= Weight(g, i, w)
    decreases w
  {
    assert Shortest(g, t[(i, j)], k, i, j) && Shortest(g, t[(i, k)], k, i, k);
    var avoids, a, b := SplitAtFirst(g, i, w, j, k);
    if !avoids {
      BetterIsLeast(g, t, n, k, k, b, j);
      assert Shortest(g, t[(k, k)], k, k, k);
    }
  }

  lemma BetterIsShortest(g: Graph, t: Table, n: nat, k: nat, i: nat, j: nat)
    requires GraphOk(g, n) && AllShortest(g, t, n, k) && k < n && i < n && j < n
    ensures Shortest(g, Better(t, k, i, j), k + 1, i, j)
  {
    var b, k' := Better(t, k, i, j), k + 1;
    assert Shortest(g, t[(i, j)], k, i, j) && Shortest(g, t[(i, k)], k, i, k) && Shortest(g, t[(k, j)], k, k, j);
    if b.distance < SENTINEL {
      BetterIsAttained(g, t, n, k, i, j);
    }
    forall w | IsWalk(g, i, w, j, k')
      ensures b.distance <= Weight(g, i, w)
    {
      BetterIsLeast(g, t, n, k, i, w, j);
    }
  }

  lemma StageIsShortest(g: Graph, t: Table, n: nat, k: nat)
    requires GraphOk(g, n) && AllShortest(g, t, n, k) && k < n
    ensures AllShortest(g, Stage(t, n, k), n, k + 1)
  {
    var r := Stage(t, n, k);
    forall i, j | 0 <= i < n && 0 <= j < n
      ensures Shortest(g, r[(i, j)], k + 1, i, j)
    {
      BetterIsShortest(g, t, n, k, i, j);
    }
  }

  // ---- A stage keeps the next hops consistent

  /** An edge followed by the entry behind it is no shorter than the entry, when that node may be between. */
  lemma EdgeThenEntry(g: Graph, t: Table, n: nat, k: nat, i: nat, m: nat, j: nat)
    requires GraphOk(g, n) && AllShortest(g, t, n, k) && i < n && m < n && j < n
    requires (i, m) in g && m < k
    ensures t[(i, j)].distance <= g[(i, m)] + t[(m, j)].distance
  {
    var e := t[(m, j)];
    assert Shortest(g, e, k, m, j) && Shortest(g, t[(i, j)], k, i, j);
    if e.distance < SENTINEL {
      var w :| IsWalk(g, m, w, j, k) && Weight(g, m, w) == e.distance && w.to == e.next;
      assert IsWalk(g, i, Via(m, w), j, k);
    }
  }

  /** The next hop of a reachable entry is the target or a node that may be between. */
  lemma NextIsBetween(g: Graph, t: Table, n: nat, k: nat, i: nat, j: nat)
    requires GraphOk(g, n) && AllShortest(g, t, n, k) && i < n && j < n && t[(i, j)].distance < SENTINEL
    ensures t[(i, j)].next == j || t[(i, j)].next < k
  {
    assert Shortest(g, t[(i, j)], k, i, j);
  }

  lemma StageContinues(g: Graph, t: Table, n: nat, k: nat, i: nat, j: nat)
    requires GraphOk(g, n) && AllShortest(g, t, n, k) && AllContinue(g, t, n) && k < n && i < n && j < n
    ensures Continues(g, Stage(t, n, k), n, i, j)
  {
    var r := Stage(t, n, k);
    var e, p, q := t[(i, j)], t[(i, k)], t[(k, j)];
    assert Shortest(g, e, k, i, j) && Shortest(g, p, k, i, k) && Shortest(g, q, k, k, j);
    assert Continues(g, t, n, i, j) && Continues(g, t, n, i, k);
    assert Shortest(g, t[(k, k)], k, k, k);
    if r[(i, j)] == e {
      if e.distance < SENTINEL && e.next != j {
        UnimprovedBehind(g, t, n, k, i, j);
      }
    } else {
      ImprovedBehind(g, t, n, k, i, j);
    }
  }

  lemma StageAllContinue(g: Graph, t: Table, n: nat, k: nat)
    requires GraphOk(g, n) && AllShortest(g, t, n, k) && AllContinue(g, t, n) && k < n
    ensures AllContinue(g, Stage(t, n, k), n)
  {
    var r := Stage(t, n, k);
    forall i, j | 0 <= i < n && 0 <= j < n
      ensures Continues(g, r, n, i, j)
    {
      StageContinues(g, t, n, k, i, j);
    }
  }

  /** Behind an entry that node `k` does not improve, the entry of the next hop is not improved either. */
  lemma UnimprovedBehind(g: Graph, t: Table, n: nat, k: nat, i: nat, j: nat)
    requires GraphOk(g, n) && AllShortest(g, t, n, k) && AllContinue(g, t, n) && k < n && i < n && j < n
    requires Better(t, k, i, j) == t[(i, j)] && t[(i, j)].distance < SENTINEL && t[(i, j)].next != j
    ensures t[(i, j)].next < n
    ensures Better(t, k, t[(i, j)].next, j) == t[(t[(i, j)].next, j)]
  {
    var m := t[(i, j)].next;
    assert Continues(g, t, n, i, j);
    NextIsBetween(g, t, n, k, i, j);
    EdgeThenEntry(g, t, n, k, i, m, k);
  }

  /** Behind an entry that node `k` improves, the entry of the next hop is improved too, unless it is that of `k`. */
  lemma ImprovedBehind(g: Graph, t: Table, n: nat, k: nat, i: nat, j: nat)
    requires GraphOk(g, n) && AllShortest(g, t, n, k) && AllContinue(g, t, n) && k < n && i < n && j < n
    requires Better(t, k, i, j) != t[(i, j)]
    ensures Continues(g, Stage(t, n, k), n, i, j)
  {
    var r := Stage(t, n, k);
    var e, p, q := t[(i, j)], t[(i, k)], t[(k, j)];
    assert Shortest(g, e, k, i, j) && Shortest(g, p, k, i, k) && Shortest(g, q, k, k, j);
    assert Continues(g, t, n, i, k) && Shortest(g, t[(k, k)], k, k, k);
    assert Shortest(g, t[(j, k)], k, j, k) && (p.next == j ==> IsWalk(g, i, Last(j), j, k));
    var m := p.next;
    if m == k {
      assert r[(k, j)] == q;
    } else {
      NextIsBetween(g, t, n, k, i, k);
      EdgeThenEntry(g, t, n, k, i, m, j);
    }
  }

  // ---- The first table and the last one

  /** The table of edges: without an edge the sentinel and any next node. */
  ghost predicate Initial(g: Graph, t: Table, n: nat) {
    IsTable(t, n) && forall i, j :: 0 <= i < n && 0 <= j < n ==>
      if (i, j) in g then t[(i, j)] == Entry(j, g[(i, j)], 1) else t[(i, j)].distance == SENTINEL
  }

  lemma InitialIsSound(g: Graph, t: Table, n: nat)
    requires GraphOk(g, n) && Initial(g, t, n)
    ensures AllShortest(g, t, n, 0) && AllContinue(g, t, n)
  {
    forall i, j | 0 <= i < n && 0 <= j < n
      ensures Shortest(g, t[(i, j)], 0, i, j)
    {
      if (i, j) in g {
        assert IsWalk(g, i, Last(j), j, 0);
      }
    }
  }

  /** The bound on intermediate nodes says nothing when it is the number of nodes. */
  lemma {:induction false} EveryWalkIsBelow(g: Graph, n: nat, i: nat, w: Walk, j: nat, k: nat)
    requires GraphOk(g, n) && IsWalk(g, i, w, j, k)
    ensures IsWalk(g, i, w, j, n)
    decreases w
  {
    if w.Via? {
      EveryWalkIsBelow(g, n, w.to, w.rest, j, k);
    }
  }

  /** What the finished table says of every pair of nodes. */
  lemma DistancesAreLeast(g: Graph, t: Table, n: nat, i: nat, j: nat)
    requires GraphOk(g, n) && AllShortest(g, t, n, n) && i < n && j < n
    ensures t[(i, j)].distance <= SENTINEL
    ensures forall w, k :: IsWalk(g, i, w, j, k) ==> t[(i, j)].distance <= Weight(g, i, w)
    ensures t[(i, j)].distance < SENTINEL ==>
      exists w :: IsWalk(g, i, w, j, n) && Weight(g, i, w) == t[(i, j)].distance && w.to == t[(i, j)].next
  {
    assert Shortest(g, t[(i, j)], n, i, j);
    forall w, k | IsWalk(g, i, w, j, k)
      ensures t[(i, j)].distance <= Weight(g, i, w)
    {
      EveryWalkIsBelow(g, n, i, w, j, k);
    }
  }

  // ---- Following next hops

  /** A walk over the nodes `trail`, from `i` to `j`, no node twice. */
  ghost predicate Route(g: Graph, n: nat, trail: seq<nat>, i: nat, j: nat) {
    && |trail| > 0 && trail[0] == i && trail[|trail| - 1] == j
    && (forall x :: 0 <= x < |trail| ==> trail[x] < n)
    && (forall x, y :: 0 <= x < |trail| - 1 && y == x + 1 ==> (trail[x], trail[y]) in g)
    && (forall x, y :: 0 <= x < y < |trail| ==> trail[x] != trail[y])
  }

  /** What is left to walk at node `i`. */
  function Rest(t: Table, i: nat, j: nat): real
    requires (i, j) in t
  {
    if i == j then 0.0 else t[(i, j)].distance
  }

  /** How many next hops are left at node `i`. */
  function Left(t: Table, i: nat, j: nat): nat
    requires (i, j) in t
  {
    if i == j then 0 else 1 + t[(i, j)].hops
  }

  /** One step along a stored next hop walks an edge and leaves less to walk. */
  lemma NextHop(g: Graph, t: Table, n: nat, i: nat, j: nat)
    requires AllShortest(g, t, n, n) && AllContinue(g, t, n) && GraphOk(g, n)
    requires i < n && j < n && i != j && Rest(t, i, j) < SENTINEL
    ensures var m := t[(i, j)].next;
      && m < n && (i, m) in g && Rest(t, i, j) == g[(i, m)] + Rest(t, m, j)
      && Rest(t, m, j) < SENTINEL && Left(t, m, j) < Left(t, i, j)
  {
    var m := t[(i, j)].next;
    assert Continues(g, t, n, i, j);
    assert Shortest(g, t[(m, j)], n, m, j);
  }

  /** Nodes walked so far, each with fewer hops left to `j` than the one before. */
  ghost predicate Walked(g: Graph, t: Table, n: nat, trail: seq<nat>, j: nat) {
    && |trail| > 0
    && (forall x :: 0 <= x < |trail| ==> trail[x] < n && (trail[x], j) in t)
    && (forall x, y :: 0 <= x < |trail| - 1 && y == x + 1 ==> (trail[x], trail[y]) in g)
    && (forall x, y :: 0 <= x < y < |trail| ==> Left(t, trail[y], j) < Left(t, trail[x], j))
  }

  lemma WalkedStep(g: Graph, t: Table, n: nat, trail: seq<nat>, j: nat, m: nat)
    requires Walked(g, t, n, trail, j)
    requires var b := trail[|trail| - 1]; m < n && (b, m) in g && (m, j) in t && Left(t, m, j) < Left(t, b, j)
    ensures Walked(g, t, n, trail + [m], j)
  {
  }

  lemma WalkedIsRoute(g: Graph, t: Table, n: nat, trail: seq<nat>, j: nat)
    requires Walked(g, t, n, trail, j) && trail[|trail| - 1] == j
    ensures Route(g, n, trail, trail[0], j) && |trail| <= n
  {
    forall x, y | 0 <= x < y < |trail|
      ensures trail[x] != trail[y]
    {
      assert Left(t, trail[y], j) < Left(t, trail[x], j);
    }
    DistinctBelow(trail, n);
  }

  /** Distinct numbers below `n` are at most `n` many. */
  lemma {:induction false} DistinctBelow(xs: seq<nat>, n: nat)
    requires forall x :: 0 <= x < |xs| ==> xs[x] < n
    requires forall x, y :: 0 <= x < y < |xs| ==> xs[x] != xs[y]
    ensures |xs| <= n
    decreases n
  {
    if xs != [] {
      assert xs[0] < n;
      if n - 1 in xs {
        var p :| 0 <= p < |xs| && xs[p] == n - 1;
        DistinctBelow(xs[..p] + xs[p + 1..], n - 1);
      } else {
        DistinctBelow(xs, n - 1);
      }
    }
  }
}
