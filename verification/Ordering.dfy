/** The keys of a map in the order in which a program that keeps them sorted visits them. */
module Ordering {

  /** The ids from the smallest to the largest. */
  ghost predicate IsOrderOf(order: seq<int>, ids: set<int>) {
    && (forall id :: id in order <==> id in ids)
    && (forall x, y :: 0 <= x < y < |order| ==> order[x] < order[y])
  }

  predicate IsLeast(m: int, s: set<int>) {
    m in s && forall x <- s :: m <= x
  }

  lemma {:induction false} HasLeast(s: set<int>)
    ensures s == {} || exists m :: IsLeast(m, s)
  {
    if y :| y in s {
      var rest := s - {y};
      assert forall x <- s :: x == y || x in rest;
      HasLeast(rest);
      if m :| IsLeast(m, rest) {
        assert IsLeast(if y < m then y else m, s);
      } else {
        assert rest == {};
        assert IsLeast(y, s);
      }
    } else {
      SubsetByElements(s, {});
    }
  }

  lemma SubsetByElements(s: set<int>, t: set<int>)
    requires forall x: int :: x in s ==> x in t
    ensures s <= t
  {
    forall x | x in s
      ensures x in t
    {
    }
  }

  method Ascending(ids: set<int>) returns (order: seq<int>)
    ensures IsOrderOf(order, ids)
  {
    order := [];
    var rest := ids;
    while rest != {}
      invariant rest <= ids && forall id :: id in order <==> id in ids && id !in rest
      invariant forall x, y :: 0 <= x < y < |order| ==> order[x] < order[y]
      invariant forall x, id :: 0 <= x < |order| && id in rest ==> order[x] < id
      decreases |rest|
    {
      HasLeast(rest);
      var m :| IsLeast(m, rest);
      order := order + [m];
      rest := rest - {m};
    }
  }
}
