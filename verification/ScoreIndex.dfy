/** The key of the leaderboard index and its order. */
module Scores {

  datatype ScoreIndex = ScoreIndex(score: int, userId: int)

  /** The leaderboard order: higher scores first, then higher user ids first. */
  predicate Less(a: ScoreIndex, b: ScoreIndex) {
    if a.score != b.score then a.score > b.score else a.userId > b.userId
  }

  /** Less is a strict total order, which is all that the tree assumes of its keys. */
  lemma LessIsStrictTotalOrder(a: ScoreIndex, b: ScoreIndex, c: ScoreIndex)
    ensures !Less(a, a)
    ensures Less(a, b) && Less(b, c) ==> Less(a, c)
    ensures Less(a, b) || Less(b, a) || a == b
    ensures Less(a, b) ==> a.score >= b.score && (a.score == b.score ==> a.userId > b.userId)
  {
  }

  predicate Sorted(s: seq<ScoreIndex>) {
    forall i, j :: 0 <= i < j < |s| ==> Less(s[i], s[j])
  }

  /** The sorted sequence with `v` added, unless it is already there. */
  function InsertSorted(s: seq<ScoreIndex>, v: ScoreIndex): (r: seq<ScoreIndex>) {
    if s == [] then [v]
    else if Less(s[0], v) then [s[0]] + InsertSorted(s[1..], v)
    else if Less(v, s[0]) then [v] + s
    else s
  }

  lemma {:induction false} InsertSortedContents(s: seq<ScoreIndex>, v: ScoreIndex)
    requires Sorted(s)
    ensures Sorted(InsertSorted(s, v))
    ensures forall x :: x in InsertSorted(s, v) <==> x in s || x == v
    ensures |InsertSorted(s, v)| == if v in s then |s| else |s| + 1
  {
    if s == [] {
    } else if Less(s[0], v) {
      InsertSortedContents(s[1..], v);
      var r := InsertSorted(s[1..], v);
      assert s == [s[0]] + s[1..];
      forall x | x in r
        ensures Less(s[0], x)
      {
        if x != v {
          var k :| 0 <= k < |s[1..]| && s[1..][k] == x;
          assert s[k + 1] == x;
        }
      }
    } else if Less(v, s[0]) {
      assert forall x :: x in [v] + s <==> x == v || x in s;
    }
  }

  /** Inserting a key beyond `m` leaves everything up to `m` alone. */
  lemma {:induction false} InsertSortedRight(a: seq<ScoreIndex>, m: ScoreIndex, b: seq<ScoreIndex>, v: ScoreIndex)
    requires Sorted(a + [m] + b) && Less(m, v)
    ensures InsertSorted(a + [m] + b, v) == a + [m] + InsertSorted(b, v)
  {
    var s := a + [m] + b;
    if a == [] {
      assert s == [m] + b;
    } else {
      assert s[|a|] == m && Less(s[0], s[|a|]);
      assert s[1..] == a[1..] + [m] + b;
      InsertSortedRight(a[1..], m, b, v);
    }
  }

  /** Inserting a key before `m` leaves `m` and everything after it alone. */
  lemma {:induction false} InsertSortedLeft(a: seq<ScoreIndex>, m: ScoreIndex, b: seq<ScoreIndex>, v: ScoreIndex)
    requires Sorted(a + [m] + b) && Less(v, m)
    ensures InsertSorted(a + [m] + b, v) == InsertSorted(a, v) + [m] + b
  {
    var s := a + [m] + b;
    if a == [] {
      assert s == [m] + b;
    } else {
      assert s[1..] == a[1..] + [m] + b;
      InsertSortedLeft(a[1..], m, b, v);
      if Less(s[0], v) {
        assert InsertSorted(a, v) == [a[0]] + InsertSorted(a[1..], v);
      }
    }
  }

  lemma SortedPart(a: seq<ScoreIndex>, m: ScoreIndex, b: seq<ScoreIndex>)
    requires Sorted(a + [m] + b)
    ensures Sorted(a) && Sorted(b)
    ensures forall x :: x in a ==> Less(x, m)
    ensures forall x :: x in b ==> Less(m, x)
  {
    var s := a + [m] + b;
    assert forall i :: 0 <= i < |a| ==> s[i] == a[i];
    assert s[|a|] == m;
    assert forall i :: 0 <= i < |b| ==> s[|a| + 1 + i] == b[i];
  }

  /** How many keys come before `v`. */
  function Rank(s: seq<ScoreIndex>, v: ScoreIndex): (n: nat)
    ensures n <= |s|
  {
    if s == [] then 0 else (if Less(s[0], v) then 1 else 0) + Rank(s[1..], v)
  }

  lemma {:induction false} RankConcat(a: seq<ScoreIndex>, b: seq<ScoreIndex>, v: ScoreIndex)
    ensures Rank(a + b, v) == Rank(a, v) + Rank(b, v)
  {
    if a == [] {
      assert a + b == b;
    } else {
      assert (a + b)[1..] == a[1..] + b;
      RankConcat(a[1..], b, v);
    }
  }

  lemma {:induction false} RankOfLarger(s: seq<ScoreIndex>, v: ScoreIndex)
    requires forall x :: x in s ==> Less(x, v)
    ensures Rank(s, v) == |s|
  {
    if s != [] {
      RankOfLarger(s[1..], v);
    }
  }

  lemma {:induction false} RankOfSmaller(s: seq<ScoreIndex>, v: ScoreIndex)
    requires forall x :: x in s ==> !Less(x, v)
    ensures Rank(s, v) == 0
  {
    if s != [] {
      RankOfSmaller(s[1..], v);
    }
  }

  /** In a sorted sequence the rank of a key is its position. */
  lemma RankIsPosition(s: seq<ScoreIndex>, i: nat)
    requires Sorted(s) && i < |s|
    ensures Rank(s, s[i]) == i
  {
    assert s == s[..i] + s[i..];
    RankConcat(s[..i], s[i..], s[i]);
    RankOfLarger(s[..i], s[i]);
    RankOfSmaller(s[i..], s[i]);
  }

  /** The rank of a key, present or not, is where it would stand: exactly the keys before it are less. */
  lemma {:induction false} RankSplits(s: seq<ScoreIndex>, v: ScoreIndex)
    requires Sorted(s)
    ensures forall j :: 0 <= j < |s| ==> (Less(s[j], v) <==> j < Rank(s, v))
  {
    if s != [] {
      RankSplits(s[1..], v);
      assert forall j :: 0 < j < |s| ==> s[j] == s[1..][j - 1] && (Less(s[j], v) ==> Less(s[0], v));
    }
  }

  /** Where the rank of `v` splits over a sorted sequence around `m`. */
  lemma RankAround(a: seq<ScoreIndex>, m: ScoreIndex, b: seq<ScoreIndex>, v: ScoreIndex)
    requires Sorted(a + [m] + b)
    ensures Rank(a + [m] + b, v) ==
      if Less(v, m) then Rank(a, v) else if Less(m, v) then |a| + 1 + Rank(b, v) else |a|
    ensures Less(v, m) ==> v !in [m] + b
    ensures Less(m, v) ==> v !in a + [m]
  {
    SortedPart(a, m, b);
    RankConcat(a + [m], b, v);
    RankConcat(a, [m], v);
    if Less(v, m) {
      RankOfSmaller(b, v);
    } else if Less(m, v) {
      RankOfLarger(a, v);
    } else {
      RankOfLarger(a, v);
      RankOfSmaller(b, v);
    }
  }
}
