/** The ranking step of `BM25Index.search` (bm25_index.py):
    `sorted(enumerate(scores), key=score, reverse=True)[:best_amount]`.
    Python's sort is stable also when reversed, so documents are ordered by
    descending score and, among equal scores, by position. The scores
    themselves come from the BM25 library and stay abstract here. */
module Ranking {
  import opened PySeq

  /** Document `i` is ranked ahead of document `j`. */
  predicate RanksBefore(scores: seq<real>, i: nat, j: nat)
    requires i < |scores| && j < |scores|
  {
    scores[i] > scores[j] || (scores[i] == scores[j] && i < j)
  }

  /** Every entry of `order` is a document position. */
  predicate Positions(scores: seq<real>, order: seq<nat>) {
    forall k :: 0 <= k < |order| ==> order[k] < |scores|
  }

  /** Every document in `order` is ranked ahead of every later one; this also
      means that no document appears twice. */
  predicate Ordered(scores: seq<real>, order: seq<nat>)
    requires Positions(scores, order)
  {
    forall a, b :: 0 <= a < b < |order| ==> RanksBefore(scores, order[a], order[b])
  }

  /** Places document `x` in front of the first document it ranks ahead of. */
  function Insert(scores: seq<real>, order: seq<nat>, x: nat): (r: seq<nat>)
    requires Positions(scores, order) && x < |scores|
    ensures |r| == |order| + 1 && Positions(scores, r)
    ensures forall y :: y in r <==> y in order || y == x
  {
    if order == [] then [x]
    else if RanksBefore(scores, x, order[0]) then [x] + order
    else
      assert forall y :: y in order <==> y == order[0] || y in order[1..];
      [order[0]] + Insert(scores, order[1..], x)
  }

  /** A ranked list stays ranked with a document in front that ranks ahead of
      all of it. */
  lemma OrderedCons(scores: seq<real>, h: nat, t: seq<nat>)
    requires h < |scores| && Positions(scores, t) && Ordered(scores, t)
    requires forall k :: 0 <= k < |t| ==> RanksBefore(scores, h, t[k])
    ensures Positions(scores, [h] + t) && Ordered(scores, [h] + t)
  {
    var r := [h] + t;
    forall a, b | 0 <= a < b < |r| ensures RanksBefore(scores, r[a], r[b]) {
      assert r[b] == t[b - 1];
      if a > 0 {
        assert r[a] == t[a - 1];
      }
    }
  }

  /** Inserting a new document into a ranked list keeps it ranked. */
  lemma {:induction false} InsertOrdered(scores: seq<real>, order: seq<nat>, x: nat)
    requires Positions(scores, order) && x < |scores|
    requires Ordered(scores, order) && x !in order
    ensures Ordered(scores, Insert(scores, order, x))
    decreases |order|
  {
    if order == [] {
    } else if RanksBefore(scores, x, order[0]) {
      forall k | 0 <= k < |order| ensures RanksBefore(scores, x, order[k]) {
        if k > 0 {
          assert RanksBefore(scores, order[0], order[k]);
        }
      }
      OrderedCons(scores, x, order);
    } else {
      var h, rest := order[0], order[1..];
      assert RanksBefore(scores, h, x);
      forall a, b | 0 <= a < b < |rest| ensures RanksBefore(scores, rest[a], rest[b]) {
        assert rest[a] == order[a + 1] && rest[b] == order[b + 1];
      }
      assert x !in rest by {
        assert forall y :: y in rest ==> y in order;
      }
      InsertOrdered(scores, rest, x);
      var tail := Insert(scores, rest, x);
      forall k | 0 <= k < |tail| ensures RanksBefore(scores, h, tail[k]) {
        assert tail[k] in tail;
        if tail[k] != x {
          var j :| 0 <= j < |rest| && rest[j] == tail[k];
          assert order[j + 1] == tail[k];
        }
      }
      OrderedCons(scores, h, tail);
    }
  }

  /** The first `n` documents, sorted. */
  function SortPrefix(scores: seq<real>, n: nat): (r: seq<nat>)
    requires n <= |scores|
    ensures |r| == n && Positions(scores, r) && Ordered(scores, r)
    ensures forall y: int :: y in r <==> 0 <= y < n
  {
    if n == 0 then []
    else
      var prev := SortPrefix(scores, n - 1);
      InsertOrdered(scores, prev, n - 1);
      Insert(scores, prev, n - 1)
  }

  /** `sorted(enumerate(scores), key=lambda x: x[1], reverse=True)`, as positions. */
  function Rank(scores: seq<real>): (r: seq<nat>)
    ensures |r| == |scores| && Positions(scores, r) && Ordered(scores, r)
    ensures forall y: int :: y in r <==> 0 <= y < |scores|
  {
    SortPrefix(scores, |scores|)
  }

  /** The ranking is a stable sort by descending score of all positions: each
      position exactly once, scores never increase along it, and equal scores
      keep their positions' order. */
  lemma RankIsStableSort(scores: seq<real>)
    ensures |Rank(scores)| == |scores|
    ensures forall i :: 0 <= i < |scores| ==> i in Rank(scores)
    ensures forall k :: 0 <= k < |Rank(scores)| ==> Rank(scores)[k] < |scores|
    ensures forall a, b :: 0 <= a < b < |scores| ==> Rank(scores)[a] != Rank(scores)[b]
    ensures forall a, b :: 0 <= a < b < |scores| ==>
      scores[Rank(scores)[a]] >= scores[Rank(scores)[b]]
    ensures forall a, b ::
      0 <= a < b < |scores| && scores[Rank(scores)[a]] == scores[Rank(scores)[b]] ==>
        Rank(scores)[a] < Rank(scores)[b]
  {
    var r := Rank(scores);
    assert Ordered(scores, r);
  }

  /** `ranked[:best_amount]`: a negative amount drops that many from the end. */
  function TopRanked(scores: seq<real>, bestAmount: int): (r: seq<nat>)
    ensures |r| == KeptCount(|scores|, bestAmount)
    ensures r == Rank(scores)[..|r|]
  {
    Take(Rank(scores), bestAmount)
  }

  /** The number of results `[:best_amount]` keeps out of `n`. */
  function KeptCount(n: nat, bestAmount: int): nat {
    if bestAmount >= 0 then (if bestAmount < n then bestAmount else n)
    else if n + bestAmount < 0 then 0
    else n + bestAmount
  }

  /** The selection keeps `min(best_amount, n)` documents (Python's count for a
      negative amount), each a distinct position, in ranked order, and every
      document it drops ranks behind every document it keeps. */
  lemma TopRankedIsBest(scores: seq<real>, bestAmount: int)
    ensures |TopRanked(scores, bestAmount)| == KeptCount(|scores|, bestAmount)
    ensures Positions(scores, TopRanked(scores, bestAmount))
    ensures Ordered(scores, TopRanked(scores, bestAmount))
    ensures forall a, b :: 0 <= a < b < |TopRanked(scores, bestAmount)| ==>
      TopRanked(scores, bestAmount)[a] != TopRanked(scores, bestAmount)[b]
    ensures forall i, j ::
      (i in TopRanked(scores, bestAmount) && 0 <= j < |scores| &&
       j !in TopRanked(scores, bestAmount)) ==> RanksBefore(scores, i, j)
  {
    var all := Rank(scores);
    var top := TopRanked(scores, bestAmount);
    var m := |top|;
    assert top == all[..m];
    forall i, j | i in top && 0 <= j < |scores| && j !in top
      ensures RanksBefore(scores, i, j)
    {
      var a :| 0 <= a < m && top[a] == i;
      assert j in all;
      var b :| 0 <= b < |all| && all[b] == j;
      assert b >= m;
    }
  }
}
