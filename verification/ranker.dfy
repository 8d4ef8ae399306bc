/** Top-k selection of the QA chain:
    `np.argsort(similarities)[-top_k:][::-1]`.

    `np.argsort` is library code; the model takes it as a function and relies
    only on its contract: the result is a permutation of the positions
    0..n-1 along which the scores never decrease. Its default algorithm is
    not stable, so nothing is assumed about the order of equal scores.
    The slice `[-top_k:]` is modelled with Python's slice rules for every
    integer `top_k`, and `[::-1]` reverses.
 */
module Ranker {

  /** No position occurs twice. */
  predicate Distinct(p: seq<nat>)
  {
    forall i, j :: 0 <= i < j < |p| ==> p[i] != p[j]
  }

  /** Every position in 0..n-1 occurs exactly once. */
  ghost predicate IsIndexPermutation(p: seq<nat>, n: nat)
  {
    && |p| == n
    && (forall i :: 0 <= i < |p| ==> p[i] < n)
    && Distinct(p)
    && (forall x: nat :: x < n ==> x in p)
  }

  /** `p` is a valid result of `np.argsort(scores)`: a permutation of the
      positions with non-decreasing scores along it. */
  ghost predicate IsArgsort(scores: seq<real>, p: seq<nat>)
  {
    && IsIndexPermutation(p, |scores|)
    && (forall i, j :: 0 <= i < j < |p| ==> scores[p[i]] <= scores[p[j]])
  }

  /** An argsort implementation that meets the argsort contract on every input. */
  ghost predicate ValidArgsort(argsort: seq<real> -> seq<nat>)
  {
    forall scores :: IsArgsort(scores, argsort(scores))
  }

  /** The start position of the Python slice `xs[-t:]` on a list of length n.
      For t > 0 it keeps the last min(t, n) items; `-0` is `0`, so t == 0
      keeps everything; a negative t drops the first -t items. */
  function SliceStart(n: nat, t: int): (start: nat)
    ensures start <= n
    ensures t >= 1 ==> n - start == if t <= n then t else n
    ensures t == 0 ==> start == 0
    ensures t < 0 ==> n - start == if n + t >= 0 then n + t else 0
  {
    if t > 0 then (if t >= n then 0 else n - t)
    else (if -t >= n then n else -t)
  }

  /** `xs[::-1]` */
  function Reverse(xs: seq<nat>): (r: seq<nat>)
    ensures |r| == |xs|
    ensures forall i :: 0 <= i < |xs| ==> r[i] == xs[|xs| - 1 - i]
  {
    seq(|xs|, i requires 0 <= i < |xs| => xs[|xs| - 1 - i])
  }

  /** `order[-t:][::-1]` */
  function TopIndices(order: seq<nat>, t: int): (top: seq<nat>)
    ensures t >= 1 ==> |top| == if t <= |order| then t else |order|
    ensures t == 0 ==> |top| == |order|
    ensures t < 0 ==> |top| == if |order| + t >= 0 then |order| + t else 0
    ensures forall i :: 0 <= i < |top| ==> top[i] == order[|order| - 1 - i]
  {
    Reverse(order[SliceStart(|order|, t)..])
  }

  /** Every position of `order` from the slice start on is selected. */
  lemma SuffixSelected(order: seq<nat>, t: int)
    ensures var top := TopIndices(order, t);
      forall m :: SliceStart(|order|, t) <= m < |order| ==> order[m] in top
  {
    var n := |order|;
    var top := TopIndices(order, t);
    forall m | SliceStart(n, t) <= m < n ensures order[m] in top {
      assert top[n - 1 - m] == order[m];
    }
  }

  /** Selected positions are distinct positions of the scores. */
  lemma TopIndicesDistinct(scores: seq<real>, order: seq<nat>, t: int)
    requires IsArgsort(scores, order)
    ensures var top := TopIndices(order, t);
      && (forall i :: 0 <= i < |top| ==> top[i] < |scores|)
      && (forall i, j :: 0 <= i < j < |top| ==> top[i] != top[j])
  {
    var n := |scores|;
    var top := TopIndices(order, t);
    forall i | 0 <= i < |top| ensures top[i] < n {
      assert top[i] == order[n - 1 - i];
    }
    forall i, j | 0 <= i < j < |top| ensures top[i] != top[j] {
      var a, b := n - 1 - j, n - 1 - i;
      assert top[i] == order[b] && top[j] == order[a];
      assert order[a] != order[b];
    }
  }

  /** The selection is ordered by non-increasing score. */
  lemma TopIndicesDescending(scores: seq<real>, order: seq<nat>, t: int)
    requires IsArgsort(scores, order)
    ensures var top := TopIndices(order, t);
      forall i, j :: 0 <= i < j < |top| ==> scores[top[i]] >= scores[top[j]]
  {
    var n := |scores|;
    var top := TopIndices(order, t);
    forall i, j | 0 <= i < j < |top| ensures scores[top[i]] >= scores[top[j]] {
      var a, b := n - 1 - j, n - 1 - i;
      assert top[i] == order[b] && top[j] == order[a];
      assert scores[order[a]] <= scores[order[b]];
    }
  }

  /** No unselected position scores above a selected one. */
  lemma TopIndicesDominate(scores: seq<real>, order: seq<nat>, t: int)
    requires IsArgsort(scores, order)
    ensures var top := TopIndices(order, t);
      forall i, x: nat :: 0 <= i < |top| && x < |scores| && x !in top ==> scores[top[i]] >= scores[x]
  {
    var n := |scores|;
    var top := TopIndices(order, t);
    var start := SliceStart(n, t);
    SuffixSelected(order, t);
    forall i, x: nat | 0 <= i < |top| && x < n && x !in top ensures scores[top[i]] >= scores[x] {
      assert x in order;
      var m :| 0 <= m < n && order[m] == x;
      assert m < start;
      var b := n - 1 - i;
      assert top[i] == order[b];
      assert scores[order[m]] <= scores[order[b]];
    }
  }

  /** A position whose score is strictly above every other one is selected
      first whenever at least one position is selected. */
  lemma BestIsFirst(scores: seq<real>, order: seq<nat>, t: int, best: nat)
    requires IsArgsort(scores, order)
    requires best < |scores|
    requires forall x :: 0 <= x < |scores| && x != best ==> scores[x] < scores[best]
    requires |TopIndices(order, t)| >= 1
    ensures TopIndices(order, t)[0] == best
  {
    assert best in order;
  }

  /** Every position is below n. */
  predicate InRange(p: seq<nat>, n: nat)
  {
    forall i :: 0 <= i < |p| ==> p[i] < n
  }

  /** Scores never decrease along `p`. */
  ghost predicate SortedBy(scores: seq<real>, p: seq<nat>)
  {
    InRange(p, |scores|) && forall i, j :: 0 <= i < j < |p| ==> scores[p[i]] <= scores[p[j]]
  }

  /** Inserts position x into `p` after every leading position whose score
      is not above x's. */
  function InsertByScore(scores: seq<real>, p: seq<nat>, x: nat): (r: seq<nat>)
    requires x < |scores| && InRange(p, |scores|)
    ensures |r| == |p| + 1
    ensures forall y :: y in r <==> y in p || y == x
    ensures InRange(r, |scores|)
  {
    if |p| == 0 then [x]
    else if scores[x] < scores[p[0]] then [x] + p
    else
      var rest := InsertByScore(scores, p[1..], x);
      assert p == [p[0]] + p[1..];
      [p[0]] + rest
  }

  /** Insertion keeps a sorted sequence sorted. */
  lemma {:induction false} InsertKeepsSorted(scores: seq<real>, p: seq<nat>, x: nat)
    requires x < |scores| && SortedBy(scores, p)
    ensures SortedBy(scores, InsertByScore(scores, p, x))
  {
    if |p| > 0 && scores[p[0]] <= scores[x] {
      var rest := InsertByScore(scores, p[1..], x);
      InsertKeepsSorted(scores, p[1..], x);
      var r := [p[0]] + rest;
      assert r == InsertByScore(scores, p, x);
      forall k | 0 <= k < |rest| ensures scores[p[0]] <= scores[rest[k]] {
        if rest[k] != x {
          assert rest[k] in p[1..];
          var j :| 0 <= j < |p[1..]| && p[1..][j] == rest[k];
          assert rest[k] == p[j + 1];
        }
      }
      forall i, j | 0 <= i < j < |r| ensures scores[r[i]] <= scores[r[j]] {
        assert r[j] == rest[j - 1];
        if i > 0 {
          assert r[i] == rest[i - 1];
        }
      }
    }
  }

  /** Inserting a new position keeps the positions distinct. */
  lemma {:induction false} InsertKeepsDistinct(scores: seq<real>, p: seq<nat>, x: nat)
    requires x < |scores| && InRange(p, |scores|)
    requires Distinct(p) && x !in p
    ensures Distinct(InsertByScore(scores, p, x))
  {
    if |p| > 0 && scores[p[0]] <= scores[x] {
      var rest := InsertByScore(scores, p[1..], x);
      assert p == [p[0]] + p[1..];
      InsertKeepsDistinct(scores, p[1..], x);
      assert p[0] !in rest;
      var r := [p[0]] + rest;
      forall i, j | 0 <= i < j < |r| ensures r[i] != r[j] {
        assert r[j] == rest[j - 1];
        if i > 0 {
          assert r[i] == rest[i - 1];
        }
      }
    }
  }

  /** Insertion argsort of the first k positions. */
  function ArgsortPrefix(scores: seq<real>, k: nat): (r: seq<nat>)
    requires k <= |scores|
    ensures |r| == k
    ensures forall y: nat :: y in r <==> y < k
    ensures SortedBy(scores, r)
    ensures Distinct(r)
  {
    if k == 0 then []
    else
      var prev := ArgsortPrefix(scores, k - 1);
      InsertKeepsSorted(scores, prev, k - 1);
      InsertKeepsDistinct(scores, prev, k - 1);
      InsertByScore(scores, prev, k - 1)
  }

  /** A stable argsort: equal scores keep their positions' order. It shows
      that the argsort contract can be met. */
  function StableArgsort(scores: seq<real>): (p: seq<nat>)
    ensures IsArgsort(scores, p)
  {
    ArgsortPrefix(scores, |scores|)
  }

  lemma StableArgsortIsValid()
    ensures ValidArgsort(StableArgsort)
  {
  }
}
