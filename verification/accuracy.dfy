/**
 Top-k precision (`accuracy` in train_places.py). Each example's class scores
 are ranked as `topk(maxk, 1, largest=True, sorted=True)` ranks them; an
 example counts for `k` when its target is among its first `k` ranked classes,
 and the count is scaled to a percentage of the batch size.

 Ties: the ranking puts a higher score first and, between equal scores, the
 lower class index first.
 */
module Accuracy {
  import opened Wrappers

  /** Class `d` is ranked ahead of class `c`. */
  predicate Beats(row: seq<real>, d: int, c: int)
    requires 0 <= d < |row| && 0 <= c < |row|
  {
    row[d] > row[c] || (row[d] == row[c] && d < c)
  }

  /** The classes ranked ahead of class `t`. */
  function Beaters(row: seq<real>, t: int): set<int>
    requires 0 <= t < |row|
  {
    set d | 0 <= d < |row| && Beats(row, d, t)
  }

  /** The best-ranked class among `i .. |row|-1` that is not yet `taken`. */
  function Pick(row: seq<real>, taken: seq<nat>, i: nat): (r: Option<nat>)
    requires i <= |row|
    decreases |row| - i
    ensures r.Some? ==> i <= r.value < |row| && r.value !in taken
    ensures r.Some? ==> forall d :: i <= d < |row| && d !in taken && d != r.value ==> Beats(row, r.value, d)
    ensures r.None? ==> forall d :: i <= d < |row| ==> d in taken
  {
    if i == |row| then None
    else
      var rest := Pick(row, taken, i + 1);
      if i in taken then rest
      else if rest.None? then Some(i)
      else if Beats(row, rest.value, i) then rest
      else Some(i)
  }

  /** The classes `0 .. n-1`, in order. */
  function Classes(n: nat): (cs: seq<nat>)
    ensures |cs| == n
    ensures forall i :: 0 <= i < n ==> cs[i] == i
  {
    seq(n, i => i)
  }

  /** The distinct elements of a sequence are no more than its length. */
  lemma {:induction false} ElementsSize(p: seq<nat>)
    ensures |set x: int | x in p| <= |p|
    ensures (forall j, j' :: 0 <= j < j' < |p| ==> p[j] != p[j']) ==> |set x: int | x in p| == |p|
  {
    if |p| > 0 {
      var q := p[..|p| - 1];
      ElementsSize(q);
      assert (set x: int | x in p) == (set x: int | x in q) + {p[|p| - 1]} by {
        assert p == q + [p[|p| - 1]];
      }
      if forall j, j' :: 0 <= j < j' < |p| ==> p[j] != p[j'] {
        assert p[|p| - 1] !in q;
      }
    }
  }

  /** A sequence that contains every class `0 .. n-1` is at least `n` long. */
  lemma Pigeonhole(p: seq<nat>, n: nat)
    requires forall d :: 0 <= d < n ==> d in p
    ensures |p| >= n
  {
    var cs := Classes(n);
    ElementsSize(cs);
    ElementsSize(p);
    assert (set x: int | x in cs) <= set x: int | x in p;
    SubsetSize(set x: int | x in cs, set x: int | x in p);
  }

  /**
   The first `k` classes of the ranking. They come in ranking order, and every
   one of them is ranked ahead of every class left out: they are the `k`
   largest scores, sorted.
   */
  function TopIndices(row: seq<real>, k: nat): (p: seq<nat>)
    requires k <= |row|
    ensures |p| == k
    ensures forall j :: 0 <= j < |p| ==> p[j] < |row|
    ensures forall j, j' :: 0 <= j < j' < |p| ==> Beats(row, p[j], p[j'])
    ensures forall j, c :: 0 <= j < |p| && 0 <= c < |row| && c !in p ==> Beats(row, p[j], c)
  {
    if k == 0 then []
    else
      var p := TopIndices(row, k - 1);
      var c := Pick(row, p, 0);
      if c.None? then
        Pigeonhole(p, |row|);
        assert false;
        p
      else
        p + [c.value]
  }

  /** Truncating the ranking for `k` to its first `j` classes gives the ranking for `j`. */
  lemma {:induction false} TopIndicesPrefix(row: seq<real>, k: nat, j: nat)
    requires j <= k <= |row|
    ensures TopIndices(row, k)[..j] == TopIndices(row, j)
    decreases k
  {
    if j < k {
      var p := TopIndices(row, k - 1);
      assert TopIndices(row, k)[..k - 1] == p;
      TopIndicesPrefix(row, k - 1, j);
      assert TopIndices(row, k)[..j] == p[..j];
    }
  }

  /** A ranked class has only ranked classes ahead of it. */
  lemma TopBeatersRanked(row: seq<real>, k: nat, t: int)
    requires k <= |row|
    requires 0 <= t < |row|
    requires t in TopIndices(row, k)
    ensures Beaters(row, t) <= (set x: int | x in TopIndices(row, k)) - {t}
  {
    var p := TopIndices(row, k);
    var i :| 0 <= i < |p| && p[i] == t;
    forall d | d in Beaters(row, t) ensures d in p && d != t {
      assert Beats(row, d, t);
    }
  }

  /** Every ranked class is ahead of a class left out. */
  lemma UnrankedBeaters(row: seq<real>, k: nat, t: int)
    requires k <= |row|
    requires 0 <= t < |row|
    requires t !in TopIndices(row, k)
    ensures (set x: int | x in TopIndices(row, k)) <= Beaters(row, t)
  {
    var p := TopIndices(row, k);
    forall x | x in p ensures x in Beaters(row, t) {
      var j :| 0 <= j < |p| && p[j] == x;
      assert Beats(row, p[j], t);
    }
  }

  /**
   Rank characterisation: class `t` is among the first `k` ranked classes
   exactly when fewer than `k` classes are ranked ahead of it.
   */
  lemma InTopIff(row: seq<real>, k: nat, t: int)
    requires k <= |row|
    requires 0 <= t < |row|
    ensures t in TopIndices(row, k) <==> |Beaters(row, t)| < k
  {
    var p := TopIndices(row, k);
    var elems := set x: int | x in p;
    ElementsSize(p);
    if t in p {
      TopBeatersRanked(row, k, t);
      assert |elems - {t}| == k - 1;
      SubsetSize(Beaters(row, t), elems - {t});
    } else {
      UnrankedBeaters(row, k, t);
      SubsetSize(elems, Beaters(row, t));
    }
  }

  lemma SubsetSize(a: set<int>, b: set<int>)
    requires a <= b
    ensures |a| <= |b|
  {
    assert b == a + (b - a);
  }

  /** How many entries of `pred` equal `t`; for ranked classes, one column of `correct`. */
  function Hits(pred: seq<nat>, t: int): nat
  {
    if |pred| == 0 then 0
    else Hits(pred[..|pred| - 1], t) + (if pred[|pred| - 1] == t then 1 else 0)
  }

  lemma {:induction false} HitsConcat(a: seq<nat>, b: seq<nat>, t: int)
    ensures Hits(a + b, t) == Hits(a, t) + Hits(b, t)
    decreases |b|
  {
    if |b| == 0 {
      assert a + b == a;
    } else {
      assert (a + b)[..|a + b| - 1] == a + b[..|b| - 1];
      HitsConcat(a, b[..|b| - 1], t);
    }
  }

  /** Ranked classes are distinct, so each example contributes at most one hit. */
  lemma {:induction false} HitsDistinct(pred: seq<nat>, t: int)
    requires forall j, j' :: 0 <= j < j' < |pred| ==> pred[j] != pred[j']
    ensures Hits(pred, t) == if t in pred then 1 else 0
  {
    if |pred| > 0 {
      var q := pred[..|pred| - 1];
      HitsDistinct(q, t);
      assert pred == q + [pred[|pred| - 1]];
      if pred[|pred| - 1] == t {
        assert t !in q;
      }
    }
  }

  /** An example counts for `k` in the ranking characterisation. */
  predicate InTop(row: seq<real>, t: int, k: nat)
  {
    0 <= t < |row| && |Beaters(row, t)| < k
  }

  /** Reference count: the examples whose target has fewer than `k` classes ranked ahead of it. */
  function RankedHits(output: seq<seq<real>>, target: seq<int>, k: nat): nat
    requires |target| == |output|
  {
    if |output| == 0 then 0
    else
      var n := |output| - 1;
      RankedHits(output[..n], target[..n], k) + (if InTop(output[n], target[n], k) then 1 else 0)
  }

  /** `correct[:k].sum()`: the matches between targets and the first `k` rows of `pred`. */
  function CorrectK(pred: seq<seq<nat>>, target: seq<int>, k: nat): nat
    requires |target| == |pred|
    requires forall e :: 0 <= e < |pred| ==> k <= |pred[e]|
  {
    if |pred| == 0 then 0
    else
      var n := |pred| - 1;
      CorrectK(pred[..n], target[..n], k) + Hits(pred[n][..k], target[n])
  }

  /** The ranked indices of every example, as `output.topk(maxk, 1, True, True)` returns them. */
  function RankAll(output: seq<seq<real>>, classes: nat, maxk: nat): (pred: seq<seq<nat>>)
    requires forall e :: 0 <= e < |output| ==> |output[e]| == classes
    requires maxk <= classes
    ensures |pred| == |output|
    ensures forall e :: 0 <= e < |pred| ==> |pred[e]| == maxk
  {
    seq(|output|, e requires 0 <= e < |output| => TopIndices(output[e], maxk))
  }

  /** The count `accuracy` computes agrees with the ranking characterisation. */
  lemma {:induction false} CorrectKIsRankedHits(output: seq<seq<real>>, classes: nat, target: seq<int>, maxk: nat, k: nat)
    requires forall e :: 0 <= e < |output| ==> |output[e]| == classes
    requires |target| == |output|
    requires k <= maxk <= classes
    ensures CorrectK(RankAll(output, classes, maxk), target, k) == RankedHits(output, target, k)
  {
    var pred := RankAll(output, classes, maxk);
    if |output| > 0 {
      var n := |output| - 1;
      assert pred[n] == TopIndices(output[n], maxk);
      assert pred[..n] == RankAll(output[..n], classes, maxk);
      CorrectKIsRankedHits(output[..n], classes, target[..n], maxk, k);
      TopIndicesPrefix(output[n], maxk, k);
      HitsDistinct(TopIndices(output[n], k), target[n]);
      if 0 <= target[n] < classes {
        InTopIff(output[n], k, target[n]);
      }
    }
  }

  /** Each example counts at most once, and one that counts for `k` counts for every larger `k`. */
  lemma {:induction false} RankedHitsBounds(output: seq<seq<real>>, target: seq<int>, k: nat, k': nat)
    requires |target| == |output|
    requires k <= k'
    ensures RankedHits(output, target, k) <= RankedHits(output, target, k') <= |output|
  {
    if |output| > 0 {
      var n := |output| - 1;
      RankedHitsBounds(output[..n], target[..n], k, k');
    }
  }

  /** `c` hits out of `batchSize`, as `correct_k.mul_(100.0 / batch_size)`. */
  function Percent(c: nat, batchSize: nat): real
    requires batchSize > 0
  {
    c as real * (100.0 / batchSize as real)
  }

  lemma PercentMonotone(c: nat, c': nat, b: nat)
    requires b > 0
    requires c <= c' <= b
    ensures 0.0 <= Percent(c, b) <= Percent(c', b) <= 100.0
  {
    var u := 100.0 / b as real;
    assert u > 0.0;
    assert u * b as real == 100.0;
    assert (c' - c) as real * u >= 0.0;
    assert (b - c') as real * u >= 0.0;
  }

  function Max(ks: seq<nat>): (m: nat)
    requires |ks| > 0
    ensures forall i :: 0 <= i < |ks| ==> ks[i] <= m
    ensures exists i :: 0 <= i < |ks| && ks[i] == m
  {
    if |ks| == 1 then ks[0]
    else
      var m := Max(ks[..|ks| - 1]);
      assert ks[..|ks| - 1][0] == ks[0];
      if ks[|ks| - 1] > m then ks[|ks| - 1] else m
  }

  datatype AccuracyError =
    | EmptyTopK           // `max(topk)` of an empty tuple
    | TopKExceedsClasses  // `output.topk(maxk, ...)` with more ranks than classes
    | EmptyBatch          // `target.view(1, -1)` of an empty batch

  /** Reference percentages: for each requested `k`, the share of examples whose target ranks in the top `k`. */
  function Percentages(output: seq<seq<real>>, target: seq<int>, topk: seq<nat>): (ps: seq<real>)
    requires |target| == |output| > 0
  {
    seq(|topk|, i requires 0 <= i < |topk| => Percent(RankedHits(output, target, topk[i]), |target|))
  }

  /**
   Reference outcome of `accuracy`: the three failures in the order the code
   meets them (`max` of an empty `topk`, a `topk` wider than the class count,
   `target.view(1, -1)` of an empty batch), otherwise the reference percentages.
   */
  function Expected(output: seq<seq<real>>, classes: nat, target: seq<int>, topk: seq<nat>): Result<seq<real>, AccuracyError>
    requires |target| == |output|
  {
    if |topk| == 0 then Err(EmptyTopK)
    else if Max(topk) > classes then Err(TopKExceedsClasses)
    else if |target| == 0 then Err(EmptyBatch)
    else Ok(Percentages(output, target, topk))
  }

  /**
   `accuracy(output, target, topk)`: ranks every example with `topk`, counts
   the matches in the first `k` ranks and scales them. The outcome is the
   reference one: each percentage is the share of examples whose target has
   fewer than `k` classes ranked ahead of it. The results lie in `[0, 100]`
   and never decrease as `k` grows.
   */
  method TopKAccuracy(output: seq<seq<real>>, classes: nat, target: seq<int>, topk: seq<nat>)
    returns (r: Result<seq<real>, AccuracyError>)
    requires forall e :: 0 <= e < |output| ==> |output[e]| == classes
    requires |target| == |output|
    ensures r == Expected(output, classes, target, topk)
    ensures r.Ok? ==> forall i :: 0 <= i < |r.value| ==> 0.0 <= r.value[i] <= 100.0
    ensures r.Ok? ==> forall i, j :: 0 <= i < |topk| && 0 <= j < |topk| && topk[i] <= topk[j] ==>
              r.value[i] <= r.value[j]
  {
    if |topk| == 0 {
      return Err(EmptyTopK);
    }
    var maxk := Max(topk);
    var batchSize := |target|;
    if maxk > classes {
      return Err(TopKExceedsClasses);
    }
    var pred := RankAll(output, classes, maxk);
    if batchSize == 0 {
      return Err(EmptyBatch);
    }
    var res: seq<real> := [];
    for i := 0 to |topk|
      invariant |res| == i
      invariant forall j :: 0 <= j < i ==> res[j] == Percent(RankedHits(output, target, topk[j]), batchSize)
    {
      assert topk[i] <= maxk;
      var correctK := CorrectK(pred, target, topk[i]);
      CorrectKIsRankedHits(output, classes, target, maxk, topk[i]);
      res := res + [Percent(correctK, batchSize)];
    }
    PercentagesOrdered(output, target, topk, res);
    assert res == Percentages(output, target, topk);
    return Ok(res);
  }

  /** Percentages of ranked hits lie in `[0, 100]` and follow the order of their `k`. */
  lemma PercentagesOrdered(output: seq<seq<real>>, target: seq<int>, topk: seq<nat>, res: seq<real>)
    requires |target| == |output| > 0
    requires |res| == |topk|
    requires forall i :: 0 <= i < |topk| ==> res[i] == Percent(RankedHits(output, target, topk[i]), |target|)
    ensures forall i :: 0 <= i < |topk| ==> 0.0 <= res[i] <= 100.0
    ensures forall i, j :: 0 <= i < |topk| && 0 <= j < |topk| && topk[i] <= topk[j] ==> res[i] <= res[j]
  {
    forall i, j | 0 <= i < |topk| && 0 <= j < |topk| && topk[i] <= topk[j]
      ensures 0.0 <= res[i] <= res[j] <= 100.0
    {
      RankedHitsBounds(output, target, topk[i], topk[j]);
      PercentMonotone(RankedHits(output, target, topk[i]), RankedHits(output, target, topk[j]), |target|);
    }
    forall i | 0 <= i < |topk| ensures 0.0 <= res[i] <= 100.0 {
      RankedHitsBounds(output, target, topk[i], topk[i]);
      PercentMonotone(RankedHits(output, target, topk[i]), RankedHits(output, target, topk[i]), |target|);
    }
  }

  /** The ranking of the worked example `[0.1, 0.7, 0.2]`: class 1, then class 2, then class 0. */
  lemma RankingExample()
    ensures TopIndices([0.1, 0.7, 0.2], 3) == [1, 2, 0]
  {
    var row := [0.1, 0.7, 0.2];
    assert Pick(row, [], 0) == Some(1);
    assert Pick(row, [1], 0) == Some(2);
    assert Pick(row, [1, 2], 0) == Some(0);
  }

  /**
   The worked example: scores `[[0.1, 0.7, 0.2]]` with label 1 give top-1
   precision 100; with label 0 they give top-1 and top-2 precision 0 (class 0
   has the lowest score) and top-3 precision 100.
   */
  lemma AccuracyExample()
    ensures Percent(RankedHits([[0.1, 0.7, 0.2]], [1], 1), 1) == 100.0
    ensures Percent(RankedHits([[0.1, 0.7, 0.2]], [0], 1), 1) == 0.0
    ensures Percent(RankedHits([[0.1, 0.7, 0.2]], [0], 2), 1) == 0.0
    ensures Percent(RankedHits([[0.1, 0.7, 0.2]], [0], 3), 1) == 100.0
  {
    var row := [0.1, 0.7, 0.2];
    var out := [row];
    RankingExample();
    TopIndicesPrefix(row, 3, 1);
    TopIndicesPrefix(row, 3, 2);
    assert TopIndices(row, 1) == [1];
    assert TopIndices(row, 2) == [1, 2] by {
      assert [1, 2, 0][..2] == [1, 2];
    }
    InTopIff(row, 1, 1);
    InTopIff(row, 1, 0);
    InTopIff(row, 2, 0);
    InTopIff(row, 3, 0);
    assert out[..0] == [];
  }
}
