/**
 The streaming metric accumulator `AverageMeter` of train_places.py: it keeps
 the last value seen, a weighted running sum, the total weight and the running
 average. Values are exact reals; floating-point rounding is not modelled.
 */
module Meter {
  import opened Wrappers

  datatype AverageMeter = AverageMeter(val: real, sum: real, count: int, avg: real)

  /** One call `update(value, weight)`. */
  datatype Sample = Sample(value: real, weight: int)

  /** The state `reset` leaves behind (and the one `__init__` creates). */
  function Reset(): AverageMeter {
    AverageMeter(0.0, 0.0, 0, 0.0)
  }

  /**
   `update(v, n)`: remember `v`, add `v * n` to the sum and `n` to the count,
   and recompute the average. When the new count is zero, `sum / count` is a
   division by zero and no meter results.
   */
  function Update(m: AverageMeter, v: real, n: int): (r: Option<AverageMeter>)
    ensures r.Some? <==> m.count + n != 0
    ensures r.Some? ==> r.value.val == v
    ensures r.Some? ==> r.value.sum == m.sum + v * n as real
    ensures r.Some? ==> r.value.count == m.count + n
    ensures r.Some? ==> r.value.avg * r.value.count as real == r.value.sum
  {
    var count := m.count + n;
    if count == 0 then None
    else
      var sum := m.sum + v * n as real;
      Some(AverageMeter(v, sum, count, sum / count as real))
  }

  /** The meter after the updates `s`, in order, starting from `m`. */
  function UpdateAll(m: AverageMeter, s: seq<Sample>): Option<AverageMeter>
  {
    if |s| == 0 then Some(m)
    else
      match UpdateAll(m, s[..|s| - 1])
      case None => None
      case Some(m') => Update(m', s[|s| - 1].value, s[|s| - 1].weight)
  }

  /** The sum of `value * weight` over the samples. */
  function WeightedSum(s: seq<Sample>): real
  {
    if |s| == 0 then 0.0
    else WeightedSum(s[..|s| - 1]) + s[|s| - 1].value * s[|s| - 1].weight as real
  }

  /** The sum of the weights of the samples. */
  function TotalWeight(s: seq<Sample>): int
  {
    if |s| == 0 then 0 else TotalWeight(s[..|s| - 1]) + s[|s| - 1].weight
  }

  predicate PositiveWeights(s: seq<Sample>)
  {
    forall i :: 0 <= i < |s| ==> s[i].weight > 0
  }

  /**
   Starting from a meter with a non-negative count, updates with positive
   weights (batch sizes) never divide by zero; the sum and the count grow by
   exactly the weighted sum and the total weight of the samples, and the last
   sample is the current value.
   */
  lemma {:induction false} UpdateAllAccumulates(m: AverageMeter, s: seq<Sample>)
    requires m.count >= 0
    requires PositiveWeights(s)
    ensures UpdateAll(m, s).Some?
    ensures UpdateAll(m, s).value.sum == m.sum + WeightedSum(s)
    ensures UpdateAll(m, s).value.count == m.count + TotalWeight(s)
    ensures |s| > 0 ==> UpdateAll(m, s).value.val == s[|s| - 1].value
    ensures |s| > 0 ==> TotalWeight(s) > 0
  {
    if |s| > 0 {
      var p := s[..|s| - 1];
      assert PositiveWeights(p) by {
        forall i | 0 <= i < |p| ensures p[i].weight > 0 {
          assert p[i] == s[i];
        }
      }
      UpdateAllAccumulates(m, p);
      assert TotalWeight(p) >= 0 by {
        if |p| > 0 { }
      }
    }
  }

  /**
   After `reset` and updates with positive weights, the average is the
   weighted mean of all values seen: the sum of `value * weight` divided by
   the total weight.
   */
  lemma AverageIsWeightedMean(s: seq<Sample>)
    requires |s| > 0
    requires PositiveWeights(s)
    ensures UpdateAll(Reset(), s).Some?
    ensures TotalWeight(s) > 0
    ensures UpdateAll(Reset(), s).value.avg == WeightedSum(s) / TotalWeight(s) as real
  {
    UpdateAllAccumulates(Reset(), s);
    var m := UpdateAll(Reset(), s).value;
    assert m.avg * m.count as real == m.sum by {
      var p := s[..|s| - 1];
      UpdateAllAccumulates(Reset(), p);
    }
  }

  /** If every weighted value lies in `[lo, hi]`, so does the weighted sum scaled by the total weight. */
  lemma {:induction false} WeightedSumBounds(s: seq<Sample>, lo: real, hi: real)
    requires PositiveWeights(s)
    requires forall i :: 0 <= i < |s| ==> lo <= s[i].value <= hi
    ensures lo * TotalWeight(s) as real <= WeightedSum(s) <= hi * TotalWeight(s) as real
  {
    if |s| > 0 {
      var p := s[..|s| - 1];
      var x := s[|s| - 1];
      assert PositiveWeights(p) by {
        forall i | 0 <= i < |p| ensures p[i].weight > 0 {
          assert p[i] == s[i];
        }
      }
      forall i | 0 <= i < |p| ensures lo <= p[i].value <= hi {
        assert p[i] == s[i];
      }
      WeightedSumBounds(p, lo, hi);
      var w := x.weight as real;
      assert lo * w <= x.value * w <= hi * w by {
        assert w > 0.0;
        assert (x.value - lo) * w >= 0.0;
        assert (hi - x.value) * w >= 0.0;
      }
    }
  }

  /**
   The running average of values that all lie in `[lo, hi]` (for instance
   precisions in `[0, 100]`) stays in `[lo, hi]`.
   */
  lemma AverageWithinBounds(s: seq<Sample>, lo: real, hi: real)
    requires |s| > 0
    requires PositiveWeights(s)
    requires forall i :: 0 <= i < |s| ==> lo <= s[i].value <= hi
    ensures UpdateAll(Reset(), s).Some?
    ensures lo <= UpdateAll(Reset(), s).value.avg <= hi
  {
    AverageIsWeightedMean(s);
    WeightedSumBounds(s, lo, hi);
    QuotientBounds(WeightedSum(s), TotalWeight(s) as real, lo, hi);
  }

  lemma QuotientBounds(a: real, t: real, lo: real, hi: real)
    requires t > 0.0
    requires lo * t <= a <= hi * t
    ensures lo <= a / t <= hi
  {
    var q := a / t;
    assert q * t == a;
    assert (q - lo) * t >= 0.0;
    assert (hi - q) * t >= 0.0;
  }

  /** The worked example of the metric accumulator: `update(4, 2)` then `update(2, 1)`. */
  lemma UpdateExample()
    ensures UpdateAll(Reset(), [Sample(4.0, 2), Sample(2.0, 1)]) == Some(AverageMeter(2.0, 10.0, 3, 10.0 / 3.0))
  {
    var s := [Sample(4.0, 2), Sample(2.0, 1)];
    assert s[..1] == [Sample(4.0, 2)];
    assert [Sample(4.0, 2)][..0] == [];
  }

  /**
   One top-1 meter per epoch as in `train`: each batch of `sizes[b]` examples
   with `hits[b]` correct predictions contributes the percentage
   `100 * hits[b] / sizes[b]` with weight `sizes[b]`. The average over the
   epoch is the percentage of correct predictions over all examples.
   */
  function PrecisionSamples(hits: seq<nat>, sizes: seq<int>): (s: seq<Sample>)
    requires |hits| == |sizes|
    requires forall b :: 0 <= b < |sizes| ==> sizes[b] > 0
    ensures |s| == |hits|
    ensures PositiveWeights(s)
  {
    seq(|hits|, b requires 0 <= b < |hits| => BatchSample(hits[b], sizes[b]))
  }

  function SumNat(xs: seq<nat>): nat
  {
    if |xs| == 0 then 0 else SumNat(xs[..|xs| - 1]) + xs[|xs| - 1]
  }

  lemma {:induction false} SumNatConcat(a: seq<nat>, b: seq<nat>)
    ensures SumNat(a + b) == SumNat(a) + SumNat(b)
    decreases |b|
  {
    if |b| == 0 {
      assert a + b == a;
    } else {
      assert (a + b)[..|a + b| - 1] == a + b[..|b| - 1];
      SumNatConcat(a, b[..|b| - 1]);
    }
  }

  function SumInt(xs: seq<int>): int
  {
    if |xs| == 0 then 0 else SumInt(xs[..|xs| - 1]) + xs[|xs| - 1]
  }

  /** The sample of a batch with `hits` correct out of `size` examples. */
  function BatchSample(hits: nat, size: int): Sample
    requires size > 0
  {
    Sample(hits as real * (100.0 / size as real), size)
  }

  /** Sample `x` adds 100 times `hits` to the weighted sum. */
  predicate Contributes(x: Sample, hits: nat)
  {
    x.value * x.weight as real == 100.0 * hits as real
  }

  /** A batch's percentage times its size is 100 times its hits. */
  lemma PercentTimesSize(hits: nat, size: int)
    requires size > 0
    ensures Contributes(BatchSample(hits, size), hits)
  {
    var w := size as real;
    assert (100.0 / w) * w == 100.0;
  }

  /** Samples whose value times weight is 100 times a hit count have weighted sum 100 times the hits. */
  lemma {:induction false} WeightedSumOfPercents(s: seq<Sample>, hits: seq<nat>)
    requires |s| == |hits|
    requires forall b :: 0 <= b < |s| ==> Contributes(s[b], hits[b])
    ensures WeightedSum(s) == 100.0 * SumNat(hits) as real
  {
    if |s| > 0 {
      var n := |s| - 1;
      WeightedSumOfPercents(s[..n], hits[..n]);
      assert Contributes(s[n], hits[n]);
    }
  }

  /** The total weight of samples is the sum of their weights. */
  lemma {:induction false} TotalWeightOfSizes(s: seq<Sample>, sizes: seq<int>)
    requires |s| == |sizes|
    requires forall b :: 0 <= b < |s| ==> s[b].weight == sizes[b]
    ensures TotalWeight(s) == SumInt(sizes)
  {
    if |s| > 0 {
      var n := |s| - 1;
      TotalWeightOfSizes(s[..n], sizes[..n]);
    }
  }

  lemma PrecisionSums(hits: seq<nat>, sizes: seq<int>)
    requires |hits| == |sizes|
    requires forall b :: 0 <= b < |sizes| ==> sizes[b] > 0
    ensures WeightedSum(PrecisionSamples(hits, sizes)) == 100.0 * SumNat(hits) as real
    ensures TotalWeight(PrecisionSamples(hits, sizes)) == SumInt(sizes)
  {
    var s := PrecisionSamples(hits, sizes);
    forall b | 0 <= b < |s| ensures Contributes(s[b], hits[b]) {
      assert s[b] == BatchSample(hits[b], sizes[b]);
      PercentTimesSize(hits[b], sizes[b]);
    }
    WeightedSumOfPercents(s, hits);
    TotalWeightOfSizes(s, sizes);
  }

  lemma EpochPrecision(hits: seq<nat>, sizes: seq<int>)
    requires |hits| == |sizes| > 0
    requires forall b :: 0 <= b < |sizes| ==> sizes[b] > 0
    ensures UpdateAll(Reset(), PrecisionSamples(hits, sizes)).Some?
    ensures SumInt(sizes) > 0
    ensures UpdateAll(Reset(), PrecisionSamples(hits, sizes)).value.avg
            == 100.0 * SumNat(hits) as real / SumInt(sizes) as real
  {
    PrecisionSums(hits, sizes);
    AverageIsWeightedMean(PrecisionSamples(hits, sizes));
  }
}
