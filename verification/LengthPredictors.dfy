/**
  Output-length predictors of `benchmarks/bon_output_length_prediction.py`: once some branches of a
  request have finished, how long the others will run is estimated from the finished lengths,
  a prior, and the fact that the others have outlived the longest finished one.
 */
module LengthPredictors {
  import opened Common
  import opened RealArith
  import opened OrderStatistics

  /** A branch: its length, and its softmax weight if it has an average logprob. The weight is an
      exponential, so it is positive. */
  datatype Branch = Branch(outputLen: real, weight: Option<real>)

  datatype Predictions = Predictions(
    baselinePrior: real,
    siblingMean: real,
    siblingMeanShrink: real,
    siblingMeanCensored: real,
    siblingMedianCensored: real,
    logprobWeightedCensored: real,
    orderTailMean: real,
    orderTailP75: real,
    orderTailP90: real,
    tailMeanBlend: real,
    tailMedianBlend: real,
    logprobTailBlend: real,
    confidenceTailBlend: real,
    riskAdjustedTailBlend: real,
    confidencePriorBlend: real,
    confidence: real,
    lowerBound: real)

  // ---------- Averages of finished lengths ----------

  function SumLen(bs: seq<Branch>): real {
    if bs == [] then 0.0 else SumLen(bs[..|bs| - 1]) + bs[|bs| - 1].outputLen
  }

  function Mean(bs: seq<Branch>): real
    requires bs != []
  {
    SumLen(bs) / |bs| as real
  }

  function Lengths(bs: seq<Branch>): (r: seq<real>)
    ensures |r| == |bs|
  {
    seq(|bs|, i requires 0 <= i < |bs| => bs[i].outputLen)
  }

  /** `statistics.median`: the middle length, or the average of the two middle ones. */
  function Median(bs: seq<Branch>): real
    requires bs != []
  {
    var n, lengths := |bs|, Sorted(Lengths(bs));
    if n % 2 == 1 then lengths[n / 2] else (lengths[n / 2 - 1] + lengths[n / 2]) / 2.0
  }

  function SumWeight(bs: seq<Branch>): real {
    if bs == [] then 0.0
    else
      var b := bs[|bs| - 1];
      SumWeight(bs[..|bs| - 1]) + if b.weight.Some? then b.weight.value else 0.0
  }

  function SumWeighted(bs: seq<Branch>): real {
    if bs == [] then 0.0
    else
      var b := bs[|bs| - 1];
      SumWeighted(bs[..|bs| - 1]) + if b.weight.Some? then Mul(b.outputLen, b.weight.value) else 0.0
  }

  function SoftmaxWeightedLength(bs: seq<Branch>): Option<real> {
    if SumWeight(bs) <= 0.0 then None else Some(SumWeighted(bs) / SumWeight(bs))
  }

  ghost predicate AtMost(bs: seq<Branch>, x: real) {
    forall i :: 0 <= i < |bs| ==> bs[i].outputLen <= x
  }

  ghost predicate Weights(bs: seq<Branch>) {
    forall i :: 0 <= i < |bs| && bs[i].weight.Some? ==> bs[i].weight.value > 0.0
  }

  lemma {:induction false} SumAtMost(bs: seq<Branch>, x: real)
    requires AtMost(bs, x)
    ensures SumLen(bs) <= Mul(|bs| as real, x)
  {
    if bs == [] {
    } else {
      var n := |bs| - 1;
      SumAtMost(bs[..n], x);
      MulDistributes(n as real, 1.0, x);
    }
  }

  lemma {:induction false} QuotientAtMost(s: real, d: real, x: real)
    requires d > 0.0 && s <= Mul(d, x)
    ensures s / d <= x
  {
    DivThenMul(s, d);
    MulCancel(d, s / d, x);
  }

  lemma {:induction false} MeanAtMost(bs: seq<Branch>, x: real)
    requires bs != [] && AtMost(bs, x)
    ensures Mean(bs) <= x
  {
    SumAtMost(bs, x);
    QuotientAtMost(SumLen(bs), |bs| as real, x);
  }

  lemma {:induction false} MedianAtMost(bs: seq<Branch>, x: real)
    requires bs != [] && AtMost(bs, x)
    ensures Median(bs) <= x
  {
    var n := |bs|;
    SortedIsLength(bs, n / 2, x);
    SortedIsLength(bs, (n - 1) / 2, x);
  }

  lemma {:induction false} SortedIsLength(bs: seq<Branch>, i: nat, x: real)
    requires i < |bs| && AtMost(bs, x)
    ensures Sorted(Lengths(bs))[i] <= x
  {
    hide Sorted, Ascending;
    SortedIsSorted(Lengths(bs));
    var y := Sorted(Lengths(bs))[i];
    assert y in multiset(Sorted(Lengths(bs)));
    var j :| 0 <= j < |bs| && Lengths(bs)[j] == y;
  }

  lemma {:induction false} WeightedAtMost(bs: seq<Branch>, x: real)
    requires AtMost(bs, x) && Weights(bs)
    ensures SumWeighted(bs) <= Mul(SumWeight(bs), x) && SumWeight(bs) >= 0.0
  {
    if bs == [] {
    } else {
      var n := |bs| - 1;
      WeightedAtMost(bs[..n], x);
      var b := bs[n];
      if b.weight.Some? {
        MulOrder(b.weight.value, b.outputLen, x);
        MulCommutes(b.outputLen, b.weight.value);
        MulDistributes(SumWeight(bs[..n]), b.weight.value, x);
      }
    }
  }

  lemma {:induction false} SoftmaxAtMost(bs: seq<Branch>, x: real)
    requires AtMost(bs, x) && Weights(bs)
    ensures SoftmaxWeightedLength(bs).Some? ==> SoftmaxWeightedLength(bs).value <= x
  {
    WeightedAtMost(bs, x);
    if SumWeight(bs) > 0.0 { QuotientAtMost(SumWeighted(bs), SumWeight(bs), x); }
  }

  // ---------- The predictions ----------

  function Clamp(x: real, low: real, high: real): real { Min(high, Max(low, x)) }

  function Weight(n: nat, shrinkK: real): real
    requires n > 0 && shrinkK >= 0.0
  {
    n as real / (n as real + shrinkK)
  }

  /** `(1 - w) * x + w * y` */
  function Blend(w: real, x: real, y: real): real { Mul(1.0 - w, x) + Mul(w, y) }

  /** How much the estimate from siblings is to be trusted; `std` is the deviation of their lengths. */
  function Confidence(weight: real, std: real, mean: real, lowerBound: real, prior: real): real
    requires std >= 0.0
  {
    QuotientNonNegative(std, Max(mean, 1.0));
    var consistency := 1.0 / (1.0 + std / Max(mean, 1.0));
    var bound := Clamp(lowerBound / Max(prior, 1.0), 0.0, 1.0);
    Clamp(Mul(Mul(weight, consistency), 0.5 + 0.5 * bound), 0.0, 1.0)
  }

  function BuildPredictions(
      finished: seq<Branch>, kth: real, prior: real, shrinkK: real, floor: real, std: real): Predictions
    requires finished != [] && shrinkK >= 0.0 && std >= 0.0
  {
    var weight := Weight(|finished|, shrinkK);
    var mean, median := Mean(finished), Median(finished);
    var meanShrink, medianShrink := Blend(weight, prior, mean), Blend(weight, prior, median);
    var logprob := SoftmaxWeightedLength(finished);
    var logprobShrink := if logprob.None? then meanShrink else Blend(weight, prior, logprob.value);
    var lowerBound := kth + floor;
    var tailMean := 0.5 * (lowerBound + prior);
    var tailP75 := lowerBound + 0.75 * Max(0.0, prior - lowerBound);
    var tailP90 := lowerBound + 0.90 * Max(0.0, prior - lowerBound);
    var tailBlend, medianBlend := Blend(weight, tailMean, mean), Blend(weight, tailMean, median);
    var logprobBlend := Blend(weight, tailMean, if logprob.Some? then logprob.value else mean);
    var confidence := Confidence(weight, std, mean, lowerBound, prior);
    var tailMedian := Max(medianBlend, lowerBound);
    Predictions(
      prior, mean, meanShrink,
      Max(meanShrink, lowerBound), Max(medianShrink, lowerBound), Max(logprobShrink, lowerBound),
      tailMean, tailP75, tailP90,
      Max(tailBlend, lowerBound), tailMedian, Max(logprobBlend, lowerBound),
      Blend(1.0 - confidence, tailMedian, tailMean),
      Min(prior, tailMedian + Mul((1.0 - confidence) * 0.15, Max(0.0, prior - lowerBound))),
      Blend(1.0 - confidence, tailMedian, prior),
      confidence, lowerBound)
  }

  lemma {:induction false} WeightIsFraction(n: nat, shrinkK: real)
    requires n > 0 && shrinkK >= 0.0
    ensures 0.0 < Weight(n, shrinkK) <= 1.0
  {
    var d := n as real + shrinkK;
    QuotientAtMost(n as real, d, 1.0);
    DivThenMul(n as real, d);
    if Weight(n, shrinkK) <= 0.0 { MulOrder(d, Weight(n, shrinkK), 0.0); }
  }

  lemma {:induction false} BlendBetween(w: real, x: real, y: real)
    requires 0.0 <= w <= 1.0
    ensures x <= y ==> x <= Blend(w, x, y) <= y
    ensures y <= x ==> y <= Blend(w, x, y) <= x
  {
    MulDistributes(1.0 - w, w, x);
    MulDistributes(1.0 - w, w, y);
    if x <= y {
      MulOrder(w, x, y);
      MulOrder(1.0 - w, x, y);
    }
    if y <= x {
      MulOrder(w, y, x);
      MulOrder(1.0 - w, y, x);
    }
  }

  // ---------- The order of the predictions ----------

  /** From the most to the least optimistic. */
  ghost predicate InOrder(p: Predictions) {
    p.lowerBound <= p.tailMedianBlend <= p.confidenceTailBlend <= p.orderTailMean
      <= p.orderTailP75 <= p.orderTailP90 <= p.baselinePrior
  }

  /** Everything that takes the bound into account stays between it and the prior. */
  ghost predicate Censored(p: Predictions) {
    && p.lowerBound <= p.siblingMeanCensored <= p.baselinePrior
    && p.lowerBound <= p.siblingMedianCensored <= p.baselinePrior
    && p.lowerBound <= p.logprobWeightedCensored <= p.baselinePrior
    && p.lowerBound <= p.tailMeanBlend <= p.orderTailMean
    && p.lowerBound <= p.logprobTailBlend <= p.orderTailMean
    && p.lowerBound <= p.riskAdjustedTailBlend <= p.baselinePrior
    && p.confidenceTailBlend <= p.confidencePriorBlend <= p.baselinePrior
  }

  ghost predicate SortedByLength(bs: seq<Branch>) {
    forall i, j :: 0 <= i <= j < |bs| ==> bs[i].outputLen <= bs[j].outputLen
  }

  lemma {:induction false} ConfidenceIsFraction(weight: real, std: real, mean: real, lowerBound: real, prior: real)
    requires std >= 0.0
    ensures 0.0 <= Confidence(weight, std, mean, lowerBound, prior) <= 1.0
  {
  }

  lemma {:induction false} OrderOfBlends(w: real, c: real, lower: real, prior: real, median: real)
    requires 0.0 <= w <= 1.0 && 0.0 <= c <= 1.0 && median <= lower <= prior
    ensures var tailMean := 0.5 * (lower + prior);
            var m := Max(Blend(w, tailMean, median), lower);
            lower <= m <= Blend(1.0 - c, m, tailMean) <= tailMean
  {
    hide Blend;
    var tailMean := 0.5 * (lower + prior);
    var m := Max(Blend(w, tailMean, median), lower);
    BlendBetween(w, tailMean, median);
    BlendBetween(1.0 - c, m, tailMean);
  }

  /** For every set of branches and every number of finished ones, the predictors line up exactly
      when the lower bound does not exceed the prior. */
  lemma {:induction false} PredictionsInOrder(
      branches: seq<Branch>, k: nat, prior: real, shrinkK: real, floor: real, std: real)
    requires SortedByLength(branches) && 0 < k < |branches|
    requires shrinkK >= 0.0 && floor >= 0.0 && std >= 0.0
    ensures var p := BuildPredictions(branches[..k], branches[k - 1].outputLen, prior, shrinkK, floor, std);
            InOrder(p) <==> p.lowerBound <= prior
  {
    var finished, kth := branches[..k], branches[k - 1].outputLen;
    var p := BuildPredictions(finished, kth, prior, shrinkK, floor, std);
    var w := Weight(k, shrinkK);
    WeightIsFraction(k, shrinkK);
    ConfidenceIsFraction(w, std, Mean(finished), p.lowerBound, prior);
    assert AtMost(finished, kth);
    MedianAtMost(finished, kth);
    if p.lowerBound <= prior {
      OrderOfBlends(w, p.confidence, p.lowerBound, prior, Median(finished));
    }
  }

  lemma {:induction false} CensoredBlend(w: real, lower: real, top: real, estimate: real)
    requires 0.0 <= w <= 1.0 && estimate <= lower <= top
    ensures lower <= Max(Blend(w, top, estimate), lower) <= top
  {
    BlendBetween(w, top, estimate);
  }

  lemma {:induction false} PredictionsCensored(
      branches: seq<Branch>, k: nat, prior: real, shrinkK: real, floor: real, std: real)
    requires SortedByLength(branches) && Weights(branches) && 0 < k < |branches|
    requires shrinkK >= 0.0 && floor >= 0.0 && std >= 0.0
    requires branches[k - 1].outputLen + floor <= prior
    ensures Censored(BuildPredictions(branches[..k], branches[k - 1].outputLen, prior, shrinkK, floor, std))
  {
    var finished, kth := branches[..k], branches[k - 1].outputLen;
    var p := BuildPredictions(finished, kth, prior, shrinkK, floor, std);
    var w, lower, mean := Weight(k, shrinkK), kth + floor, Mean(finished);
    WeightIsFraction(k, shrinkK);
    ConfidenceIsFraction(w, std, mean, lower, prior);
    assert AtMost(finished, kth);
    MeanAtMost(finished, kth);
    MedianAtMost(finished, kth);
    SoftmaxAtMost(finished, kth);
    var logprob := SoftmaxWeightedLength(finished);
    var estimate := if logprob.Some? then logprob.value else mean;
    hide Blend, Mean, Median, SoftmaxWeightedLength, Confidence, Weight, AtMost, SortedByLength;
    CensoredBlend(w, lower, prior, mean);
    CensoredBlend(w, lower, prior, Median(finished));
    CensoredBlend(w, lower, prior, estimate);
    CensoredBlend(w, lower, p.orderTailMean, mean);
    CensoredBlend(w, lower, p.orderTailMean, estimate);
    RiskStaysBetween(p.confidence, lower, prior, p.tailMedianBlend);
    OrderOfBlends(w, p.confidence, lower, prior, Median(finished));
    PriorBlendIsLarger(p.confidence, p.tailMedianBlend, p.orderTailMean, prior);
  }

  lemma {:induction false} RiskStaysBetween(c: real, lower: real, prior: real, m: real)
    requires 0.0 <= c <= 1.0 && lower <= prior && lower <= m
    ensures lower <= Min(prior, m + Mul((1.0 - c) * 0.15, Max(0.0, prior - lower))) <= prior
  {
    MulNonNegative((1.0 - c) * 0.15, Max(0.0, prior - lower));
  }

  lemma {:induction false} PriorBlendIsLarger(c: real, m: real, tailMean: real, prior: real)
    requires 0.0 <= c <= 1.0 && m <= tailMean <= prior
    ensures Blend(1.0 - c, m, tailMean) <= Blend(1.0 - c, m, prior) <= prior
  {
    BlendBetween(1.0 - c, m, prior);
    MulOrder(1.0 - c, tailMean, prior);
  }

  /** A sibling that has already run longer than the prior puts the predictors out of order. */
  lemma {:induction false} BoundMayExceedPrior()
    ensures !InOrder(BuildPredictions([Branch(10.0, None)], 10.0, 5.0, 1.0, 0.0, 0.0))
  {
    var bs := [Branch(10.0, None), Branch(10.0, None)];
    assert bs[..1] == [Branch(10.0, None)];
    PredictionsInOrder(bs, 1, 5.0, 1.0, 0.0, 0.0);
  }

  /** The mean of the finished siblings never exceeds the length of any branch still running. */
  lemma {:induction false} SiblingMeanIsShort(branches: seq<Branch>, k: nat, j: nat)
    requires SortedByLength(branches) && 0 < k <= j < |branches|
    ensures Mean(branches[..k]) <= branches[j].outputLen
  {
    assert AtMost(branches[..k], branches[j].outputLen);
    MeanAtMost(branches[..k], branches[j].outputLen);
  }
}
