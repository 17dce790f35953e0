/**
  What every field of a length prediction in `benchmarks/bon_output_length_prediction.py` says about
  the finished branches, the bound and the prior, without reference to how it is computed.
 */
module PredictionMeanings {
  import opened Common
  import opened RealArith
  import opened LengthPredictors
  import opened OrderStatistics

  // ---------- Estimates from finished branches ----------

  /** `s` holds the lengths in ascending order. */
  ghost predicate Arranges(s: seq<real>, bs: seq<Branch>) {
    |s| == |bs| && Ascending(s) && multiset(s) == multiset(Lengths(bs))
  }

  /** `m` is midway between the two middle lengths, which are one for an odd number. */
  ghost predicate IsMedian(bs: seq<Branch>, m: real)
    requires bs != []
  {
    exists s :: Arranges(s, bs) && 2.0 * m == s[(|bs| - 1) / 2] + s[|bs| / 2]
  }

  /** By how much the lengths exceed `e`, each counted with its weight. */
  function WeightedDeviations(bs: seq<Branch>, e: real): real {
    if bs == [] then 0.0
    else
      var b := bs[|bs| - 1];
      WeightedDeviations(bs[..|bs| - 1], e) + if b.weight.Some? then Mul(b.weight.value, b.outputLen - e) else 0.0
  }

  ghost predicate NoWeights(bs: seq<Branch>) {
    forall i :: 0 <= i < |bs| ==> bs[i].weight.None?
  }

  /** `e` balances the weighted lengths; without any weight it is the plain mean. */
  ghost predicate IsLogprobEstimate(bs: seq<Branch>, mean: real, e: real) {
    if NoWeights(bs) then e == mean else WeightedDeviations(bs, e) == 0.0
  }

  // ---------- What the fields tell ----------

  /** `x` is an estimate drawn towards `other` as `shrink` is to `n`, and raised to the bound. */
  ghost predicate Censors(x: real, bound: real, estimate: real, n: real, other: real, shrink: real) {
    exists v :: Divides(v, estimate, n, other, shrink) && Raised(x, bound, v)
  }

  predicate Lowered(x: real, a: real, b: real) {
    x <= a && x <= b && (x == a || x == b)
  }

  /** The part of the prior that the bound makes up, from none to all. */
  ghost predicate IsBoundShare(share: real, bound: real, prior: real) {
    var p := if prior > 1.0 then prior else 1.0;
    if bound <= 0.0 then share == 0.0 else if bound >= p then share == 1.0 else Mul(p, share) == bound
  }

  /** Confidence is the share of finished branches, scaled by how little they vary and by how much the
      bound says. */
  ghost predicate ConfidenceTells(c: real, n: real, shrink: real, std: real, mean: real, bound: real, prior: real) {
    var m := if mean > 1.0 then mean else 1.0;
    exists share :: IsBoundShare(share, bound, prior)
      && Mul(Mul(n + shrink, m + std), c) == Mul(Mul(n, m), 0.5 + 0.5 * share)
  }

  /** The fields that come from the bound and the prior alone. */
  ghost predicate TailTells(p: Predictions, kth: real, prior: real, floor: real) {
    && p.baselinePrior == prior
    && p.lowerBound == kth + floor
    && p.orderTailMean - p.lowerBound == prior - p.orderTailMean
    && if p.lowerBound <= prior then
         && p.orderTailP75 - p.lowerBound == 3.0 * (prior - p.orderTailP75)
         && p.orderTailP90 - p.lowerBound == 9.0 * (prior - p.orderTailP90)
       else p.orderTailP75 == p.lowerBound && p.orderTailP90 == p.lowerBound
  }

  /** The fields that come from the mean of the finished branches. */
  ghost predicate MeanTells(p: Predictions, finished: seq<Branch>, prior: real, shrink: real) {
    var n := |finished| as real;
    && Mul(n, p.siblingMean) == SumLen(finished)
    && Divides(p.siblingMeanShrink, p.siblingMean, n, prior, shrink)
    && Raised(p.siblingMeanCensored, p.lowerBound, p.siblingMeanShrink)
    && Censors(p.tailMeanBlend, p.lowerBound, p.siblingMean, n, p.orderTailMean, shrink)
  }

  /** The fields that come from their median. */
  ghost predicate MedianTells(p: Predictions, n: real, m: real, prior: real, shrink: real) {
    && Censors(p.siblingMedianCensored, p.lowerBound, m, n, prior, shrink)
    && Censors(p.tailMedianBlend, p.lowerBound, m, n, p.orderTailMean, shrink)
  }

  /** The fields that come from their weighted mean. */
  ghost predicate LogprobTells(p: Predictions, n: real, e: real, prior: real, shrink: real) {
    && Censors(p.logprobWeightedCensored, p.lowerBound, e, n, prior, shrink)
    && Censors(p.logprobTailBlend, p.lowerBound, e, n, p.orderTailMean, shrink)
  }

  /** The fields that weigh the median blend by the confidence. */
  ghost predicate TrustTells(p: Predictions, prior: real) {
    var c := p.confidence;
    && Divides(p.confidenceTailBlend, p.tailMedianBlend, c, p.orderTailMean, 1.0 - c)
    && Divides(p.confidencePriorBlend, p.tailMedianBlend, c, prior, 1.0 - c)
    && Lowered(p.riskAdjustedTailBlend, prior,
               if p.lowerBound <= prior then p.tailMedianBlend + 0.15 * Mul(1.0 - c, prior - p.lowerBound)
               else p.tailMedianBlend)
  }

  ghost predicate Tells(
      p: Predictions, finished: seq<Branch>, kth: real, prior: real, shrink: real, floor: real, std: real)
    requires finished != []
  {
    var n := |finished| as real;
    && TailTells(p, kth, prior, floor)
    && MeanTells(p, finished, prior, shrink)
    && (exists m :: IsMedian(finished, m) && MedianTells(p, n, m, prior, shrink))
    && (exists e :: IsLogprobEstimate(finished, p.siblingMean, e) && LogprobTells(p, n, e, prior, shrink))
    && ConfidenceTells(p.confidence, n, shrink, std, p.siblingMean, p.lowerBound, prior)
    && TrustTells(p, prior)
  }

  // ---------- Blends ----------

  lemma {:induction false} WeightTimes(n: nat, shrink: real)
    requires n > 0 && shrink >= 0.0
    ensures Mul(n as real + shrink, Weight(n, shrink)) == n as real
  {
    DivThenMul(n as real, n as real + shrink);
  }

  lemma {:induction false} BlendDivides(n: nat, shrink: real, other: real, estimate: real)
    requires n > 0 && shrink >= 0.0
    ensures Divides(Blend(Weight(n, shrink), other, estimate), estimate, n as real, other, shrink)
  {
    WeightTimes(n, shrink);
    hide Weight;
    RatioOfBlend(n as real, shrink, Weight(n, shrink), other, estimate);
  }

  lemma {:induction false} RatioOfBlend(a: real, b: real, w: real, y: real, x: real)
    requires Mul(a + b, w) == a
    ensures Divides(Blend(w, y, x), x, a, y, b)
  {
    var d, v := y - x, Blend(w, y, x);
    assert v - x == Mul(1.0 - w, d);
    assert y - v == Mul(w, d);
    assert Mul(a, 1.0 - w) == Mul(b, w);
    MulAssociates(a, 1.0 - w, d);
    MulAssociates(b, w, d);
  }

  lemma {:induction false} ConfidenceDivides(c: real, x: real, y: real)
    ensures Divides(Blend(1.0 - c, x, y), x, c, y, 1.0 - c)
  {
    var d, v := y - x, Blend(1.0 - c, x, y);
    assert v - x == Mul(1.0 - c, d);
    assert y - v == Mul(c, d);
    MulAssociates(c, 1.0 - c, d);
    MulAssociates(1.0 - c, c, d);
    MulCommutes(c, 1.0 - c);
  }

  lemma {:induction false} BlendCensors(n: nat, shrink: real, other: real, estimate: real, bound: real)
    requires n > 0 && shrink >= 0.0
    ensures Censors(Max(Blend(Weight(n, shrink), other, estimate), bound), bound, estimate, n as real, other, shrink)
  {
    hide Blend, Weight, Divides;
    BlendDivides(n, shrink, other, estimate);
    var v := Blend(Weight(n, shrink), other, estimate);
    assert Raised(Max(v, bound), bound, v);
  }

  // ---------- Estimates ----------

  lemma {:induction false} MedianIsMedian(bs: seq<Branch>)
    requires bs != []
    ensures IsMedian(bs, Median(bs))
  {
    hide Sorted, Ascending, Lengths;
    SortedIsSorted(Lengths(bs));
    assert Arranges(Sorted(Lengths(bs)), bs);
  }

  /** At least half of the lengths lie on each side of the median. */
  lemma {:induction false} MedianHalves(bs: seq<Branch>, m: real)
    requires bs != [] && IsMedian(bs, m)
    ensures exists s :: Arranges(s, bs) && Halves(s, m)
  {
    hide Lengths;
    var s :| Arranges(s, bs) && 2.0 * m == s[(|bs| - 1) / 2] + s[|bs| / 2];
    assert s[(|bs| - 1) / 2] <= m <= s[|bs| / 2];
  }

  ghost predicate Halves(s: seq<real>, m: real) {
    && (forall i :: 0 <= i < |s| && 2 * i < |s| ==> s[i] <= m)
    && (forall i :: 0 <= i < |s| && 2 * i + 1 >= |s| ==> m <= s[i])
  }

  lemma {:induction false} WeightedDeviationsAre(bs: seq<Branch>, e: real)
    ensures WeightedDeviations(bs, e) == SumWeighted(bs) - Mul(SumWeight(bs), e)
  {
    if bs == [] {
    } else {
      var n := |bs| - 1;
      WeightedDeviationsAre(bs[..n], e);
      var b := bs[n];
      if b.weight.Some? {
        MulDistributes(SumWeight(bs[..n]), b.weight.value, e);
        MulCommutes(b.weight.value, b.outputLen - e);
        MulDistributes(b.outputLen, e, b.weight.value);
        MulCommutes(e, b.weight.value);
      }
    }
  }

  lemma {:induction false} SumWeightPositive(bs: seq<Branch>)
    requires Weights(bs)
    ensures SumWeight(bs) >= 0.0
    ensures SumWeight(bs) <= 0.0 <==> NoWeights(bs)
  {
    if bs == [] {
    } else {
      var n := |bs| - 1;
      SumWeightPositive(bs[..n]);
      assert NoWeights(bs) ==> NoWeights(bs[..n]);
    }
  }

  lemma {:induction false} LogprobEstimates(bs: seq<Branch>, mean: real)
    requires Weights(bs)
    ensures var w := SoftmaxWeightedLength(bs);
            && (w.None? <==> NoWeights(bs))
            && IsLogprobEstimate(bs, mean, if w.Some? then w.value else mean)
  {
    SumWeightPositive(bs);
    if SumWeight(bs) > 0.0 {
      var e := SumWeighted(bs) / SumWeight(bs);
      WeightedDeviationsAre(bs, e);
      DivThenMul(SumWeighted(bs), SumWeight(bs));
    }
  }

  // ---------- Confidence ----------

  lemma {:induction false} BoundShareIs(bound: real, prior: real)
    ensures IsBoundShare(Clamp(bound / Max(prior, 1.0), 0.0, 1.0), bound, prior)
  {
    var p := Max(prior, 1.0);
    var q := bound / p;
    DivThenMul(bound, p);
    if bound <= 0.0 {
      if q > 0.0 { MulPositive(p, q); }
    } else if bound >= p {
      MulCancel(p, 1.0, q);
    } else {
      MulCancel(p, 0.0, q);
      MulCancel(p, q, 1.0);
    }
  }

  lemma {:induction false} FractionTimes(x: real, y: real)
    requires 0.0 <= x <= 1.0 && 0.0 <= y <= 1.0
    ensures 0.0 <= Mul(x, y) <= 1.0
  {
    MulNonNegative(x, y);
    MulOrder(x, y, 1.0);
  }

  lemma {:induction false} ConsistencyTimes(m: real, std: real)
    requires m >= 1.0 && std >= 0.0
    ensures var c := 1.0 / (1.0 + std / m);
            0.0 <= c <= 1.0 && Mul(m + std, c) == m
  {
    var q := std / m;
    QuotientNonNegative(std, m);
    DivThenMul(std, m);
    var c := 1.0 / (1.0 + q);
    QuotientNonNegative(1.0, 1.0 + q);
    DivThenMul(1.0, 1.0 + q);
    MulOrder(c, 1.0, 1.0 + q);
    MulCommutes(c, 1.0 + q);
    assert m + std == Mul(m, 1.0 + q);
    MulAssociates(m, 1.0 + q, c);
  }

  lemma {:induction false} ConfidenceIs(n: nat, shrink: real, std: real, mean: real, bound: real, prior: real)
    requires n > 0 && shrink >= 0.0 && std >= 0.0
    ensures ConfidenceTells(Confidence(Weight(n, shrink), std, mean, bound, prior), n as real, shrink, std, mean,
                            bound, prior)
  {
    var m, w := Max(mean, 1.0), Weight(n, shrink);
    QuotientNonNegative(std, m);
    var k := 1.0 / (1.0 + std / m);
    var share := Clamp(bound / Max(prior, 1.0), 0.0, 1.0);
    BoundShareIs(bound, prior);
    WeightIsFraction(n, shrink);
    WeightTimes(n, shrink);
    ConsistencyTimes(m, std);
    FractionTimes(w, k);
    FractionTimes(Mul(w, k), 0.5 + 0.5 * share);
    var c := Confidence(w, std, mean, bound, prior);
    assert c == Mul(Mul(w, k), 0.5 + 0.5 * share);
    hide Weight, IsBoundShare, Mul;
    ProductOfQuotients(n as real + shrink, m + std, w, k, 0.5 + 0.5 * share);
  }

  lemma {:induction false} ProductOfQuotients(a: real, b: real, x: real, y: real, h: real)
    ensures Mul(Mul(a, b), Mul(Mul(x, y), h)) == Mul(Mul(Mul(a, x), Mul(b, y)), h)
  {
    Regroup(a, b, x, y);
    MulAssociates(Mul(a, b), Mul(x, y), h);
  }

  lemma {:induction false} Regroup(a: real, b: real, x: real, y: real)
    ensures Mul(Mul(a, b), Mul(x, y)) == Mul(Mul(a, x), Mul(b, y))
  {
    hide Mul;
    MulAssociates(a, b, Mul(x, y));
    MulAssociates(b, x, y);
    MulCommutes(b, x);
    MulAssociates(x, b, y);
    MulAssociates(a, x, Mul(b, y));
  }

  // ---------- The whole record ----------

  lemma {:induction false} TrustIs(p: Predictions, prior: real)
    requires p.confidenceTailBlend == Blend(1.0 - p.confidence, p.tailMedianBlend, p.orderTailMean)
    requires p.confidencePriorBlend == Blend(1.0 - p.confidence, p.tailMedianBlend, prior)
    requires p.riskAdjustedTailBlend ==
               Min(prior, p.tailMedianBlend + Mul((1.0 - p.confidence) * 0.15, Max(0.0, prior - p.lowerBound)))
    ensures TrustTells(p, prior)
  {
    ConfidenceDivides(p.confidence, p.tailMedianBlend, p.orderTailMean);
    ConfidenceDivides(p.confidence, p.tailMedianBlend, prior);
    RiskIs(p.confidence, prior - p.lowerBound);
    hide Blend, Divides, Mul;
  }

  lemma {:induction false} RiskIs(c: real, d: real)
    ensures Mul((1.0 - c) * 0.15, Max(0.0, d)) == if d >= 0.0 then 0.15 * Mul(1.0 - c, d) else 0.0
  {
    if d >= 0.0 { assert ((1.0 - c) * 0.15) * d == 0.15 * ((1.0 - c) * d); }
  }

  /** Every field of what is predicted, for any finished branches. */
  lemma {:induction false} PredictionsTell(
      finished: seq<Branch>, kth: real, prior: real, shrink: real, floor: real, std: real)
    requires finished != [] && Weights(finished) && shrink >= 0.0 && std >= 0.0
    ensures Tells(BuildPredictions(finished, kth, prior, shrink, floor, std), finished, kth, prior, shrink, floor, std)
  {
    var p := BuildPredictions(finished, kth, prior, shrink, floor, std);
    var n := |finished|;
    var w, mean, median, bound := Weight(n, shrink), Mean(finished), Median(finished), kth + floor;
    var logprob := SoftmaxWeightedLength(finished);
    var e := if logprob.Some? then logprob.value else mean;
    DivThenMul(SumLen(finished), n as real);
    MedianIsMedian(finished);
    LogprobEstimates(finished, mean);
    BlendDivides(n, shrink, prior, mean);
    ConfidenceIs(n, shrink, std, mean, bound, prior);
    TrustIs(p, prior);
    hide Blend, Weight, Confidence, Median, SoftmaxWeightedLength, SumLen, IsMedian, IsLogprobEstimate, Divides,
         Censors, ConfidenceTells, TrustTells, Mul;
    BlendCensors(n, shrink, p.orderTailMean, mean, bound);
    BlendCensors(n, shrink, prior, median, bound);
    BlendCensors(n, shrink, p.orderTailMean, median, bound);
    BlendCensors(n, shrink, prior, e, bound);
    BlendCensors(n, shrink, p.orderTailMean, e, bound);
    assert MedianTells(p, n as real, median, prior, shrink);
    assert LogprobTells(p, n as real, e, prior, shrink);
  }

  /** The predicted mean of the finished siblings never exceeds the length of a branch still running. */
  lemma {:induction false} PredictedMeanIsShort(
      branches: seq<Branch>, k: nat, j: nat, prior: real, shrink: real, floor: real, std: real)
    requires SortedByLength(branches) && 0 < k <= j < |branches| && shrink >= 0.0 && std >= 0.0
    ensures BuildPredictions(branches[..k], branches[k - 1].outputLen, prior, shrink, floor, std).siblingMean
              <= branches[j].outputLen
  {
    SiblingMeanIsShort(branches, k, j);
  }
}
