/**
  Interpolated percentiles, as `percentile` computes them in `benchmarks/benchmark_taper_plus.py`
  and `benchmarks/bon_output_length_prediction.py`.
 */
module OrderStatistics {
  import opened Common
  import opened RealArith
  import Sorting

  ghost predicate Ascending(s: seq<real>) {
    forall i, j :: 0 <= i <= j < |s| ==> s[i] <= s[j]
  }

  // ---------- Sorting ----------

  predicate Leq(x: real, y: real) { x <= y }

  function Sorted(s: seq<real>): (r: seq<real>)
    ensures |r| == |s|
  {
    Sorting.Sort(s, Leq)
  }

  lemma {:induction false} SortedIsSorted(s: seq<real>)
    ensures Ascending(Sorted(s)) && multiset(Sorted(s)) == multiset(s)
  {
    Sorting.SortIsOrdered(s, Leq);
    var r := Sorted(s);
    forall i, j | 0 <= i < j < |r| ensures r[i] <= r[j] { assert Leq(r[i], r[j]); }
  }

  // ---------- Interpolation ----------

  function Floor(x: real): int { x.Floor }

  function Ceiling(x: real): int { if x.Floor as real == x then x.Floor else x.Floor + 1 }

  /** The value at fractional position `pos` of a sorted list. */
  function Interpolate(ordered: seq<real>, pos: real): real
    requires ordered != [] && 0.0 <= pos <= (|ordered| - 1) as real
  {
    var lo, hi := Floor(pos), Ceiling(pos);
    if lo == hi then ordered[lo]
    else
      var frac := pos - lo as real;
      Mul(ordered[lo], 1.0 - frac) + Mul(ordered[hi], frac)
  }

  lemma {:induction false} Position(n: nat, q: real)
    requires n > 0 && 0.0 <= q <= 1.0
    ensures 0.0 <= Mul((n - 1) as real, q) <= (n - 1) as real
  {
    MulOrder((n - 1) as real, 0.0, q);
    MulOrder((n - 1) as real, q, 1.0);
  }

  /** `percentile(values, q)`; `None` stands for the not-a-number of an empty list. */
  function Percentile(values: seq<real>, q: real): Option<real>
    requires 0.0 <= q <= 1.0
  {
    if values == [] then None
    else
      Position(|values|, q);
      Some(Interpolate(Sorted(values), Mul((|values| - 1) as real, q)))
  }

  lemma {:induction false} Between(a: real, b: real, f: real)
    requires a <= b && 0.0 <= f <= 1.0
    ensures a <= Mul(a, 1.0 - f) + Mul(b, f) <= b
  {
    MulOrder(f, a, b);
    MulOrder(1.0 - f, a, b);
    MulCommutes(a, 1.0 - f);
    MulDistributes(1.0 - f, f, a);
    MulDistributes(1.0 - f, f, b);
    MulCommutes(b, 1.0 - f);
  }

  lemma {:induction false} BetweenMonotone(a: real, b: real, f: real, g: real)
    requires a <= b && f <= g
    ensures Mul(a, 1.0 - f) + Mul(b, f) <= Mul(a, 1.0 - g) + Mul(b, g)
  {
    MulOrder(b - a, f, g);
    assert Mul(b - a, f) == Mul(b, f) - Mul(a, f);
    assert Mul(b - a, g) == Mul(b, g) - Mul(a, g);
    assert Mul(a, 1.0 - f) == a - Mul(a, f);
    assert Mul(a, 1.0 - g) == a - Mul(a, g);
  }

  /** An interpolated value lies between its neighbours. */
  lemma {:induction false} InterpolateBetween(ordered: seq<real>, pos: real)
    requires Ascending(ordered) && ordered != [] && 0.0 <= pos <= (|ordered| - 1) as real
    ensures ordered[Floor(pos)] <= Interpolate(ordered, pos) <= ordered[Ceiling(pos)]
  {
    if Floor(pos) != Ceiling(pos) {
      Between(ordered[Floor(pos)], ordered[Ceiling(pos)], pos - Floor(pos) as real);
    }
  }

  lemma {:induction false} InterpolateMonotone(ordered: seq<real>, p: real, q: real)
    requires Ascending(ordered) && ordered != [] && 0.0 <= p <= q <= (|ordered| - 1) as real
    ensures Interpolate(ordered, p) <= Interpolate(ordered, q)
  {
    InterpolateBetween(ordered, p);
    InterpolateBetween(ordered, q);
    var k := Floor(p);
    if k < Floor(q) {
      assert Ceiling(p) <= Floor(q);
    } else if k != Ceiling(p) {
      assert Floor(q) == k && Ceiling(q) == Ceiling(p);
      BetweenMonotone(ordered[k], ordered[k + 1], p - k as real, q - k as real);
    }
  }

  // ---------- Percentiles ----------

  lemma {:induction false} PercentileMonotone(values: seq<real>, p: real, q: real)
    requires values != [] && 0.0 <= p <= q <= 1.0
    ensures Percentile(values, p).value <= Percentile(values, q).value
  {
    var n := (|values| - 1) as real;
    SortedIsSorted(values);
    Position(|values|, p);
    Position(|values|, q);
    MulOrder(n, p, q);
    InterpolateMonotone(Sorted(values), Mul(n, p), Mul(n, q));
  }

  /** Every percentile lies between two of the values: no smaller than the least, no larger than the greatest. */
  lemma {:induction false} PercentileBounded(values: seq<real>, q: real, lo: real, hi: real)
    requires values != [] && 0.0 <= q <= 1.0
    requires forall i :: 0 <= i < |values| ==> lo <= values[i] <= hi
    ensures lo <= Percentile(values, q).value <= hi
  {
    SortedIsSorted(values);
    Position(|values|, q);
    var s, pos := Sorted(values), Mul((|values| - 1) as real, q);
    InterpolateBetween(s, pos);
    forall i | 0 <= i < |s| ensures lo <= s[i] <= hi {
      assert s[i] in multiset(values);
      assert s[i] in values;
    }
  }

  /** `x` is at fractional rank `pos`: the value itself at a rank, and in between as far along from the
      lower neighbour to the upper as the position is. */
  ghost predicate IsAtRank(x: real, ordered: seq<real>, pos: real) {
    forall k: int :: 0 <= k < |ordered| && k as real <= pos < k as real + 1.0 ==>
      if pos == k as real then x == ordered[k]
      else k + 1 < |ordered| && x - ordered[k] == Mul(pos - k as real, ordered[k + 1] - ordered[k])
  }

  lemma {:induction false} InterpolateIsAtRank(ordered: seq<real>, pos: real)
    requires ordered != [] && 0.0 <= pos <= (|ordered| - 1) as real
    ensures IsAtRank(Interpolate(ordered, pos), ordered, pos)
  {
    forall k: int | 0 <= k < |ordered| && k as real <= pos < k as real + 1.0
      ensures var x := Interpolate(ordered, pos);
              if pos == k as real then x == ordered[k]
              else k + 1 < |ordered| && x - ordered[k] == Mul(pos - k as real, ordered[k + 1] - ordered[k])
    {
      assert Floor(pos) == k;
      if pos != k as real {
        var lower, upper, frac := ordered[k], ordered[k + 1], pos - k as real;
        StepFormAgrees(lower, upper, frac);
        MulCommutes(upper - lower, frac);
      }
    }
  }

  /** A percentile is the value at rank `(n - 1) * q` of the sorted list. */
  lemma {:induction false} PercentileIsAtRank(values: seq<real>, q: real)
    requires values != [] && 0.0 <= q <= 1.0
    ensures IsAtRank(Percentile(values, q).value, Sorted(values), Mul((|values| - 1) as real, q))
  {
    Position(|values|, q);
    InterpolateIsAtRank(Sorted(values), Mul((|values| - 1) as real, q));
  }

  /** The other form in the benchmarks, a step from the lower neighbour, gives the same value. */
  lemma {:induction false} StepFormAgrees(lower: real, upper: real, frac: real)
    ensures lower + Mul(upper - lower, frac) == Mul(lower, 1.0 - frac) + Mul(upper, frac)
  {
    MulDistributes(upper, lower, frac);
    assert Mul(lower, 1.0 - frac) == lower - Mul(lower, frac);
  }

  /** `_percentile(values, pct)` of a request trace: percent instead of a fraction, 0 for an empty
      list, and a step from the lower neighbour. */
  function PercentileOfTrace(values: seq<real>, pct: real): real
    requires 0.0 <= pct <= 100.0
  {
    var ordered := Sorted(values);
    if values == [] then 0.0
    else if |ordered| == 1 then ordered[0]
    else
      Rank(|values|, pct);
      var rank := Mul((|ordered| - 1) as real, pct) / 100.0;
      var lower, upper := Floor(rank), Ceiling(rank);
      if lower == upper then ordered[Floor(rank)]
      else ordered[lower] + Mul(ordered[upper] - ordered[lower], rank - lower as real)
  }

  lemma {:induction false} Rank(n: nat, pct: real)
    requires n > 0 && 0.0 <= pct <= 100.0
    ensures Mul((n - 1) as real, pct) / 100.0 == Mul((n - 1) as real, pct / 100.0)
    ensures 0.0 <= Mul((n - 1) as real, pct) / 100.0 <= (n - 1) as real
  {
    Position(n, pct / 100.0);
    Hundredth((n - 1) as real, pct);
  }

  lemma {:induction false} Hundredth(m: real, pct: real)
    ensures Mul(m, pct) / 100.0 == Mul(m, pct / 100.0)
  {
    assert m * (pct / 100.0) == (m * pct) / 100.0;
  }

  /** Both programs compute the same percentile of every list that is not empty. */
  lemma {:induction false} PercentilesAgree(values: seq<real>, pct: real)
    requires values != [] && 0.0 <= pct <= 100.0
    ensures Percentile(values, pct / 100.0) == Some(PercentileOfTrace(values, pct))
  {
    hide Mul;
    var ordered, n := Sorted(values), |values|;
    Rank(n, pct);
    var rank := Mul((n - 1) as real, pct) / 100.0;
    var lower, upper := Floor(rank), Ceiling(rank);
    if lower != upper { StepFormAgrees(ordered[lower], ordered[upper], rank - lower as real); }
  }
}
