/**
  `fit_taper_latency_coefficients` of `benchmarks/benchmark_taper_plus.py`: normal equations
  accumulated sample by sample, a small ridge on the diagonal, and a 3x3 solve.
 */
module RidgeFit {
  import opened Common
  import opened LinearSolve
  import opened RealArith

  datatype Sample = Sample(decodeWidth: real, contextK: real, observedMs: real)

  datatype Coefficients = Coefficients(baseMs: real, widthMs: real, contextMsPer1k: real)

  const RIDGE := 0.000001

  function Features(s: Sample): Vec { [1.0, s.decodeWidth, s.contextK] }

  function Clamped(c: Vec): Coefficients {
    Coefficients(Max(0.0, c[0]), Max(0.001, c[1]), Max(0.0, c[2]))
  }

  // ---------- What is being minimised ----------

  function Residual(s: Sample, c: Vec): real { s.observedMs - Dot(Features(s), c) }

  function SquaredResiduals(samples: seq<Sample>, c: Vec): real {
    if samples == [] then 0.0
    else var n := |samples| - 1;
         SquaredResiduals(samples[..n], c) + Mul(Residual(samples[n], c), Residual(samples[n], c))
  }

  /** Squared residuals plus the ridge penalty on the coefficients. */
  function Loss(samples: seq<Sample>, c: Vec): real {
    SquaredResiduals(samples, c) + RIDGE * Dot(c, c)
  }

  ghost predicate UniqueMinimiser(samples: seq<Sample>, c: Vec) {
    forall e: Vec :: e != c ==> Loss(samples, c) < Loss(samples, e)
  }

  // ---------- The normal equations ----------

  type Grid = g: seq<Vec> | |g| == 3 witness [ZERO, ZERO, ZERO]

  const ZERO: Vec := [0.0, 0.0, 0.0]

  function AddScaled(u: Vec, t: real, f: Vec): Vec { [u[0] + Mul(t, f[0]), u[1] + Mul(t, f[1]), u[2] + Mul(t, f[2])] }

  function Gram(samples: seq<Sample>): Grid {
    if samples == [] then [ZERO, ZERO, ZERO]
    else
      var n := |samples| - 1;
      var g, f := Gram(samples[..n]), Features(samples[n]);
      [AddScaled(g[0], f[0], f), AddScaled(g[1], f[1], f), AddScaled(g[2], f[2], f)]
  }

  function Moment(samples: seq<Sample>): Vec {
    if samples == [] then ZERO
    else var n := |samples| - 1;
         AddScaled(Moment(samples[..n]), samples[n].observedMs, Features(samples[n]))
  }

  function Ridged(g: Grid): Grid {
    [g[0][0 := g[0][0] + RIDGE], g[1][1 := g[1][1] + RIDGE], g[2][2 := g[2][2] + RIDGE]]
  }

  function Times(g: Grid, c: Vec): Vec { [Dot(g[0], c), Dot(g[1], c), Dot(g[2], c)] }

  // ---------- Sums over samples behind the matrices ----------

  function Coupling(samples: seq<Sample>, c: Vec, d: Vec): real {
    if samples == [] then 0.0
    else var n := |samples| - 1;
         var f := Features(samples[n]);
         Coupling(samples[..n], c, d) + Mul(Dot(f, c), Dot(f, d))
  }

  function Response(samples: seq<Sample>, d: Vec): real {
    if samples == [] then 0.0
    else var n := |samples| - 1;
         Response(samples[..n], d) + Mul(samples[n].observedMs, Dot(Features(samples[n]), d))
  }

  lemma {:induction false} EntryAddScaled(u: real, t: real, f: real, c: real)
    ensures Mul(u + Mul(t, f), c) == Mul(u, c) + Mul(t, Mul(f, c))
  {
    MulDistributes(u, Mul(t, f), c);
    MulAssociates(t, f, c);
  }

  lemma {:induction false} DotAddScaled(u: Vec, t: real, f: Vec, c: Vec)
    ensures Dot(AddScaled(u, t, f), c) == Dot(u, c) + Mul(t, Dot(f, c))
  {
    hide Mul;
    EntryAddScaled(u[0], t, f[0], c[0]);
    EntryAddScaled(u[1], t, f[1], c[1]);
    EntryAddScaled(u[2], t, f[2], c[2]);
    MulSum3(t, Mul(f[0], c[0]), Mul(f[1], c[1]), Mul(f[2], c[2]));
  }

  lemma {:induction false} MulSum3(s: real, a: real, b: real, c: real)
    ensures Mul(s, a + b + c) == Mul(s, a) + Mul(s, b) + Mul(s, c)
  {
  }

  lemma {:induction false} GramIsCoupling(samples: seq<Sample>, c: Vec, d: Vec)
    ensures Dot(Times(Gram(samples), c), d) == Coupling(samples, c, d)
  {
    if samples == [] {
      assert Gram(samples) == [ZERO, ZERO, ZERO];
    } else {
      hide Dot, Mul;
      var n := |samples| - 1;
      var g, f := Gram(samples[..n]), Features(samples[n]);
      GramIsCoupling(samples[..n], c, d);
      DotAddScaled(g[0], f[0], f, c);
      DotAddScaled(g[1], f[1], f, c);
      DotAddScaled(g[2], f[2], f, c);
      var t := Dot(f, c);
      assert Gram(samples) == [AddScaled(g[0], f[0], f), AddScaled(g[1], f[1], f), AddScaled(g[2], f[2], f)];
      MulCommutes(f[0], t);
      MulCommutes(f[1], t);
      MulCommutes(f[2], t);
      assert Times(Gram(samples), c) == AddScaled(Times(g, c), t, f);
      DotAddScaled(Times(g, c), t, f, d);
    }
  }

  lemma {:induction false} MomentIsResponse(samples: seq<Sample>, d: Vec)
    ensures Dot(Moment(samples), d) == Response(samples, d)
  {
    if samples == [] {
    } else {
      var n := |samples| - 1;
      MomentIsResponse(samples[..n], d);
      DotAddScaled(Moment(samples[..n]), samples[n].observedMs, Features(samples[n]), d);
    }
  }

  lemma {:induction false} CouplingNonNegative(samples: seq<Sample>, d: Vec)
    ensures Coupling(samples, d, d) >= 0.0
  {
    if samples == [] {
    } else {
      hide Dot, Mul;
      var n := |samples| - 1;
      CouplingNonNegative(samples[..n], d);
      SquareNonNegative(Dot(Features(samples[n]), d));
    }
  }

  lemma {:induction false} RidgedRow(u: Vec, i: nat, c: Vec)
    requires i < 3
    ensures Dot(u[i := u[i] + RIDGE], c) == Dot(u, c) + Mul(RIDGE, c[i])
  {
    hide Mul;
    MulDistributes(u[i], RIDGE, c[i]);
  }

  lemma {:induction false} RidgedTimes(g: Grid, c: Vec, d: Vec)
    ensures Dot(Times(Ridged(g), c), d) == Dot(Times(g, c), d) + RIDGE * Dot(c, d)
  {
    hide Dot;
    RidgedRow(g[0], 0, c);
    RidgedRow(g[1], 1, c);
    RidgedRow(g[2], 2, c);
    assert Times(Ridged(g), c) == AddScaled(Times(g, c), RIDGE, c);
    DotAddScaled(Times(g, c), RIDGE, c, d);
  }

  // ---------- The ridge keeps every pivot away from zero ----------

  lemma {:induction false} SmallProduct(x: real, w: real)
    requires Abs(w) < TINY_PIVOT
    ensures Mul(w, x) <= TINY_PIVOT * (1.0 + Mul(x, x))
  {
    SquareNonNegative(1.0 - Abs(x));
    assert Mul(1.0 - Abs(x), 1.0 - Abs(x)) == 1.0 - 2.0 * Abs(x) + Mul(x, x);
    if x >= 0.0 {
      MulOrder(x, w, TINY_PIVOT);
    } else {
      MulOrder(-x, -w, TINY_PIVOT);
      MulNegate(w, x);
    }
  }

  lemma {:induction false} VanishingIsShort(samples: seq<Sample>, v: Vec)
    requires Vanishes(Ridged(Gram(samples)), v)
    ensures RIDGE * Dot(v, v) <= TINY_PIVOT * (3.0 + Dot(v, v))
  {
    var w := Times(Ridged(Gram(samples)), v);
    SmallProduct(v[0], w[0]);
    SmallProduct(v[1], w[1]);
    SmallProduct(v[2], w[2]);
    assert Dot(w, v) <= TINY_PIVOT * (3.0 + Dot(v, v));
    RidgedTimes(Gram(samples), v, v);
    GramIsCoupling(samples, v, v);
    CouplingNonNegative(samples, v);
  }

  /** So the solver never gives up on a ridged matrix, however its rows are swapped. */
  lemma {:induction false} RidgedIsNotNearSingular(samples: seq<Sample>)
    ensures !NearSingular(Ridged(Gram(samples)))
  {
    forall v: Vec | Vanishes(Ridged(Gram(samples)), v) ensures Dot(v, v) < 1.0 {
      VanishingIsShort(samples, v);
    }
  }

  // ---------- The solution is the minimiser ----------

  function Minus3(e: Vec, c: Vec): Vec { [e[0] - c[0], e[1] - c[1], e[2] - c[2]] }

  lemma {:induction false} DotMinus(f: Vec, e: Vec, c: Vec)
    ensures Dot(f, Minus3(e, c)) == Dot(f, e) - Dot(f, c)
  {
  }

  lemma {:induction false} SquareSplit(y: real, p: real, t: real)
    ensures Mul(y - (p + t), y - (p + t)) == Mul(y - p, y - p) + 2.0 * (Mul(p, t) - Mul(y, t)) + Mul(t, t)
  {
  }

  lemma {:induction false} ResidualExpansion(samples: seq<Sample>, c: Vec, e: Vec)
    ensures var d := Minus3(e, c);
            SquaredResiduals(samples, e) == SquaredResiduals(samples, c)
              + 2.0 * (Coupling(samples, c, d) - Response(samples, d)) + Coupling(samples, d, d)
  {
    if samples == [] {
    } else {
      hide Dot, Minus3;
      var n := |samples| - 1;
      var d, s := Minus3(e, c), samples[n];
      var f := Features(s);
      ResidualExpansion(samples[..n], c, e);
      DotMinus(f, e, c);
      assert Dot(f, e) == Dot(f, c) + Dot(f, d);
      SquareSplit(s.observedMs, Dot(f, c), Dot(f, d));
    }
  }

  /** Moving away from a solution of the ridged normal equations costs exactly the squared
      change in predictions plus the ridge on the change. */
  lemma {:induction false} LossAroundSolution(samples: seq<Sample>, c: Vec, e: Vec)
    requires Solves(Ridged(Gram(samples)), Moment(samples), c)
    ensures var d := Minus3(e, c);
            Loss(samples, e) == Loss(samples, c) + Coupling(samples, d, d) + RIDGE * Dot(d, d)
  {
    var d := Minus3(e, c);
    ResidualExpansion(samples, c, e);
    assert Dot(e, e) == Dot(c, c) + 2.0 * Dot(c, d) + Dot(d, d) by {
      assert e == AddScaled(c, 1.0, d);
      DotAddScaled(c, 1.0, d, e);
      DotAddScaled(c, 1.0, d, c);
      DotAddScaled(c, 1.0, d, d);
    }
    hide Dot, Gram, Moment, Minus3, Ridged, SquaredResiduals, Coupling, Response;
    assert Times(Ridged(Gram(samples)), c) == Moment(samples);
    RidgedTimes(Gram(samples), c, d);
    GramIsCoupling(samples, c, d);
    MomentIsResponse(samples, d);
  }

  lemma {:induction false} DotPositive(d: Vec)
    requires d != [0.0, 0.0, 0.0]
    ensures Dot(d, d) > 0.0
  {
    hide Mul;
    assert d[0] != 0.0 || d[1] != 0.0 || d[2] != 0.0;
    SquareNonNegative(d[0]);
    SquareNonNegative(d[1]);
    SquareNonNegative(d[2]);
  }

  lemma {:induction false} SolutionIsUniqueMinimiser(samples: seq<Sample>, c: Vec)
    requires Solves(Ridged(Gram(samples)), Moment(samples), c)
    ensures UniqueMinimiser(samples, c)
  {
    forall e: Vec | e != c ensures Loss(samples, c) < Loss(samples, e) {
      LossAroundSolution(samples, c, e);
      var d := Minus3(e, c);
      assert e[0] != c[0] || e[1] != c[1] || e[2] != c[2];
      DotPositive(d);
      CouplingNonNegative(samples, d);
    }
  }

  // ---------- The fit ----------

  /** One row of the sums, entry by entry. */
  method AddRow(u: Vec, t: real, f: Vec) returns (u': Vec)
    ensures u' == AddScaled(u, t, f)
  {
    u' := u;
    for j := 0 to 3
      invariant forall k :: 0 <= k < 3 ==> u'[k] == if k < j then u[k] + Mul(t, f[k]) else u[k]
    {
      u' := u'[j := u'[j] + Mul(t, f[j])];
    }
    assert u' == [u'[0], u'[1], u'[2]];
  }

  method AddSample(xtx: Grid, xty: Vec, s: Sample) returns (xtx': Grid, xty': Vec)
    ensures var f := Features(s);
            && xtx' == [AddScaled(xtx[0], f[0], f), AddScaled(xtx[1], f[1], f), AddScaled(xtx[2], f[2], f)]
            && xty' == AddScaled(xty, s.observedMs, f)
  {
    var f := Features(s);
    xtx', xty' := xtx, xty;
    for i := 0 to 3
      invariant forall k :: 0 <= k < 3 ==> xty'[k] == if k < i then xty[k] + Mul(f[k], s.observedMs) else xty[k]
      invariant forall k :: 0 <= k < 3 ==> xtx'[k] == if k < i then AddScaled(xtx[k], f[k], f) else xtx[k]
    {
      hide AddScaled, Features;
      xty' := xty'[i := xty'[i] + Mul(f[i], s.observedMs)];
      var row := AddRow(xtx'[i], f[i], f);
      xtx' := xtx'[i := row];
    }
    assert xty' == [xty'[0], xty'[1], xty'[2]];
    assert xtx' == [xtx'[0], xtx'[1], xtx'[2]];
  }

  method NormalEquations(samples: seq<Sample>) returns (xtx: Grid, xty: Vec)
    ensures xtx == Ridged(Gram(samples)) && xty == Moment(samples)
  {
    xtx, xty := [ZERO, ZERO, ZERO], ZERO;
    for n := 0 to |samples|
      invariant xtx == Gram(samples[..n]) && xty == Moment(samples[..n])
    {
      assert samples[..n + 1][..n] == samples[..n];
      xtx, xty := AddSample(xtx, xty, samples[n]);
    }
    assert samples[..|samples|] == samples;
    var g := xtx;
    for i := 0 to 3
      invariant forall k :: 0 <= k < 3 ==> xtx[k] == if k < i then Ridged(g)[k] else g[k]
    {
      xtx := xtx[i := xtx[i][i := xtx[i][i] + RIDGE]];
    }
  }

  // ---------- The same, field by field ----------

  /** What a line with these coefficients predicts for a sample. */
  function Prediction(base: real, width: real, context: real, s: Sample): real {
    base + Mul(width, s.decodeWidth) + Mul(context, s.contextK)
  }

  function Square(x: real): real { Mul(x, x) }

  function SquaredErrors(samples: seq<Sample>, base: real, width: real, context: real): real {
    if samples == [] then 0.0
    else
      var n := |samples| - 1;
      SquaredErrors(samples[..n], base, width, context)
        + Square(samples[n].observedMs - Prediction(base, width, context, samples[n]))
  }

  function Penalty(base: real, width: real, context: real): real {
    0.000001 * (Square(base) + Square(width) + Square(context))
  }

  /** No other line has as small a sum of squared errors and penalty. */
  ghost predicate BestLine(samples: seq<Sample>, base: real, width: real, context: real) {
    forall b, w, k :: OtherLine(b, w, k, base, width, context) ==>
      SquaredErrors(samples, base, width, context) + Penalty(base, width, context)
        < SquaredErrors(samples, b, w, k) + Penalty(b, w, k)
  }

  predicate OtherLine(b: real, w: real, k: real, base: real, width: real, context: real) {
    b != base || w != width || k != context
  }

  lemma {:induction false} ErrorsInFields(samples: seq<Sample>, c: Vec)
    ensures SquaredResiduals(samples, c) == SquaredErrors(samples, c[0], c[1], c[2])
  {
    hide Mul;
    if samples == [] {
    } else {
      var s := samples[|samples| - 1];
      ErrorsInFields(samples[..|samples| - 1], c);
      PredictionInFields(s, c);
    }
  }

  lemma {:induction false} PredictionInFields(s: Sample, c: Vec)
    ensures Dot(Features(s), c) == Prediction(c[0], c[1], c[2], s)
  {
    MulCommutes(s.decodeWidth, c[1]);
    MulCommutes(s.contextK, c[2]);
  }

  lemma {:induction false} MinimiserIsBestLine(samples: seq<Sample>, c: Vec)
    requires UniqueMinimiser(samples, c)
    ensures BestLine(samples, c[0], c[1], c[2])
  {
    hide SquaredResiduals, SquaredErrors;
    ErrorsInFields(samples, c);
    forall b, w, k | OtherLine(b, w, k, c[0], c[1], c[2])
      ensures SquaredErrors(samples, c[0], c[1], c[2]) + Penalty(c[0], c[1], c[2])
            < SquaredErrors(samples, b, w, k) + Penalty(b, w, k)
    {
      var e: Vec := [b, w, k];
      ErrorsInFields(samples, e);
      assert e[0] == b && e[1] == w && e[2] == k;
      assert Loss(samples, c) < Loss(samples, e);
    }
  }

  /** Three samples are always enough, and the fitted coefficients are the unique minimiser of
      the ridge loss, each raised to its own floor. When no floor binds, the returned coefficients
      predict for every sample what the minimiser predicts. */
  method FitTaperLatencyCoefficients(samples: seq<Sample>) returns (r: Option<Coefficients>)
    ensures r.None? <==> |samples| < 3
    ensures r.Some? ==> exists c: Vec :: UniqueMinimiser(samples, c) && r.value == Clamped(c)
    ensures r.Some? ==> exists base, width, context ::
              BestLine(samples, base, width, context) && Floored(r.value, base, width, context)
  {
    if |samples| < 3 { return None; }
    var xtx, xty := NormalEquations(samples);
    var coeffs := Solve(xtx, xty);
    RidgedIsNotNearSingular(samples);
    if coeffs.None? { return None; }
    assert Solves(xtx, xty, coeffs.value);
    SolutionIsUniqueMinimiser(samples, coeffs.value);
    MinimiserIsBestLine(samples, coeffs.value);
    r := Some(Clamped(coeffs.value));
    assert Floored(r.value, coeffs.value[0], coeffs.value[1], coeffs.value[2]);
  }

  /** Each field is the least number below neither its floor nor its coefficient; with no floor in
      the way, the predictions are those of the line. */
  ghost predicate Floored(r: Coefficients, base: real, width: real, context: real) {
    && Raised(r.baseMs, 0.0, base)
    && Raised(r.widthMs, 0.001, width)
    && Raised(r.contextMsPer1k, 0.0, context)
    && (base >= 0.0 && width >= 0.001 && context >= 0.0 ==>
          forall s: Sample ::
            Prediction(r.baseMs, r.widthMs, r.contextMsPer1k, s) == Prediction(base, width, context, s))
  }
}
