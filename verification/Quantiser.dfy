/**
  `dynamic_per_token_int8_quant_ref` of `vllm/_xpu_ops.py`: each row is quantised to `bits` bits with
  a scale, and in the asymmetric case a zero point, of its own.
 */
module Quantiser {
  import opened RealArith
  import opened Rounding

  const MIN_SCALE := 0.00001

  function Pow2(n: nat): (r: nat)
    ensures r >= 1 && (n >= 1 ==> r % 2 == 0)
  {
    if n == 0 then 1 else 2 * Pow2(n - 1)
  }

  function MinOf(row: seq<real>): real
    requires row != []
  {
    if |row| == 1 then row[0] else Min(MinOf(row[..|row| - 1]), row[|row| - 1])
  }

  function MaxOf(row: seq<real>): real
    requires row != []
  {
    if |row| == 1 then row[0] else Max(MaxOf(row[..|row| - 1]), row[|row| - 1])
  }

  lemma {:induction false} RowBounds(row: seq<real>, i: nat)
    requires i < |row|
    ensures MinOf(row) <= row[i] <= MaxOf(row)
  {
    if i == |row| - 1 {
    } else {
      RowBounds(row[..|row| - 1], i);
    }
  }

  function QMin(symmetric: bool, bits: nat): int
    requires bits >= 1
  {
    if symmetric then 0 - Pow2(bits - 1) else 0
  }

  function QMax(symmetric: bool, bits: nat): int
    requires bits >= 1
  {
    if symmetric then Pow2(bits - 1) - 1 else Pow2(bits) - 1
  }

  /** One bit is too few for the symmetric case, whose scale would divide by zero. */
  predicate EnoughBits(symmetric: bool, bits: nat) {
    bits >= if symmetric then 2 else 1
  }

  function Scale(row: seq<real>, symmetric: bool, bits: nat): real
    requires row != [] && EnoughBits(symmetric, bits)
  {
    QMaxPositive(symmetric, bits);
    var lo, hi := MinOf(row), MaxOf(row);
    var range := if symmetric then Max(Abs(lo), Abs(hi)) else hi - lo;
    Max(MIN_SCALE, range / QMax(symmetric, bits) as real)
  }

  function ZeroPoint(row: seq<real>, symmetric: bool, bits: nat): int
    requires row != [] && EnoughBits(symmetric, bits)
  {
    if symmetric then 0 else -Round(MinOf(row) / Scale(row, symmetric, bits))
  }

  function ClampInt(x: int, lo: int, hi: int): int { if x < lo then lo else if x > hi then hi else x }

  /** The shifted, not yet rounded, value of an element. */
  function Shifted(row: seq<real>, symmetric: bool, bits: nat, i: nat): real
    requires i < |row| && EnoughBits(symmetric, bits)
  {
    row[i] / Scale(row, symmetric, bits) + ZeroPoint(row, symmetric, bits) as real
  }

  function Quantized(row: seq<real>, symmetric: bool, bits: nat, i: nat): int
    requires i < |row| && EnoughBits(symmetric, bits)
  {
    ClampInt(Round(Shifted(row, symmetric, bits, i)), QMin(symmetric, bits), QMax(symmetric, bits))
  }

  /** The number a quantised element stands for. */
  function Dequantized(row: seq<real>, symmetric: bool, bits: nat, i: nat): real
    requires i < |row| && EnoughBits(symmetric, bits)
  {
    Mul((Quantized(row, symmetric, bits, i) - ZeroPoint(row, symmetric, bits)) as real, Scale(row, symmetric, bits))
  }

  lemma {:induction false} QMaxPositive(symmetric: bool, bits: nat)
    requires EnoughBits(symmetric, bits)
    ensures QMax(symmetric, bits) >= 1 && QMax(symmetric, bits) % 2 == 1
  {
    hide Pow2;
    var p := Pow2(if symmetric then bits - 1 else bits);
    assert p >= 1 && p % 2 == 0;
  }

  // ---------- Where shifted values lie ----------

  /** A quotient by a scale that is at least `range / q`. */
  lemma {:induction false} QuotientByScale(x: real, range: real, q: int, scale: real)
    requires q >= 1 && scale > 0.0 && scale >= range / q as real && x <= range
    ensures x / scale <= q as real
  {
    DivThenMul(range, q as real);
    MulOrder(q as real, range / q as real, scale);
    DivThenMul(x, scale);
    MulCommutes(scale, q as real);
    MulCancel(scale, x / scale, q as real);
  }

  lemma {:induction false} QuotientOrder(x: real, y: real, scale: real)
    requires x <= y && scale > 0.0
    ensures x / scale <= y / scale
  {
    DivThenMul(x, scale);
    DivThenMul(y, scale);
    MulCancel(scale, x / scale, y / scale);
  }

  lemma {:induction false} QuotientDifference(x: real, y: real, scale: real)
    requires scale > 0.0
    ensures (x - y) / scale == x / scale - y / scale
  {
  }

  lemma {:induction false} SymmetricRange(row: seq<real>, bits: nat, i: nat)
    requires i < |row| && bits >= 2
    ensures var q := QMax(true, bits) as real; -q <= Shifted(row, true, bits, i) <= q
  {
    QMaxPositive(true, bits);
    RowBounds(row, i);
    var s, q := Scale(row, true, bits), QMax(true, bits);
    var range := Max(Abs(MinOf(row)), Abs(MaxOf(row)));
    hide Scale, MinOf, MaxOf;
    QuotientByScale(row[i], range, q, s);
    QuotientByScale(-row[i], range, q, s);
    QuotientDifference(0.0, row[i], s);
  }

  /** In the symmetric case the clamp never changes a value. */
  lemma {:induction false} SymmetricClampIsIdle(row: seq<real>, bits: nat, i: nat)
    requires i < |row| && bits >= 2
    ensures Quantized(row, true, bits, i) == Round(Shifted(row, true, bits, i))
  {
    var q := QMax(true, bits);
    SymmetricRange(row, bits, i);
    hide Shifted, Round;
    RoundMonotone(-q as real, Shifted(row, true, bits, i));
    RoundMonotone(Shifted(row, true, bits, i), q as real);
    RoundInteger(q);
    RoundInteger(-q);
  }

  lemma {:induction false} AsymmetricRange(row: seq<real>, bits: nat, i: nat)
    requires i < |row| && bits >= 1
    ensures -0.5 <= Shifted(row, false, bits, i) <= QMax(false, bits) as real + 0.5
  {
    QMaxPositive(false, bits);
    RowBounds(row, i);
    var s, q, lo, hi := Scale(row, false, bits), QMax(false, bits), MinOf(row), MaxOf(row);
    hide Scale, MinOf, MaxOf;
    QuotientOrder(lo, row[i], s);
    QuotientByScale(row[i] - lo, hi - lo, q, s);
    QuotientDifference(row[i], lo, s);
    RoundNear(lo / s);
  }

  lemma {:induction false} RoundTop(y: real, q: int)
    requires -0.5 <= y <= q as real + 0.5 && q >= 1 && q % 2 == 1
    ensures 0 <= Round(y)
    ensures if y == q as real + 0.5 then Round(y) == q + 1 else Round(y) <= q
  {
    RoundMonotone(-0.5, y);
    assert Round(-0.5) == 0;
    if y < q as real + 0.5 {
      assert y.Floor <= q;
    } else {
      assert y.Floor == q;
    }
  }

  /** In the asymmetric case it changes exactly the values that sit half a step above the top. */
  lemma {:induction false} AsymmetricClampExactly(row: seq<real>, bits: nat, i: nat)
    requires i < |row| && bits >= 1
    ensures var y := Shifted(row, false, bits, i);
            Quantized(row, false, bits, i) != Round(y) <==> y == QMax(false, bits) as real + 0.5
  {
    QMaxPositive(false, bits);
    AsymmetricRange(row, bits, i);
    RoundTop(Shifted(row, false, bits, i), QMax(false, bits));
  }

  // ---------- The error bound ----------

  /** Clamping or not, a quantised value is within half a step of the shifted one. */
  lemma {:induction false} QuantizedNear(row: seq<real>, symmetric: bool, bits: nat, i: nat)
    requires i < |row| && EnoughBits(symmetric, bits)
    ensures -0.5 <= Quantized(row, symmetric, bits, i) as real - Shifted(row, symmetric, bits, i) <= 0.5
  {
    var y := Shifted(row, symmetric, bits, i);
    RoundNear(y);
    if symmetric {
      SymmetricClampIsIdle(row, bits, i);
    } else {
      QMaxPositive(false, bits);
      AsymmetricRange(row, bits, i);
      RoundTop(y, QMax(false, bits));
    }
  }

  /** Every element of every row is recovered to within half the row's scale. */
  lemma {:induction false} ReconstructionError(row: seq<real>, symmetric: bool, bits: nat, i: nat)
    requires i < |row| && EnoughBits(symmetric, bits)
    ensures Abs(Dequantized(row, symmetric, bits, i) - row[i]) <= Scale(row, symmetric, bits) / 2.0
    ensures QMin(symmetric, bits) <= Quantized(row, symmetric, bits, i) <= QMax(symmetric, bits)
  {
    QuantizedNear(row, symmetric, bits, i);
    QMaxPositive(symmetric, bits);
    var s, z, q := Scale(row, symmetric, bits), ZeroPoint(row, symmetric, bits), Quantized(row, symmetric, bits, i);
    var e := (q - z) as real - row[i] / s;
    assert -0.5 <= e <= 0.5;
    hide Scale, ZeroPoint, Quantized;
    DivThenMul(row[i], s);
    MulDistributes((q - z) as real, row[i] / s, s);
    MulCommutes(row[i] / s, s);
    assert Dequantized(row, symmetric, bits, i) - row[i] == Mul(e, s);
    MulOrder(s, e, 0.5);
    MulOrder(s, -0.5, e);
  }

  /** The bound is attained, so it cannot be improved. */
  lemma {:induction false} ErrorBoundIsSharp()
    ensures var row := [1.0, 0.5];
            Abs(Dequantized(row, true, 2, 1) - row[1]) == Scale(row, true, 2) / 2.0
  {
    var row := [1.0, 0.5];
    assert row[..1] == [1.0];
    assert MinOf(row) == 0.5 && MaxOf(row) == 1.0;
    assert Pow2(1) == 2 && QMax(true, 2) == 1;
    assert Scale(row, true, 2) == 1.0;
    assert Round(0.5) == 0;
  }

  // ---------- How large the scale is ----------

  /** The magnitude that the scale must cover: the largest size, or the distance from least to greatest. */
  ghost predicate Spans(row: seq<real>, symmetric: bool, x: real) {
    if symmetric then
      && (forall i :: 0 <= i < |row| ==> Abs(row[i]) <= x)
      && exists i :: 0 <= i < |row| && Abs(row[i]) == x
    else
      && (forall i, j :: 0 <= i < |row| && 0 <= j < |row| ==> row[i] - row[j] <= x)
      && exists i, j :: 0 <= i < |row| && 0 <= j < |row| && row[i] - row[j] == x
  }

  lemma {:induction false} BoundsAttained(row: seq<real>) returns (lo: nat, hi: nat)
    requires row != []
    ensures lo < |row| && row[lo] == MinOf(row)
    ensures hi < |row| && row[hi] == MaxOf(row)
  {
    if |row| == 1 {
      lo, hi := 0, 0;
    } else {
      var n := |row| - 1;
      lo, hi := BoundsAttained(row[..n]);
      if row[n] < MinOf(row[..n]) { lo := n; }
      if row[n] > MaxOf(row[..n]) { hi := n; }
    }
  }

  /** The scale is the least number not below 0.00001 that spreads the span over the positive range. */
  lemma {:induction false} ScaleIsTight(row: seq<real>, symmetric: bool, bits: nat, x: real)
    requires row != [] && EnoughBits(symmetric, bits) && Spans(row, symmetric, x)
    ensures Raised(Scale(row, symmetric, bits), 0.00001, x / QMax(symmetric, bits) as real)
  {
    SpanIs(row, symmetric, x);
  }

  lemma {:induction false} SpanIs(row: seq<real>, symmetric: bool, x: real)
    requires row != [] && Spans(row, symmetric, x)
    ensures x == if symmetric then Max(Abs(MinOf(row)), Abs(MaxOf(row))) else MaxOf(row) - MinOf(row)
  {
    var lo, hi := BoundsAttained(row);
    forall i | 0 <= i < |row| ensures MinOf(row) <= row[i] <= MaxOf(row) { RowBounds(row, i); }
    hide MinOf, MaxOf;
    if symmetric {
      assert Abs(row[lo]) <= x && Abs(row[hi]) <= x;
    } else {
      assert row[hi] - row[lo] <= x;
    }
  }

  /** So the error is at most half of 0.00001 or half a step of the span, whichever is larger. */
  lemma {:induction false} AbsoluteError(row: seq<real>, symmetric: bool, bits: nat, i: nat, x: real)
    requires i < |row| && EnoughBits(symmetric, bits) && Spans(row, symmetric, x)
    ensures Abs(Dequantized(row, symmetric, bits, i) - row[i]) <= Max(0.00001, x / QMax(symmetric, bits) as real) / 2.0
  {
    hide Dequantized, Scale, Spans;
    ScaleIsTight(row, symmetric, bits, x);
    ReconstructionError(row, symmetric, bits, i);
  }

  /** The ranges of signed and unsigned bytes. */
  lemma {:induction false} EightBits()
    ensures QMin(true, 8) == -128 && QMax(true, 8) == 127 && QMin(false, 8) == 0 && QMax(false, 8) == 255
  {
    assert Pow2(4) == 16;
    assert Pow2(7) == 128;
    assert Pow2(8) == 256;
  }
}
