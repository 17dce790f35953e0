/** Multiplication of reals under a name, with the few laws that proofs about sums of products use. */
module RealArith {

  function Mul(x: real, y: real): real { x * y }

  function Abs(x: real): real { if x < 0.0 then -x else x }

  function Max(a: real, b: real): real { if b > a then b else a }

  function Min(a: real, b: real): real { if b < a then b else a }

  lemma {:induction false} MulCommutes(x: real, y: real)
    ensures Mul(x, y) == Mul(y, x)
  {
  }

  lemma {:induction false} MulDistributes(x: real, y: real, z: real)
    ensures Mul(x + y, z) == Mul(x, z) + Mul(y, z)
    ensures Mul(x - y, z) == Mul(x, z) - Mul(y, z)
  {
  }

  lemma {:induction false} MulAssociates(x: real, y: real, z: real)
    ensures Mul(Mul(x, y), z) == Mul(x, Mul(y, z))
  {
  }

  lemma {:induction false} MulOrder(x: real, a: real, b: real)
    requires x >= 0.0 && a <= b
    ensures Mul(x, a) <= Mul(x, b)
    ensures Mul(a, x) <= Mul(b, x)
  {
  }

  lemma {:induction false} MulNonNegative(x: real, y: real)
    requires x >= 0.0 && y >= 0.0
    ensures Mul(x, y) >= 0.0
  {
  }

  lemma {:induction false} MulPositive(x: real, y: real)
    requires x > 0.0 && y > 0.0
    ensures Mul(x, y) > 0.0
  {
  }

  lemma {:induction false} MulCancel(n: real, p: real, q: real)
    requires n > 0.0 && Mul(n, p) <= Mul(n, q)
    ensures p <= q
  {
  }

  lemma {:induction false} QuotientNonNegative(x: real, y: real)
    requires x >= 0.0 && y > 0.0
    ensures x / y >= 0.0
  {
    DivThenMul(x, y);
    MulCancel(y, 0.0, x / y);
  }

  lemma {:induction false} MulNegate(x: real, y: real)
    ensures Mul(-x, -y) == Mul(x, y)
    ensures Mul(-x, y) == -Mul(x, y)
  {
  }

  lemma {:induction false} SquareNonNegative(x: real)
    ensures Mul(x, x) >= 0.0
    ensures x != 0.0 ==> Mul(x, x) > 0.0
  {
    if x > 0.0 {
      MulPositive(x, x);
    } else if x < 0.0 {
      MulNegate(x, x);
      MulPositive(-x, -x);
    }
  }

  /** Dividing and multiplying back. */
  lemma {:induction false} DivThenMul(x: real, s: real)
    requires s != 0.0
    ensures Mul(s, x / s) == x
  {
  }

  function Sum(s: seq<real>): real {
    if s == [] then 0.0 else Sum(s[..|s| - 1]) + s[|s| - 1]
  }

  /** By how much the values exceed `a`, all together. */
  function Deviations(s: seq<real>, a: real): real {
    if s == [] then 0.0 else Deviations(s[..|s| - 1], a) + (s[|s| - 1] - a)
  }

  lemma {:induction false} DeviationsAre(s: seq<real>, a: real)
    ensures Deviations(s, a) == Sum(s) - Mul(|s| as real, a)
  {
    if s == [] {
    } else {
      var n := |s| - 1;
      DeviationsAre(s[..n], a);
      MulDistributes(n as real, 1.0, a);
    }
  }

  /** An average is where the values balance. */
  lemma {:induction false} AverageBalances(s: seq<real>)
    requires s != []
    ensures Deviations(s, Sum(s) / |s| as real) == 0.0
  {
    DeviationsAre(s, Sum(s) / |s| as real);
    DivThenMul(Sum(s), |s| as real);
  }

  /** `x` is the least number below neither `a` nor `b`. */
  predicate Raised(x: real, a: real, b: real) {
    a <= x && b <= x && (x == a || x == b)
  }

  /** `v` cuts the way from `x` to `y` so that its parts are as `b` to `a`. */
  predicate Divides(v: real, x: real, a: real, y: real, b: real) {
    Mul(a, v - x) == Mul(b, y - v)
  }
}
