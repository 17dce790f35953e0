/** Rounding to the nearest integer, ties to even, as Python's `round` and `torch.round` do. */
module Rounding {
  import opened RealArith

  function Round(x: real): int {
    var f := x.Floor;
    var frac := x - f as real;
    if frac < 0.5 || (frac == 0.5 && f % 2 == 0) then f else f + 1
  }

  lemma {:induction false} RoundNear(x: real)
    ensures -0.5 <= Round(x) as real - x <= 0.5
  {
  }

  lemma {:induction false} RoundMonotone(x: real, y: real)
    requires x <= y
    ensures Round(x) <= Round(y)
  {
    if x.Floor == y.Floor {
      assert x - x.Floor as real <= y - y.Floor as real;
    } else {
      assert x.Floor + 1 <= y.Floor;
    }
  }

  lemma {:induction false} RoundInteger(n: int)
    ensures Round(n as real) == n
  {
  }

  /** Halfway between two integers, rounding takes the even one. */
  lemma {:induction false} RoundTies(n: int)
    ensures Round(n as real + 0.5) == if n % 2 == 0 then n else n + 1
  {
    assert (n as real + 0.5).Floor == n;
  }

  /** `round(x, 6)` */
  function Round6(x: real): real { Round(x * 1000000.0) as real / 1000000.0 }

  lemma {:induction false} Round6Near(x: real)
    ensures Abs(Round6(x) - x) <= 0.0000005
  {
    RoundNear(x * 1000000.0);
  }

  /** What is rounded to six digits is a whole number of millionths. */
  lemma {:induction false} Round6IsMillionths(x: real)
    ensures exists n: int :: IsMillionths(Round6(x), n)
  {
    assert IsMillionths(Round6(x), Round(x * 1000000.0));
  }

  predicate IsMillionths(x: real, n: int) { x * 1000000.0 == n as real }
}
