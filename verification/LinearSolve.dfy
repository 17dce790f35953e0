/**
  `solve_3x3` of `benchmarks/benchmark_taper_plus.py`: Gauss-Jordan elimination with partial
  pivoting on three equations, over the reals.
 */
module LinearSolve {
  import opened Common
  import opened RealArith

  type Vec = v: seq<real> | |v| == 3 witness [0.0, 0.0, 0.0]

  /** One equation: three coefficients and a right-hand side. */
  type Row = v: seq<real> | |v| == 4 witness [0.0, 0.0, 0.0, 0.0]

  type Matrix = m: seq<Row> | |m| == 3 witness [ZERO_ROW, ZERO_ROW, ZERO_ROW]

  const ZERO_ROW: Row := [0.0, 0.0, 0.0, 0.0]

  const TINY_PIVOT := 0.000000001

  function Dot(u: Vec, v: Vec): real { Mul(u[0], v[0]) + Mul(u[1], v[1]) + Mul(u[2], v[2]) }

  /** A row applied to a homogeneous vector `z`; `z == x + [-1]` asks whether `x` satisfies it. */
  function Apply(r: Row, z: Row): real {
    Mul(r[0], z[0]) + Mul(r[1], z[1]) + Mul(r[2], z[2]) + Mul(r[3], z[3])
  }

  ghost predicate Solves(a: seq<Vec>, b: Vec, x: Vec)
    requires |a| == 3
  {
    Dot(a[0], x) == b[0] && Dot(a[1], x) == b[1] && Dot(a[2], x) == b[2]
  }

  /** Some vector of length at least one is sent within 1e-9 of zero in every row. */
  ghost predicate NearSingular(a: seq<Vec>)
    requires |a| == 3
  {
    exists v: Vec :: Vanishes(a, v) && Dot(v, v) >= 1.0
  }

  ghost predicate Vanishes(a: seq<Vec>, v: Vec)
    requires |a| == 3
  {
    Abs(Dot(a[0], v)) < TINY_PIVOT && Abs(Dot(a[1], v)) < TINY_PIVOT && Abs(Dot(a[2], v)) < TINY_PIVOT
  }

  // ---------- Row operations ----------

  function Scaled(r: Row, s: real): Row
    requires s != 0.0
  {
    [r[0] / s, r[1] / s, r[2] / s, r[3] / s]
  }

  function Minus(r: Row, factor: real, p: Row): Row {
    [r[0] - Mul(factor, p[0]), r[1] - Mul(factor, p[1]), r[2] - Mul(factor, p[2]), r[3] - Mul(factor, p[3])]
  }

  lemma {:induction false} EntryScaled(x: real, s: real, z: real)
    requires s != 0.0
    ensures Mul(s, Mul(x / s, z)) == Mul(x, z)
  {
    DivThenMul(x, s);
    MulAssociates(s, x / s, z);
  }

  lemma {:induction false} MulSum(s: real, a: real, b: real, c: real, d: real)
    ensures Mul(s, a + b + c + d) == Mul(s, a) + Mul(s, b) + Mul(s, c) + Mul(s, d)
  {
  }

  lemma {:induction false} ApplyScaled(r: Row, s: real, z: Row)
    requires s != 0.0
    ensures Mul(s, Apply(Scaled(r, s), z)) == Apply(r, z)
  {
    hide Mul;
    EntryScaled(r[0], s, z[0]);
    EntryScaled(r[1], s, z[1]);
    EntryScaled(r[2], s, z[2]);
    EntryScaled(r[3], s, z[3]);
    var q := Scaled(r, s);
    MulSum(s, Mul(q[0], z[0]), Mul(q[1], z[1]), Mul(q[2], z[2]), Mul(q[3], z[3]));
  }

  lemma {:induction false} EntryMinus(x: real, factor: real, p: real, z: real)
    ensures Mul(x - Mul(factor, p), z) == Mul(x, z) - Mul(factor, Mul(p, z))
  {
    MulDistributes(x, Mul(factor, p), z);
    MulAssociates(factor, p, z);
  }

  lemma {:induction false} ApplyMinus(r: Row, factor: real, p: Row, z: Row)
    ensures Apply(Minus(r, factor, p), z) == Apply(r, z) - Mul(factor, Apply(p, z))
  {
    hide Mul;
    EntryMinus(r[0], factor, p[0], z[0]);
    EntryMinus(r[1], factor, p[1], z[1]);
    EntryMinus(r[2], factor, p[2], z[2]);
    EntryMinus(r[3], factor, p[3], z[3]);
    MulSum(factor, Mul(p[0], z[0]), Mul(p[1], z[1]), Mul(p[2], z[2]), Mul(p[3], z[3]));
  }

  /** Row `col` normalised and cleared out of every other row. */
  function Cleared(m: Matrix, col: nat): Matrix
    requires col < 3 && m[col][col] != 0.0
  {
    var p := Scaled(m[col], m[col][col]);
    seq(3, r requires 0 <= r < 3 => if r == col then p else Minus(m[r], m[r][col], p))
  }

  // ---------- What elimination keeps ----------

  /** Columns before `col` are columns of the identity. */
  ghost predicate Reduced(m: Matrix, col: nat) {
    forall r, k :: 0 <= r < 3 && 0 <= k < col && k < 3 ==> m[r][k] == if r == k then 1.0 else 0.0
  }

  ghost predicate ZeroBelow(m: Matrix, z: Row, col: nat) {
    forall k :: 0 <= k < 3 && k < col ==> Apply(m[k], z) == 0.0
  }

  /** On the vectors that the finished rows of `m` send to zero, `m` acts like the rows of `o`. */
  ghost predicate ActsLike(o: Matrix, m: Matrix, col: nat) {
    forall z: Row :: ZeroBelow(m, z, col) ==> AgreeOn(o, m, col, z)
  }

  ghost predicate AgreeOn(o: Matrix, m: Matrix, col: nat, z: Row) {
    forall r :: 0 <= r < 3 ==> Apply(o[r], z) == if r < col then 0.0 else Apply(m[r], z)
  }

  /** Whatever the rows of `o` send to zero, those of `m` do too. */
  ghost predicate Follows(o: Matrix, m: Matrix) {
    forall z: Row :: ZeroBelow(o, z, 3) ==> ZeroBelow(m, z, 3)
  }

  lemma {:induction false} ClearedActsLike(o: Matrix, m: Matrix, col: nat)
    requires col < 3 && m[col][col] != 0.0 && ActsLike(o, m, col)
    ensures ActsLike(o, Cleared(m, col), col + 1)
  {
    var m', next := Cleared(m, col), col + 1;
    forall z: Row | ZeroBelow(m', z, next)
      ensures AgreeOn(o, m', next, z)
    {
      hide Apply, Scaled, Minus;
      var p := Scaled(m[col], m[col][col]);
      ApplyScaled(m[col], m[col][col], z);
      assert m'[col] == p;
      assert Apply(p, z) == 0.0;
      forall r | 0 <= r < 3 && r != col ensures Apply(m'[r], z) == Apply(m[r], z) {
        ApplyMinus(m[r], m[r][col], p, z);
      }
      assert ZeroBelow(m, z, col);
    }
  }

  lemma {:induction false} ClearedFollows(o: Matrix, m: Matrix, col: nat)
    requires col < 3 && m[col][col] != 0.0 && Follows(o, m)
    ensures Follows(o, Cleared(m, col))
  {
    var m' := Cleared(m, col);
    forall z: Row | ZeroBelow(o, z, 3) ensures ZeroBelow(m', z, 3) {
      hide Apply, Scaled, Minus;
      var p := Scaled(m[col], m[col][col]);
      ApplyScaled(m[col], m[col][col], z);
      assert Apply(m[col], z) == 0.0;
      assert Apply(p, z) == 0.0;
      forall r | 0 <= r < 3 ensures Apply(m'[r], z) == 0.0 {
        assert Apply(m[r], z) == 0.0;
        if r != col { ApplyMinus(m[r], m[r][col], p, z); }
      }
    }
  }

  lemma {:induction false} ClearedReduced(m: Matrix, col: nat)
    requires col < 3 && m[col][col] != 0.0 && Reduced(m, col)
    ensures Reduced(Cleared(m, col), col + 1)
  {
    var s := m[col][col];
    var p := Scaled(m[col], s);
    var m' := Cleared(m, col);
    assert p[col] == s / s == 1.0;
    forall r, k | 0 <= r < 3 && 0 <= k < col + 1 ensures m'[r][k] == if r == k then 1.0 else 0.0 {
      if k < col {
        assert m[col][k] == 0.0;
        assert p[k] == 0.0;
      }
      if r != col { assert m'[r][k] == m[r][k] - Mul(m[r][col], p[k]); }
    }
  }

  // ---------- Swapping rows ----------

  function Swapped(m: Matrix, i: nat, j: nat): Matrix
    requires i < 3 && j < 3
  {
    m[i := m[j]][j := m[i]]
  }

  lemma {:induction false} SwappedActsLike(o: Matrix, m: Matrix, col: nat, pivot: nat)
    requires col <= pivot < 3 && ActsLike(o, m, col)
    ensures ActsLike(Swapped(o, col, pivot), Swapped(m, col, pivot), col)
  {
    var o', m' := Swapped(o, col, pivot), Swapped(m, col, pivot);
    hide Apply;
    forall z: Row | ZeroBelow(m', z, col)
      ensures AgreeOn(o', m', col, z)
    {
      assert forall k :: 0 <= k < col ==> m'[k] == m[k];
      assert ZeroBelow(m, z, col);
    }
  }

  lemma {:induction false} SwappedFollows(o: Matrix, m: Matrix, i: nat, j: nat)
    requires i < 3 && j < 3 && Follows(o, m)
    ensures Follows(o, Swapped(m, i, j))
  {
    hide Apply;
    forall z: Row | ZeroBelow(o, z, 3) ensures ZeroBelow(Swapped(m, i, j), z, 3) {
      assert ZeroBelow(m, z, 3);
    }
  }

  lemma {:induction false} SwappedReduced(m: Matrix, col: nat, pivot: nat)
    requires col <= pivot < 3 && Reduced(m, col)
    ensures Reduced(Swapped(m, col, pivot), col)
    ensures Swapped(m, col, pivot)[col] == m[pivot]
  {
    var m' := Swapped(m, col, pivot);
    forall r, k | 0 <= r < 3 && 0 <= k < col ensures m'[r][k] == if r == k then 1.0 else 0.0 {
      assert m[r][k] == (if r == k then 1.0 else 0.0) && m[col][k] == 0.0 && m[pivot][k] == 0.0;
    }
  }

  // ---------- Small pivots and finished matrices ----------

  function Augmented(a: seq<Vec>, b: Vec): Matrix
    requires |a| == 3
  {
    [[a[0][0], a[0][1], a[0][2], b[0]], [a[1][0], a[1][1], a[1][2], b[1]], [a[2][0], a[2][1], a[2][2], b[2]]]
  }

  lemma {:induction false} FirstColumn(a: seq<Vec>, b: Vec, r: nat)
    requires |a| == 3 && r < 3
    ensures Augmented(a, b)[r][0] == a[r][0]
  {
  }

  ghost predicate SameRows(o: Matrix, o': Matrix) {
    {o[0], o[1], o[2]} == {o'[0], o'[1], o'[2]}
  }

  lemma {:induction false} SwapKeepsRows(o: Matrix, o': Matrix, i: nat, j: nat)
    requires i < 3 && j < 3 && SameRows(o, o')
    ensures SameRows(o, Swapped(o', i, j))
  {
    var s := Swapped(o', i, j);
    assert forall k :: 0 <= k < 3 ==> s[k] == if k == j then o'[i] else if k == i then o'[j] else o'[k];
  }

  /** The vector that a failed column exposes: the column's unit vector, corrected so that the
      finished rows vanish on it. */
  function Witness(m: Matrix, col: nat): Vec
    requires col < 3
  {
    if col == 0 then [1.0, 0.0, 0.0]
    else if col == 1 then [-m[0][1], 1.0, 0.0]
    else [-m[0][2], -m[1][2], 1.0]
  }

  lemma {:induction false} WitnessValue(m: Matrix, col: nat, r: nat)
    requires col < 3 && r < 3 && Reduced(m, col)
    ensures Apply(m[r], Witness(m, col) + [0.0]) == if r < col then 0.0 else m[r][col]
  {
    assert col > 0 ==> m[r][0] == if r == 0 then 1.0 else 0.0;
    assert col > 1 ==> m[r][1] == if r == 1 then 1.0 else 0.0;
  }

  lemma {:induction false} AugmentedApply(a: seq<Vec>, b: Vec, i: nat, v: Vec, t: real)
    requires |a| == 3 && i < 3
    ensures Apply(Augmented(a, b)[i], v + [t]) == Dot(a[i], v) + Mul(b[i], t)
  {
  }

  /** The rows of `a` and the reordered rows `o` take the same values. */
  lemma {:induction false} RowSomewhere(g: Matrix, o: Matrix, i: nat) returns (j: nat)
    requires SameRows(g, o) && i < 3
    ensures j < 3 && g[i] == o[j]
  {
    assert g[i] in {g[0], g[1], g[2]};
    j :| j < 3 && g[i] == o[j];
  }

  lemma {:induction false} WitnessVanishes(a: seq<Vec>, b: Vec, o: Matrix, m: Matrix, col: nat)
    requires |a| == 3 && col < 3 && Reduced(m, col) && ActsLike(o, m, col)
    requires SameRows(Augmented(a, b), o)
    requires forall r :: col <= r < 3 ==> Abs(m[r][col]) < TINY_PIVOT
    ensures NearSingular(a)
  {
    var v := Witness(m, col);
    var z: Row := v + [0.0];
    assert Dot(v, v) >= 1.0;
    hide Apply, Dot, Witness, SameRows, Augmented;
    forall r | 0 <= r < 3 ensures Apply(m[r], z) == if r < col then 0.0 else m[r][col] {
      WitnessValue(m, col, r);
    }
    assert ZeroBelow(m, z, col);
    forall i | 0 <= i < 3 ensures Abs(Dot(a[i], v)) < TINY_PIVOT {
      AugmentedApply(a, b, i, v, 0.0);
      var j := RowSomewhere(Augmented(a, b), o, i);
      assert AgreeOn(o, m, col, z);
      assert Apply(o[j], z) == if j < col then 0.0 else Apply(m[j], z);
    }
    assert Vanishes(a, v);
  }

  lemma {:induction false} ReducedValue(m: Matrix, y: Vec, r: nat)
    requires Reduced(m, 3) && r < 3
    ensures Apply(m[r], y + [-1.0]) == y[r] - m[r][3]
  {
    assert m[r][0] == if r == 0 then 1.0 else 0.0;
    assert m[r][1] == if r == 1 then 1.0 else 0.0;
    assert m[r][2] == if r == 2 then 1.0 else 0.0;
  }

  /** A fully reduced matrix displays its only solution. */
  lemma {:induction false} FinishedSolution(a: seq<Vec>, b: Vec, o: Matrix, m: Matrix, y: Vec)
    requires |a| == 3 && Reduced(m, 3) && ActsLike(o, m, 3)
    requires SameRows(Augmented(a, b), o) && Follows(Augmented(a, b), m)
    ensures Solves(a, b, y) <==> y == [m[0][3], m[1][3], m[2][3]]
  {
    hide Apply, Dot, SameRows, Augmented, Reduced;
    var z: Row := y + [-1.0];
    var g := Augmented(a, b);
    forall i | 0 <= i < 3 ensures Apply(g[i], z) == Dot(a[i], y) - b[i] { AugmentedApply(a, b, i, y, -1.0); }
    forall r | 0 <= r < 3 ensures Apply(m[r], z) == y[r] - m[r][3] { ReducedValue(m, y, r); }
    if Solves(a, b, y) {
      assert ZeroBelow(g, z, 3);
      assert Apply(m[0], z) == 0.0 && Apply(m[1], z) == 0.0 && Apply(m[2], z) == 0.0;
    }
    if y == [m[0][3], m[1][3], m[2][3]] {
      assert ZeroBelow(m, z, 3);
      forall i | 0 <= i < 3 ensures Dot(a[i], y) == b[i] {
        var j := RowSomewhere(g, o, i);
        assert AgreeOn(o, m, 3, z);
        assert Apply(o[j], z) == 0.0;
      }
    }
  }

  // ---------- The solver ----------

  /** The first row from `col` on whose entry in column `col` is largest in size. */
  method Pivot(m: Matrix, col: nat) returns (pivot: nat)
    requires col < 3
    ensures col <= pivot < 3
    ensures forall r :: col <= r < 3 ==> Abs(m[r][col]) <= Abs(m[pivot][col])
    ensures forall r :: col <= r < pivot ==> Abs(m[r][col]) < Abs(m[pivot][col])
  {
    pivot := col;
    for r := col + 1 to 3
      invariant col <= pivot < r
      invariant forall k :: col <= k < r ==> Abs(m[k][col]) <= Abs(m[pivot][col])
      invariant forall k :: col <= k < pivot ==> Abs(m[k][col]) < Abs(m[pivot][col])
    {
      if Abs(m[r][col]) > Abs(m[pivot][col]) { pivot := r; }
    }
  }

  method ClearColumn(m: Matrix, col: nat) returns (m': Matrix)
    requires col < 3 && m[col][col] != 0.0
    ensures m' == Cleared(m, col)
  {
    m' := m;
    m' := m'[col := Scaled(m'[col], m'[col][col])];
    for r := 0 to 3
      invariant m'[col] == Cleared(m, col)[col]
      invariant forall k :: 0 <= k < r ==> m'[k] == Cleared(m, col)[k]
      invariant forall k :: r <= k < 3 && k != col ==> m'[k] == m[k]
    {
      if r != col {
        m' := m'[r := Minus(m'[r], m'[r][col], m'[col])];
      }
    }
    assert forall k :: 0 <= k < 3 ==> m'[k] == Cleared(m, col)[k];
  }

  /** An answer is the system's only solution; no answer is given only for a near-singular system,
      and surely for one whose first column is below the threshold throughout. */
  method Solve(a: seq<Vec>, b: Vec) returns (x: Option<Vec>)
    requires |a| == 3
    ensures x.Some? ==> forall y: Vec :: Solves(a, b, y) <==> y == x.value
    ensures x.None? ==> NearSingular(a)
    ensures (forall r :: 0 <= r < 3 ==> Abs(a[r][0]) < 0.000000001) ==> x.None?
  {
    var m := Augmented(a, b);
    ghost var o := m;
    for col := 0 to 3
      invariant col == 0 ==> m == Augmented(a, b)
      invariant col > 0 ==> exists r :: 0 <= r < 3 && Abs(a[r][0]) >= 0.000000001
      invariant SameRows(Augmented(a, b), o)
      invariant Reduced(m, col) && ActsLike(o, m, col) && Follows(Augmented(a, b), m)
    {
      hide Apply, Cleared, Augmented, SameRows, Reduced, ActsLike, Follows, Swapped, NearSingular;
      var pivot := Pivot(m, col);
      if Abs(m[pivot][col]) < TINY_PIVOT {
        WitnessVanishes(a, b, o, m, col);
        return None;
      }
      assert col == 0 ==> Abs(a[pivot][0]) >= 0.000000001 by { FirstColumn(a, b, pivot); }
      SwappedActsLike(o, m, col, pivot);
      SwappedFollows(Augmented(a, b), m, col, pivot);
      SwappedReduced(m, col, pivot);
      SwapKeepsRows(Augmented(a, b), o, col, pivot);
      m, o := Swapped(m, col, pivot), Swapped(o, col, pivot);
      ClearedActsLike(o, m, col);
      ClearedFollows(Augmented(a, b), m, col);
      ClearedReduced(m, col);
      m := ClearColumn(m, col);
    }
    x := Some([m[0][3], m[1][3], m[2][3]]);
    forall y: Vec ensures Solves(a, b, y) <==> y == x.value { FinishedSolution(a, b, o, m, y); }
  }
}
