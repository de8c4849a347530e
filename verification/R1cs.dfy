/** Relaxed R1CS over sparse rows: residuals, folding, and the linear forms the
    two sumchecks run on. */
module R1cs {
  import opened Results
  import opened Fields
  import opened Vectors
  import opened Multilinear
  import opened Matrices

  /** `[(variable index, coefficient), ..]`; a column may appear more than once. */
  type SparseRow = seq<(nat, int)>

  datatype ConstraintMatrices = ConstraintMatrices(
    numVars: nat, a: seq<SparseRow>, b: seq<SparseRow>, c: seq<SparseRow>)

  ghost predicate ColumnsBelow(row: SparseRow, n: nat) {
    forall i :: 0 <= i < |row| ==> row[i].0 < n
  }

  ghost predicate RowsBelow(rows: seq<SparseRow>, n: nat) {
    forall k :: 0 <= k < |rows| ==> ColumnsBelow(rows[k], n)
  }

  /** The constructor's invariant. */
  ghost predicate ValidMatrices(m: ConstraintMatrices) {
    && |m.a| == |m.b| == |m.c|
    && RowsBelow(m.a, m.numVars) && RowsBelow(m.b, m.numVars) && RowsBelow(m.c, m.numVars)
  }

  /** `dot`. */
  function SparseDot(row: SparseRow, z: seq<int>): int
    requires ColumnsBelow(row, |z|)
  {
    if row == [] then 0 else row[0].1 * z[row[0].0] + SparseDot(row[1..], z)
  }

  /** `matrix_vector_product`. */
  function Product(rows: seq<SparseRow>, z: seq<int>): (v: seq<int>)
    requires RowsBelow(rows, |z|)
    ensures |v| == |rows|
  {
    seq(|rows|, k requires 0 <= k < |rows| => SparseDot(rows[k], z))
  }

  lemma {:induction false} SparseDotFold(row: SparseRow, x: seq<int>, y: seq<int>, r: int)
    requires |x| == |y| && ColumnsBelow(row, |x|)
    ensures SparseDot(row, VAdd(x, Scale(r, y))) == SparseDot(row, x) + r * SparseDot(row, y)
  {
    if row != [] {
      SparseDotFold(row[1..], x, y, r);
      FoldTerm(row[0].1, x[row[0].0], y[row[0].0], r, SparseDot(row[1..], x), SparseDot(row[1..], y));
    }
  }

  lemma FoldTerm(c: int, x: int, y: int, r: int, s: int, t: int)
    ensures c * (x + r * y) + (s + r * t) == (c * x + s) + r * (c * y + t)
  {
  }

  // Residuals and folding.

  function ZVector(u: int, wit: seq<int>): (z: seq<int>)
    ensures |z| == |wit| + 1
  {
    [u] + wit
  }

  /** The error of constraint `k`: `(Az)(Bz) - u (Cz)`. */
  function Residual(m: ConstraintMatrices, k: nat, u: int, z: seq<int>): int
    requires ValidMatrices(m) && k < |m.a| && m.numVars <= |z|
  {
    SparseDot(m.a[k], z) * SparseDot(m.b[k], z) - u * SparseDot(m.c[k], z)
  }

  /** The cross term of constraint `k` between two relaxed witnesses. */
  function CrossTerm(m: ConstraintMatrices, k: nat, u1: int, z1: seq<int>, u2: int, z2: seq<int>): int
    requires ValidMatrices(m) && k < |m.a| && m.numVars <= |z1| && m.numVars <= |z2|
  {
    SparseDot(m.a[k], z1) * SparseDot(m.b[k], z2) + SparseDot(m.a[k], z2) * SparseDot(m.b[k], z1)
    - u1 * SparseDot(m.c[k], z2) - u2 * SparseDot(m.c[k], z1)
  }

  lemma Widen(rows: seq<SparseRow>, n: nat, k: nat)
    requires RowsBelow(rows, n) && k < |rows|
    ensures ColumnsBelow(rows[k], n)
  {
  }

  /** `real + challenge * random`. */
  function Folded(base: seq<int>, random: seq<int>, r: int): (v: seq<int>)
    requires |base| == |random|
    ensures |v| == |base|
  {
    VAdd(base, Scale(r, random))
  }

  /** `real + challenge * cross + challenge^2 * random`. */
  function FoldedError(base: seq<int>, cross: seq<int>, random: seq<int>, r: int): (v: seq<int>)
    requires |base| == |cross| == |random|
    ensures |v| == |base|
  {
    VAdd(VAdd(base, Scale(r, cross)), Scale(r * r, random))
  }

  /** The residual of the folded witness is the quadratic in the challenge
      whose coefficients are the two residuals and the cross term. */
  lemma FoldResidual(m: ConstraintMatrices, k: nat, u1: int, w1: seq<int>, u2: int, w2: seq<int>, r: int)
    requires ValidMatrices(m) && k < |m.a| && |w1| == |w2| && m.numVars <= |w1| + 1
    ensures Residual(m, k, u1 + r * u2, ZVector(u1 + r * u2, Folded(w1, w2, r)))
         == Residual(m, k, u1, ZVector(u1, w1))
            + r * CrossTerm(m, k, u1, ZVector(u1, w1), u2, ZVector(u2, w2))
            + r * r * Residual(m, k, u2, ZVector(u2, w2))
  {
    var z1, z2 := ZVector(u1, w1), ZVector(u2, w2);
    assert ZVector(u1 + r * u2, Folded(w1, w2, r)) == VAdd(z1, Scale(r, z2));
    SparseDotFold(m.a[k], z1, z2, r);
    SparseDotFold(m.b[k], z1, z2, r);
    SparseDotFold(m.c[k], z1, z2, r);
    ResidualAlgebra(SparseDot(m.a[k], z1), SparseDot(m.a[k], z2), SparseDot(m.b[k], z1), SparseDot(m.b[k], z2),
                    SparseDot(m.c[k], z1), SparseDot(m.c[k], z2), u1, u2, r);
  }

  lemma ResidualAlgebra(a1: int, a2: int, b1: int, b2: int, c1: int, c2: int, u1: int, u2: int, r: int)
    ensures (a1 + r * a2) * (b1 + r * b2) - (u1 + r * u2) * (c1 + r * c2)
         == (a1 * b1 - u1 * c1) + r * (a1 * b2 + a2 * b1 - u1 * c2 - u2 * c1) + r * r * (a2 * b2 - u2 * c2)
  {
    ProductAlgebra(a1, a2, b1, b2, r);
    ProductAlgebra(u1, u2, c1, c2, r);
  }

  lemma ProductAlgebra(a: int, b: int, c: int, d: int, r: int)
    ensures (a + r * b) * (c + r * d) == a * c + r * (a * d) + r * (b * c) + r * r * (b * d)
  {
    assert (a + r * b) * (c + r * d) == a * (c + r * d) + (r * b) * (c + r * d);
    assert a * (c + r * d) == a * c + r * (a * d);
    assert (r * b) * (c + r * d) == r * (b * c) + (r * b) * (r * d);
    assert (r * b) * (r * d) == r * r * (b * d);
  }

  /** `error_rows_for` and `cross_term_error_rows_for`, before they are cut into rows. */
  function Errors(m: ConstraintMatrices, u: int, wit: seq<int>): (e: seq<int>)
    requires ValidMatrices(m) && m.numVars <= |wit| + 1
    ensures |e| == |m.a|
    ensures forall k {:trigger e[k]} :: 0 <= k < |e| ==> e[k] == Residual(m, k, u, ZVector(u, wit))
  {
    seq(|m.a|, k requires 0 <= k < |m.a| => Residual(m, k, u, ZVector(u, wit)))
  }

  function CrossErrors(m: ConstraintMatrices, u1: int, w1: seq<int>, u2: int, w2: seq<int>): (e: seq<int>)
    requires ValidMatrices(m) && m.numVars <= |w1| + 1 && m.numVars <= |w2| + 1
    ensures |e| == |m.a|
    ensures forall k {:trigger e[k]} :: 0 <= k < |e| ==>
      e[k] == CrossTerm(m, k, u1, ZVector(u1, w1), u2, ZVector(u2, w2))
  {
    seq(|m.a|, k requires 0 <= k < |m.a| => CrossTerm(m, k, u1, ZVector(u1, w1), u2, ZVector(u2, w2)))
  }

  /** A relaxed witness satisfies the relation with error vector `e`. */
  ghost predicate Satisfies(f: Field, m: ConstraintMatrices, u: int, wit: seq<int>, e: seq<int>)
    requires ValidMatrices(m) && m.numVars <= |wit| + 1
  {
    SameVec(f, e, Errors(m, u, wit))
  }

  /** Folding keeps exactly the residual of the first witness: with the
      computed error and cross vectors the fold satisfies the relation, for
      any one challenge, if and only if the first witness does. */
  lemma FoldSatisfiesIff(f: Field, m: ConstraintMatrices, u1: int, w1: seq<int>, e1: seq<int>, u2: int, w2: seq<int>,
                         r: int)
    requires IsField(f) && ValidMatrices(m) && |w1| == |w2| && m.numVars <= |w1| + 1 && |e1| == |m.a|
    ensures Satisfies(f, m, u1 + r * u2, Folded(w1, w2, r),
                      FoldedError(e1, CrossErrors(m, u1, w1, u2, w2), Errors(m, u2, w2), r))
       <==> Satisfies(f, m, u1, w1, e1)
  {
    var cross, errors := CrossErrors(m, u1, w1, u2, w2), Errors(m, u2, w2);
    var e := FoldedError(e1, cross, errors, r);
    var full := Errors(m, u1 + r * u2, Folded(w1, w2, r));
    forall k | 0 <= k < |e| ensures Same(f, e[k], full[k]) <==> Same(f, e1[k], Errors(m, u1, w1)[k]) {
      FoldResidual(m, k, u1, w1, u2, w2, r);
      ShiftBoth(f, e1[k], Errors(m, u1, w1)[k], r * cross[k] + r * r * errors[k]);
    }
  }

  lemma ShiftBoth(f: Field, a: int, b: int, t: int)
    requires IsField(f)
    ensures Same(f, a + t, b + t) <==> Same(f, a, b)
  {
    if Same(f, a, b) {
      SameAdd(f, a, b, t, t);
    }
    if Same(f, a + t, b + t) {
      SameSub(f, a + t, b + t, t, t);
    }
  }

  /** The prover has no choice: if some error and cross vectors make the fold
      satisfy the relation at three distinct challenges, they are the computed ones. */
  lemma FoldVectorsUnique(f: Field, m: ConstraintMatrices, u1: int, w1: seq<int>, e1: seq<int>, u2: int, w2: seq<int>,
                          cross: seq<int>, errors: seq<int>, r: int, s: int, t: int)
    requires IsField(f) && ValidMatrices(m) && |w1| == |w2| && m.numVars <= |w1| + 1
    requires |e1| == |cross| == |errors| == |m.a|
    requires !Same(f, r, s) && !Same(f, r, t) && !Same(f, s, t)
    requires Satisfies(f, m, u1 + r * u2, Folded(w1, w2, r), FoldedError(e1, cross, errors, r))
    requires Satisfies(f, m, u1 + s * u2, Folded(w1, w2, s), FoldedError(e1, cross, errors, s))
    requires Satisfies(f, m, u1 + t * u2, Folded(w1, w2, t), FoldedError(e1, cross, errors, t))
    ensures SameVec(f, e1, Errors(m, u1, w1))
    ensures SameVec(f, cross, CrossErrors(m, u1, w1, u2, w2))
    ensures SameVec(f, errors, Errors(m, u2, w2))
  {
    var c, e := CrossErrors(m, u1, w1, u2, w2), Errors(m, u2, w2);
    var e0 := Errors(m, u1, w1);
    forall k | 0 <= k < |cross|
      ensures Same(f, e1[k], e0[k]) && Same(f, cross[k], c[k]) && Same(f, errors[k], e[k])
    {
      QuadraticAt(f, m, k, u1, w1, e1, u2, w2, cross, errors, r);
      QuadraticAt(f, m, k, u1, w1, e1, u2, w2, cross, errors, s);
      QuadraticAt(f, m, k, u1, w1, e1, u2, w2, cross, errors, t);
      QuadraticZero(f, e1[k] - e0[k], cross[k] - c[k], errors[k] - e[k], r, s, t);
      SameDifference(f, e1[k], e0[k]);
      SameDifference(f, cross[k], c[k]);
      SameDifference(f, errors[k], e[k]);
    }
  }

  lemma QuadraticAt(f: Field, m: ConstraintMatrices, k: nat, u1: int, w1: seq<int>, e1: seq<int>, u2: int, w2: seq<int>,
                    cross: seq<int>, errors: seq<int>, r: int)
    requires IsField(f) && ValidMatrices(m) && |w1| == |w2| && m.numVars <= |w1| + 1
    requires |e1| == |cross| == |errors| == |m.a| && k < |m.a|
    requires Satisfies(f, m, u1 + r * u2, Folded(w1, w2, r), FoldedError(e1, cross, errors, r))
    ensures var c, e := CrossErrors(m, u1, w1, u2, w2)[k], Errors(m, u2, w2)[k];
      Same(f, e1[k] - Errors(m, u1, w1)[k] + r * (cross[k] - c) + r * r * (errors[k] - e), 0)
  {
    var c, e, e0 := CrossErrors(m, u1, w1, u2, w2)[k], Errors(m, u2, w2)[k], Errors(m, u1, w1)[k];
    var folded, full := FoldedError(e1, cross, errors, r)[k], Errors(m, u1 + r * u2, Folded(w1, w2, r))[k];
    SatisfiesAt(f, m, u1 + r * u2, Folded(w1, w2, r), FoldedError(e1, cross, errors, r), k);
    assert folded == e1[k] + r * cross[k] + r * r * errors[k];
    hide *;
    FoldResidual(m, k, u1, w1, u2, w2, r);
    assert full == e0 + r * c + r * r * e;
    SameDifference(f, folded, full);
    DifferenceAlgebra(e1[k], e0, cross[k], c, errors[k], e, r, r * r);
  }

  lemma SatisfiesAt(f: Field, m: ConstraintMatrices, u: int, wit: seq<int>, e: seq<int>, k: nat)
    requires ValidMatrices(m) && m.numVars <= |wit| + 1 && Satisfies(f, m, u, wit, e) && k < |m.a|
    ensures |e| == |m.a| && Same(f, e[k], Errors(m, u, wit)[k])
  {
  }

  lemma DifferenceAlgebra(a: int, a': int, b: int, b': int, c: int, c': int, r: int, q: int)
    ensures a + r * b + q * c - (a' + r * b' + q * c') == a - a' + r * (b - b') + q * (c - c')
  {
  }

  /** A quadratic with three distinct roots is zero. */
  lemma QuadraticZero(f: Field, a: int, b: int, c: int, r: int, s: int, t: int)
    requires IsField(f) && !Same(f, r, s) && !Same(f, r, t) && !Same(f, s, t)
    requires Same(f, a + r * b + r * r * c, 0) && Same(f, a + s * b + s * s * c, 0) && Same(f, a + t * b + t * t * c, 0)
    ensures Same(f, a, 0) && Same(f, b, 0) && Same(f, c, 0)
  {
    RootGap(f, a, b, c, r, s);
    RootGap(f, a, b, c, r, t);
    var p, q := b + (r + s) * c, b + (r + t) * c;
    SameSub(f, p, 0, q, 0);
    assert p - q == (s - t) * c;
    SameDifference(f, s, t);
    ZeroProduct(f, s - t, c);
    SameMul(f, r + s, r + s, c, 0);
    SameSub(f, p, 0, (r + s) * c, (r + s) * 0);
    assert p - (r + s) * c == b && 0 - (r + s) * 0 == 0;
    SameMul(f, r, r, b, 0);
    SameMul(f, r * r, r * r, c, 0);
    SameAdd(f, r * b, r * 0, r * r * c, r * r * 0);
    SameSub(f, a + r * b + r * r * c, 0, r * b + r * r * c, r * 0 + r * r * 0);
    assert 0 - (r * 0 + r * r * 0) == 0;
  }

  lemma RootGap(f: Field, a: int, b: int, c: int, r: int, s: int)
    requires IsField(f) && !Same(f, r, s)
    requires Same(f, a + r * b + r * r * c, 0) && Same(f, a + s * b + s * s * c, 0)
    ensures Same(f, b + (r + s) * c, 0)
  {
    SameSub(f, a + r * b + r * r * c, 0, a + s * b + s * s * c, 0);
    assert a + r * b + r * r * c - (a + s * b + s * s * c) == (r - s) * (b + (r + s) * c);
    SameDifference(f, r, s);
    ZeroProduct(f, r - s, b + (r + s) * c);
  }

  // The linear forms of the inner sumcheck.

  /** The coefficient a row gives to one column, repeated entries added. */
  function Column(row: SparseRow, column: int): int {
    if row == [] then 0
    else (if row[0].0 == column then row[0].1 else 0) + Column(row[1..], column)
  }

  /** The part of a row in columns `start .. start + |ws|`, against `ws`. */
  function Tail(row: SparseRow, start: nat, ws: seq<int>): int {
    if row == [] then 0
    else (if start <= row[0].0 < start + |ws| then row[0].1 * ws[row[0].0 - start] else 0) + Tail(row[1..], start, ws)
  }

  function ProjectedRow(row: SparseRow, start: nat, n: nat): (v: seq<int>)
    ensures |v| == n && forall j {:trigger v[j]} :: 0 <= j < n ==> v[j] == Column(row, start + j)
  {
    seq(n, j => Column(row, start + j))
  }

  function ProjectedRows(rows: seq<SparseRow>, start: nat, n: nat): (v: seq<seq<int>>)
    ensures |v| == |rows| && Uniform(v, n)
  {
    seq(|rows|, k requires 0 <= k < |rows| => ProjectedRow(rows[k], start, n))
  }

  /** The row-weighted column form of a matrix. */
  function Projection(rows: seq<SparseRow>, weights: seq<int>, start: nat, n: nat): (v: seq<int>)
    requires |weights| == |rows|
    ensures |v| == n
  {
    Combine(weights, ProjectedRows(rows, start, n), n)
  }

  lemma {:induction false} ProjectedRowDot(row: SparseRow, start: nat, ws: seq<int>)
    ensures Dot(ProjectedRow(row, start, |ws|), ws) == Tail(row, start, ws)
  {
    var n := |ws|;
    if row == [] {
      DotZeros(ProjectedRow(row, start, n), ws);
    } else {
      var (col, c) := row[0];
      ProjectedRowDot(row[1..], start, ws);
      var head := seq(n, j => if col == start + j then c else 0);
      assert ProjectedRow(row, start, n) == VAdd(head, ProjectedRow(row[1..], start, n));
      DotAdd(head, ProjectedRow(row[1..], start, n), ws);
      if start <= col < start + n {
        SingleEntry(head, ws, col - start);
      } else {
        DotZeros(head, ws);
      }
    }
  }

  lemma {:induction false} SingleEntry(xs: seq<int>, ys: seq<int>, i: nat)
    requires i < |xs| == |ys| && forall j :: 0 <= j < |xs| && j != i ==> xs[j] == 0
    ensures Dot(xs, ys) == xs[i] * ys[i]
  {
    if i == 0 {
      DotZeros(xs[1..], ys[1..]);
    } else {
      assert 0 * ys[0] == 0;
      SingleEntry(xs[1..], ys[1..], i - 1);
    }
  }

  /** The weighted tails of all rows. */
  function Tails(rows: seq<SparseRow>, start: nat, ws: seq<int>): (v: seq<int>)
    ensures |v| == |rows|
  {
    seq(|rows|, k requires 0 <= k < |rows| => Tail(rows[k], start, ws))
  }

  function Columns(rows: seq<SparseRow>, column: nat): (v: seq<int>)
    ensures |v| == |rows|
  {
    seq(|rows|, k requires 0 <= k < |rows| => Column(rows[k], column))
  }

  /** Dotting the projected form is the weighted sum of the row tails. */
  lemma {:induction false} ProjectionDot(rows: seq<SparseRow>, weights: seq<int>, start: nat, ws: seq<int>)
    requires |weights| == |rows|
    ensures Dot(Projection(rows, weights, start, |ws|), ws) == Dot(weights, Tails(rows, start, ws))
  {
    var n := |ws|;
    if rows == [] {
      DotZeros(Zeros(n), ws);
    } else {
      assert ProjectedRows(rows, start, n)[1..] == ProjectedRows(rows[1..], start, n);
      assert Tails(rows, start, ws)[1..] == Tails(rows[1..], start, ws);
      ProjectionDot(rows[1..], weights[1..], start, ws);
      var first := ProjectedRow(rows[0], start, n);
      DotAdd(Scale(weights[0], first), Projection(rows[1..], weights[1..], start, n), ws);
      DotScale(weights[0], first, ws);
      ProjectedRowDot(rows[0], start, ws);
    }
  }

  /** A row applied to `[u] + w` is its public column times `u` plus its tail. */
  lemma {:induction false} RowSplits(row: SparseRow, u: int, w: seq<int>)
    requires ColumnsBelow(row, |w| + 1)
    ensures SparseDot(row, ZVector(u, w)) == Column(row, 0) * u + Tail(row, 1, w)
  {
    if row != [] {
      RowSplits(row[1..], u, w);
      var c, rest := row[0].1, Column(row[1..], 0);
      if row[0].0 == 0 {
        assert (c + rest) * u == c * u + rest * u;
      } else {
        assert (0 + rest) * u == rest * u;
      }
    }
  }

  /** `az - pub.a`: the weighted product minus the public contribution. */
  function Private(rows: seq<SparseRow>, weights: seq<int>, u: int, w: seq<int>): int
    requires |weights| == |rows| && RowsBelow(rows, |w| + 1)
  {
    Dot(weights, Product(rows, ZVector(u, w))) - Dot(weights, Columns(rows, 0)) * u
  }

  lemma {:induction false} PrivatePart(rows: seq<SparseRow>, weights: seq<int>, u: int, w: seq<int>)
    requires |weights| == |rows| && RowsBelow(rows, |w| + 1)
    ensures Private(rows, weights, u, w) == Dot(weights, Tails(rows, 1, w))
  {
    if rows != [] {
      PrivatePart(rows[1..], weights[1..], u, w);
      RowSplits(rows[0], u, w);
      assert Product(rows, ZVector(u, w))[1..] == Product(rows[1..], ZVector(u, w));
      assert Columns(rows, 0)[1..] == Columns(rows[1..], 0);
      assert Tails(rows, 1, w)[1..] == Tails(rows[1..], 1, w);
      PrivateAlgebra(weights[0], Column(rows[0], 0), u, Tail(rows[0], 1, w), Dot(weights[1..], Columns(rows[1..], 0)));
    } else {
      assert 0 * u == 0;
    }
  }

  lemma PrivateAlgebra(w: int, c: int, u: int, t: int, d: int)
    ensures w * (c * u + t) - (w * c + d) * u == w * t - d * u
  {
  }

  /** `matrix_column_eval(..) * scalar`. */
  method PublicContribution(rows: seq<SparseRow>, rowWeights: seq<int>, column: nat, scalar: int) returns (value: int)
    requires |rows| <= |rowWeights|
    ensures value == Dot(rowWeights[..|rows|], Columns(rows, column)) * scalar
  {
    var acc := 0;
    ghost var ws, cs := rowWeights[..|rows|], Columns(rows, column);
    for k := 0 to |rows|
      invariant acc == Dot(ws[..k], cs[..k])
    {
      DotSnoc(ws, cs, k);
      ghost var before := acc;
      for i := 0 to |rows[k]|
        invariant acc + rowWeights[k] * Column(rows[k][i..], column) == before + rowWeights[k] * Column(rows[k], column)
      {
        var (col, coeff) := rows[k][i];
        assert rows[k][i..][1..] == rows[k][i + 1..];
        ColumnStep(rowWeights[k], if col == column then coeff else 0, Column(rows[k][i + 1..], column));
        if col == column {
          acc := acc + rowWeights[k] * coeff;
        }
      }
      assert rows[k][|rows[k]|..] == [];
      assert rowWeights[k] * 0 == 0;
    }
    assert ws[..|rows|] == ws && cs[..|rows|] == cs;
    value := acc * scalar;
  }

  lemma ColumnStep(w: int, c: int, rest: int)
    ensures w * (c + rest) == w * c + w * rest && w * 0 == 0
  {
  }

  /** `matrix_bilinear_eval_columns`. */
  method BilinearEval(rows: seq<SparseRow>, rowWeights: seq<int>, columnWeights: seq<int>, start: nat)
    returns (acc: int)
    requires |rows| <= |rowWeights|
    ensures acc == Dot(rowWeights[..|rows|], Tails(rows, start, columnWeights))
  {
    acc := 0;
    ghost var ws, ts := rowWeights[..|rows|], Tails(rows, start, columnWeights);
    for k := 0 to |rows|
      invariant acc == Dot(ws[..k], ts[..k])
    {
      DotSnoc(ws, ts, k);
      ghost var before := acc;
      for i := 0 to |rows[k]|
        invariant acc + rowWeights[k] * Tail(rows[k][i..], start, columnWeights)
             == before + rowWeights[k] * Tail(rows[k], start, columnWeights)
      {
        var (col, coeff) := rows[k][i];
        assert rows[k][i..][1..] == rows[k][i + 1..];
        var inside := start <= col < start + |columnWeights|;
        ColumnStep(rowWeights[k], if inside then coeff * columnWeights[col - start] else 0,
                   Tail(rows[k][i + 1..], start, columnWeights));
        if inside {
          acc := acc + rowWeights[k] * columnWeights[col - start] * coeff;
          Reorder(rowWeights[k], columnWeights[col - start], coeff);
        }
      }
      assert rows[k][|rows[k]|..] == [];
      assert rowWeights[k] * 0 == 0;
    }
    assert ws[..|rows|] == ws && ts[..|rows|] == ts;
  }

  lemma Reorder(a: int, b: int, c: int)
    ensures a * b * c == a * (c * b)
  {
  }

  /** `project_matrix_columns`: accumulate a weighted matrix into the column
      form in place. A zero weight returns early, which changes nothing in the field. */
  method ProjectMatrixColumns(f: Field, projected: array<int>, rows: seq<SparseRow>, rowWeights: seq<int>, start: nat,
                              weight: int)
    requires IsField(f) && |rows| <= |rowWeights|
    modifies projected
    ensures SameVec(f, projected[..],
      VAdd(old(projected[..]), Scale(weight, Projection(rows, rowWeights[..|rows|], start, projected.Length))))
  {
    ghost var before, n := projected[..], projected.Length;
    ghost var ws, ps := rowWeights[..|rows|], ProjectedRows(rows, start, n);
    ghost var form := Projection(rows, ws, start, n);
    if Same(f, weight, 0) {
      ZeroWeight(f, before, weight, form);
      return;
    }
    assert ws[0..] == ws && ps[0..] == ps;
    for k := 0 to |rows|
      invariant VAdd(projected[..], Scale(weight, Combine(ws[k..], ps[k..], n))) == VAdd(before, Scale(weight, form))
    {
      ghost var middle := projected[..];
      assert ws[k..][1..] == ws[k + 1..] && ps[k..][1..] == ps[k + 1..];
      AddScaledRow(projected, rows[k], start, weight * rowWeights[k]);
      OneRowLess(middle, weight, ws[k], ps[k], Combine(ws[k + 1..], ps[k + 1..], n));
    }
    assert ws[|rows|..] == [] && ps[|rows|..] == [];
    NothingLeft(projected[..], weight);
  }

  lemma ZeroWeight(f: Field, v: seq<int>, weight: int, form: seq<int>)
    requires IsField(f) && Same(f, weight, 0) && |v| == |form|
    ensures SameVec(f, v, VAdd(v, Scale(weight, form)))
  {
    forall j | 0 <= j < |v| ensures Same(f, v[j], VAdd(v, Scale(weight, form))[j]) {
      ZeroTerm(f, v[j], weight, form[j]);
    }
  }

  lemma ZeroTerm(f: Field, x: int, weight: int, y: int)
    requires IsField(f) && Same(f, weight, 0)
    ensures Same(f, x, x + weight * y)
  {
    SameMul(f, weight, 0, y, y);
    SameAdd(f, x, x, weight * y, 0 * y);
    assert x + 0 * y == x;
  }

  /** Adding one scaled row takes it out of what is left to add. */
  lemma OneRowLess(v: seq<int>, weight: int, w: int, row: seq<int>, rest: seq<int>)
    requires |v| == |row| == |rest|
    ensures VAdd(VAdd(v, Scale(weight * w, row)), Scale(weight, rest))
         == VAdd(v, Scale(weight, VAdd(Scale(w, row), rest)))
  {
    forall j | 0 <= j < |v|
      ensures VAdd(VAdd(v, Scale(weight * w, row)), Scale(weight, rest))[j]
           == VAdd(v, Scale(weight, VAdd(Scale(w, row), rest)))[j]
    {
      ScaledStep(weight, w, row[j], rest[j]);
    }
  }

  lemma NothingLeft(v: seq<int>, weight: int)
    ensures VAdd(v, Scale(weight, Zeros(|v|))) == v
  {
    assert weight * 0 == 0;
  }

  lemma ScaledStep(weight: int, w: int, x: int, rest: int)
    ensures weight * (w * x + rest) == (weight * w) * x + weight * rest
  {
  }

  /** The entries of one row, added into the columns they name. */
  method AddScaledRow(projected: array<int>, row: SparseRow, start: nat, scaledWeight: int)
    modifies projected
    ensures projected[..] == VAdd(old(projected[..]), Scale(scaledWeight, ProjectedRow(row, start, projected.Length)))
  {
    ghost var before := projected[..];
    for i := 0 to |row|
      invariant forall j {:trigger projected[j]} :: 0 <= j < projected.Length ==>
        projected[j] + scaledWeight * Column(row[i..], start + j) == before[j] + scaledWeight * Column(row, start + j)
    {
      var (column, coefficient) := row[i];
      assert row[i..][1..] == row[i + 1..];
      ghost var middle := projected[..];
      if start <= column && column - start < projected.Length {
        projected[column - start] := projected[column - start] + scaledWeight * coefficient;
      }
      forall j | 0 <= j < projected.Length
        ensures projected[j] + scaledWeight * Column(row[i + 1..], start + j)
             == before[j] + scaledWeight * Column(row, start + j)
      {
        assert middle[j] + scaledWeight * Column(row[i..], start + j)
            == before[j] + scaledWeight * Column(row, start + j);
        ColumnStep(scaledWeight, if column == start + j then coefficient else 0, Column(row[i + 1..], start + j));
      }
    }
    forall j | 0 <= j < projected.Length
      ensures projected[j] == before[j] + scaledWeight * Column(row, start + j)
    {
      assert projected[j] + scaledWeight * Column(row[|row|..], start + j)
          == before[j] + scaledWeight * Column(row, start + j);
      assert row[|row|..] == [] && scaledWeight * 0 == 0;
    }
  }

  /** The column form of all three matrices, as exact integers. */
  function LinearForm(m: ConstraintMatrices, weights: seq<int>, n: nat, ra: int, rb: int, rc: int): (v: seq<int>)
    requires |m.a| == |m.b| == |m.c| == |weights|
    ensures |v| == n
  {
    VAdd(VAdd(VAdd(Zeros(n), Scale(ra, Projection(m.a, weights, 1, n))),
              Scale(rb, Projection(m.b, weights, 1, n))),
         Scale(rc, Projection(m.c, weights, 1, n)))
  }

  lemma LinearFormDot(m: ConstraintMatrices, weights: seq<int>, ws: seq<int>, ra: int, rb: int, rc: int)
    requires |m.a| == |m.b| == |m.c| == |weights|
    ensures Dot(LinearForm(m, weights, |ws|, ra, rb, rc), ws)
         == Weighted(ra, rb, rc, Dot(weights, Tails(m.a, 1, ws)), Dot(weights, Tails(m.b, 1, ws)),
                     Dot(weights, Tails(m.c, 1, ws)))
  {
    var n := |ws|;
    var pa, pb, pc := Projection(m.a, weights, 1, n), Projection(m.b, weights, 1, n), Projection(m.c, weights, 1, n);
    var first := VAdd(Zeros(n), Scale(ra, pa));
    var second := VAdd(first, Scale(rb, pb));
    DotZeros(Zeros(n), ws);
    DotAdd(Zeros(n), Scale(ra, pa), ws);
    DotAdd(first, Scale(rb, pb), ws);
    DotAdd(second, Scale(rc, pc), ws);
    DotScale(ra, pa, ws);
    DotScale(rb, pb, ws);
    DotScale(rc, pc, ws);
    ProjectionDot(m.a, weights, 1, ws);
    ProjectionDot(m.b, weights, 1, ws);
    ProjectionDot(m.c, weights, 1, ws);
  }

  /** `ra x + rb y + rc z`. */
  function Weighted(ra: int, rb: int, rc: int, x: int, y: int, z: int): int {
    ra * x + rb * y + rc * z
  }

  /** The inner claim is the column form against the witness, for any sparse
      rows, repeated columns and zero weights included. */
  lemma InnerClaim(m: ConstraintMatrices, weights: seq<int>, u: int, w: seq<int>, ra: int, rb: int, rc: int)
    requires ValidMatrices(m) && m.numVars <= |w| + 1 && |weights| == |m.a|
    ensures Weighted(ra, rb, rc, Private(m.a, weights, u, w), Private(m.b, weights, u, w), Private(m.c, weights, u, w))
         == Dot(LinearForm(m, weights, |w|, ra, rb, rc), w)
  {
    PrivatePart(m.a, weights, u, w);
    PrivatePart(m.b, weights, u, w);
    PrivatePart(m.c, weights, u, w);
    WeightedForms(m, weights, w, ra, rb, rc, Private(m.a, weights, u, w), Private(m.b, weights, u, w),
                  Private(m.c, weights, u, w));
  }

  lemma WeightedForms(m: ConstraintMatrices, weights: seq<int>, w: seq<int>, ra: int, rb: int, rc: int, x: int, y: int,
                      z: int)
    requires |m.a| == |m.b| == |m.c| == |weights|
    requires x == Dot(weights, Tails(m.a, 1, w)) && y == Dot(weights, Tails(m.b, 1, w))
    requires z == Dot(weights, Tails(m.c, 1, w))
    ensures Weighted(ra, rb, rc, x, y, z) == Dot(LinearForm(m, weights, |w|, ra, rb, rc), w)
  {
    LinearFormDot(m, weights, w, ra, rb, rc);
  }

  /** `linear_form_project_columns`. */
  method LinearFormProjectColumns(f: Field, m: ConstraintMatrices, rowWeights: seq<int>, n: nat, ra: int, rb: int,
                                  rc: int)
    returns (form: seq<int>)
    requires IsField(f) && |m.a| == |m.b| == |m.c| <= |rowWeights|
    ensures SameVec(f, form, LinearForm(m, rowWeights[..|m.a|], n, ra, rb, rc))
  {
    var projected := new int[n](_ => 0);
    ghost var ws := rowWeights[..|m.a|];
    ghost var pa, pb, pc := Scale(ra, Projection(m.a, ws, 1, n)), Scale(rb, Projection(m.b, ws, 1, n)),
                            Scale(rc, Projection(m.c, ws, 1, n));
    assert projected[..] == Zeros(n);
    ProjectMatrixColumns(f, projected, m.a, rowWeights, 1, ra);
    ghost var first := projected[..];
    ProjectMatrixColumns(f, projected, m.b, rowWeights, 1, rb);
    SameVAdd(f, first, VAdd(Zeros(n), pa), pb);
    SameVecTransitive(f, projected[..], VAdd(first, pb), VAdd(VAdd(Zeros(n), pa), pb));
    ghost var second := projected[..];
    ProjectMatrixColumns(f, projected, m.c, rowWeights, 1, rc);
    SameVAdd(f, second, VAdd(VAdd(Zeros(n), pa), pb), pc);
    SameVecTransitive(f, projected[..], VAdd(second, pc), VAdd(VAdd(VAdd(Zeros(n), pa), pb), pc));
    form := projected[..];
  }

  lemma SameVAdd(f: Field, x: seq<int>, y: seq<int>, z: seq<int>)
    requires IsField(f) && SameVec(f, x, y) && |x| == |z|
    ensures SameVec(f, VAdd(x, z), VAdd(y, z))
  {
    forall i | 0 <= i < |x| ensures Same(f, VAdd(x, z)[i], VAdd(y, z)[i]) {
      SameAdd(f, x[i], y[i], z[i], z[i]);
    }
  }

  lemma SameVecTransitive(f: Field, x: seq<int>, y: seq<int>, z: seq<int>)
    requires SameVec(f, x, y) && SameVec(f, y, z)
    ensures SameVec(f, x, z)
  {
    forall i | 0 <= i < |x| ensures Same(f, x[i], z[i]) {
      assert Same(f, x[i], y[i]) && Same(f, y[i], z[i]);
    }
  }
}
