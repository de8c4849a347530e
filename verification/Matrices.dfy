/** Matrices as sequences of rows, their flattening, and combinations of rows. */
module Matrices {
  import opened Fields
  import opened IntDivision
  import opened Vectors
  import opened Multilinear

  ghost predicate Uniform(rows: seq<seq<int>>, len: nat) {
    forall i :: 0 <= i < |rows| ==> |rows[i]| == len
  }

  function Flatten(rows: seq<seq<int>>): seq<int> {
    if rows == [] then [] else rows[0] + Flatten(rows[1..])
  }

  function At(xs: seq<int>, i: int): int {
    if 0 <= i < |xs| then xs[i] else 0
  }

  /** The row-major position of an entry. */
  function Cell(i: nat, len: nat, e: nat): nat {
    i * len + e
  }

  /** Row-major entries cut into `count` rows; entries past the end read as zero. */
  function Chunks(flat: seq<int>, len: nat, count: nat): (rows: seq<seq<int>>)
    ensures |rows| == count && Uniform(rows, len)
  {
    seq(count, i requires 0 <= i < count => seq(len, e requires 0 <= e < len => At(flat, Cell(i, len, e))))
  }

  /** The combination of the rows by weights. */
  function Combine(weights: seq<int>, rows: seq<seq<int>>, len: nat): (v: seq<int>)
    requires |weights| == |rows| && Uniform(rows, len)
    ensures |v| == len
  {
    if rows == [] then Zeros(len)
    else VAdd(Scale(weights[0], rows[0]), Combine(weights[1..], rows[1..], len))
  }

  lemma {:induction false} FlattenLength(rows: seq<seq<int>>, len: nat)
    requires Uniform(rows, len)
    ensures |Flatten(rows)| == |rows| * len
  {
    if rows != [] {
      FlattenLength(rows[1..], len);
      assert (|rows| - 1) * len + len == |rows| * len;
    }
  }

  lemma {:induction false} FlattenConcat(a: seq<seq<int>>, b: seq<seq<int>>)
    ensures Flatten(a + b) == Flatten(a) + Flatten(b)
  {
    if a == [] {
      assert a + b == b;
    } else {
      assert (a + b)[1..] == a[1..] + b;
      FlattenConcat(a[1..], b);
    }
  }

  lemma {:induction false} FlattenAt(rows: seq<seq<int>>, len: nat, i: nat, e: nat)
    requires Uniform(rows, len) && i < |rows| && e < len
    ensures i * len + e < |Flatten(rows)| && Flatten(rows)[i * len + e] == rows[i][e]
  {
    FlattenLength(rows[1..], len);
    if i > 0 {
      FlattenAt(rows[1..], len, i - 1, e);
      assert i * len + e == len + ((i - 1) * len + e);
    }
  }

  /** Cutting a flattened matrix gives its rows back. */
  lemma ChunksOfFlatten(rows: seq<seq<int>>, len: nat)
    requires Uniform(rows, len)
    ensures Chunks(Flatten(rows), len, |rows|) == rows
  {
    hide *;
    var c := Chunks(Flatten(rows), len, |rows|);
    forall i | 0 <= i < |rows| ensures c[i] == rows[i] {
      ChunkOfFlatten(rows, len, i, c[i], rows[i]);
    }
  }

  lemma ChunkAt(flat: seq<int>, len: nat, count: nat, i: nat, e: nat)
    requires i < count && e < len
    ensures |Chunks(flat, len, count)[i]| == len && Chunks(flat, len, count)[i][e] == At(flat, Cell(i, len, e))
  {
  }

  lemma FlattenCell(rows: seq<seq<int>>, len: nat, i: nat, e: nat)
    requires Uniform(rows, len) && i < |rows| && e < len
    ensures At(Flatten(rows), Cell(i, len, e)) == rows[i][e]
  {
    FlattenAt(rows, len, i, e);
  }

  lemma ChunkOfFlatten(rows: seq<seq<int>>, len: nat, i: nat, chunk: seq<int>, row: seq<int>)
    requires Uniform(rows, len) && i < |rows| && row == rows[i] && chunk == Chunks(Flatten(rows), len, |rows|)[i]
    ensures chunk == row
  {
    assert |chunk| == len && |row| == len;
    forall e | 0 <= e < len ensures chunk[e] == row[e] {
      hide *;
      ChunkAt(Flatten(rows), len, |rows|, i, e);
      FlattenCell(rows, len, i, e);
    }
  }

  /** Flattening what was cut gives the entries back, padded with zeros. */
  lemma FlattenOfChunks(flat: seq<int>, len: nat, count: nat)
    requires |flat| <= count * len
    ensures Flatten(Chunks(flat, len, count)) == flat + Zeros(count * len - |flat|)
  {
    var flattened, size := Flatten(Chunks(flat, len, count)), count * len;
    FlattenLength(Chunks(flat, len, count), len);
    forall k | 0 <= k < size ensures flattened[k] == At(flat, k) {
      ChunkEntry(flat, len, count, k);
    }
    hide Flatten, Chunks;
    assert flattened == flat + Zeros(size - |flat|);
  }

  lemma ChunkEntry(flat: seq<int>, len: nat, count: nat, k: nat)
    requires k < count * len
    ensures k < |Flatten(Chunks(flat, len, count))| && Flatten(Chunks(flat, len, count))[k] == At(flat, k)
  {
    MulZero(count, len);
    var i, e := k / len, k % len;
    assert k == i * len + e;
    MulMonotone(len, count, i);
    hide Flatten;
    FlattenAt(Chunks(flat, len, count), len, i, e);
    assert k == Cell(i, len, e);
  }

  lemma MulZero(count: nat, len: nat)
    requires 0 < count * len
    ensures 0 < len
  {
  }

  lemma {:induction false} CombineConcat(u: seq<int>, v: seq<int>, a: seq<seq<int>>, b: seq<seq<int>>, len: nat)
    requires |u| == |a| && |v| == |b| && Uniform(a, len) && Uniform(b, len)
    ensures Combine(u + v, a + b, len) == VAdd(Combine(u, a, len), Combine(v, b, len))
  {
    if a == [] {
      assert u + v == v && a + b == b;
    } else {
      assert (u + v)[1..] == u[1..] + v && (a + b)[1..] == a[1..] + b;
      CombineConcat(u[1..], v, a[1..], b, len);
    }
  }

  lemma {:induction false} CombineScale(c: int, w: seq<int>, rows: seq<seq<int>>, len: nat)
    requires |w| == |rows| && Uniform(rows, len)
    ensures Combine(Scale(c, w), rows, len) == Scale(c, Combine(w, rows, len))
  {
    var l, r := Combine(Scale(c, w), rows, len), Scale(c, Combine(w, rows, len));
    if rows == [] {
      assert c * 0 == 0;
    } else {
      var t := Combine(w[1..], rows[1..], len);
      assert Scale(c, w)[1..] == Scale(c, w[1..]);
      CombineScale(c, w[1..], rows[1..], len);
      forall k | 0 <= k < len ensures l[k] == r[k] {
        Spread(c, w[0], rows[0][k], t[k]);
      }
    }
  }

  lemma Spread(c: int, w: int, x: int, t: int)
    ensures (c * w) * x + c * t == c * (w * x + t)
  {
  }

  /** The rows combined by the row point, then evaluated at the entry point,
      are the matrix's extension at the joined point. */
  lemma {:induction false} MatrixMle(rows: seq<seq<int>>, rowPoint: seq<int>, entryPoint: seq<int>)
    requires |rows| == Pow2(|rowPoint|) && Uniform(rows, Pow2(|entryPoint|))
    ensures |Flatten(rows)| == Pow2(|rowPoint + entryPoint|)
    ensures Mle(Flatten(rows), rowPoint + entryPoint)
         == Mle(Combine(EqTable(rowPoint), rows, Pow2(|entryPoint|)), entryPoint)
    decreases |rowPoint|
  {
    var len := Pow2(|entryPoint|);
    FlattenLength(rows, len);
    Pow2Add(|rowPoint|, |entryPoint|);
    if rowPoint == [] {
      assert rowPoint + entryPoint == entryPoint;
      OneRow(rows, len);
    } else {
      var x, tail, h := rowPoint[0], rowPoint[1..], Pow2(|rowPoint| - 1);
      var a, b := rows[..h], rows[h..];
      MatrixMle(a, tail, entryPoint);
      MatrixMle(b, tail, entryPoint);
      MatrixStep(x, tail, entryPoint, a, b, len);
      assert rows == a + b && rowPoint == [x] + tail;
    }
  }

  lemma MatrixStep(x: int, tail: seq<int>, point: seq<int>, a: seq<seq<int>>, b: seq<seq<int>>, len: nat)
    requires |a| == |b| == Pow2(|tail|) && len == Pow2(|point|) && Uniform(a, len) && Uniform(b, len)
    requires |Flatten(a)| == |Flatten(b)| == Pow2(|tail + point|)
    requires Mle(Flatten(a), tail + point) == Mle(Combine(EqTable(tail), a, len), point)
    requires Mle(Flatten(b), tail + point) == Mle(Combine(EqTable(tail), b, len), point)
    ensures |Flatten(a + b)| == Pow2(|[x] + tail + point|)
    ensures Mle(Flatten(a + b), [x] + tail + point) == Mle(Combine(EqTable([x] + tail), a + b, len), point)
  {
    var p, r, e := [x] + tail + point, [x] + tail, EqTable(tail);
    assert p[1..] == tail + point && r[1..] == tail;
    FlattenConcat(a, b);
    MleOfHalves(Flatten(a), Flatten(b), p);
    EqTableCons(x, tail);
    hide *;
    CombineHalves(x, e, a, b, point);
  }

  lemma EqTableCons(x: int, tail: seq<int>)
    ensures EqTable([x] + tail) == Scale(1 - x, EqTable(tail)) + Scale(x, EqTable(tail))
  {
    assert ([x] + tail)[1..] == tail;
  }

  lemma OneRow(rows: seq<seq<int>>, len: nat)
    requires |rows| == 1 && Uniform(rows, len)
    ensures Flatten(rows) == rows[0] && Combine([1], rows, len) == rows[0]
  {
    assert rows[1..] == [] && [1][1..] == [];
  }

  /** Two halves of a matrix combined by the two halves of an eq table. */
  lemma CombineHalves(x: int, e: seq<int>, a: seq<seq<int>>, b: seq<seq<int>>, point: seq<int>)
    requires |e| == |a| == |b| && Uniform(a, Pow2(|point|)) && Uniform(b, Pow2(|point|))
    ensures var len := Pow2(|point|);
      Mle(Combine(Scale(1 - x, e) + Scale(x, e), a + b, len), point)
        == Interp(x, Mle(Combine(e, a, len), point), Mle(Combine(e, b, len), point))
  {
    var len := Pow2(|point|);
    var lo, hi := Combine(e, a, len), Combine(e, b, len);
    CombineConcat(Scale(1 - x, e), Scale(x, e), a, b, len);
    CombineScale(1 - x, e, a, len);
    CombineScale(x, e, b, len);
    MleAdd(Scale(1 - x, lo), Scale(x, hi), point);
    MleScale(1 - x, lo, point);
    MleScale(x, hi, point);
  }

  /** Weights that are a unit vector pick out one row. */
  lemma {:induction false} CombineAtVertex(rows: seq<seq<int>>, index: nat, n: nat, len: nat)
    requires |rows| == Pow2(n) && index < |rows| && Uniform(rows, len)
    ensures Combine(EqTable(Bits(index, n)), rows, len) == rows[index]
    decreases n
  {
    hide Bits, Combine, EqTable, Pow2;
    if n == 0 {
      VertexOfNothing();
      OneRow(rows, len);
      assert rows == [rows[0]];
    } else {
      var h := Pow2(n - 1);
      var low := if index < h then index else index - h;
      TopBitOf(index, n, low);
      var a, b := rows[..h], rows[h..];
      CombineAtVertex(if index < h then a else b, low, n - 1, len);
      VertexHalves(Bits(low, n - 1), a, b, len);
      assert rows == a + b;
    }
  }

  lemma VertexOfNothing()
    ensures EqTable(Bits(0, 0)) == [1] && Pow2(0) == 1
  {
  }

  lemma TopBitOf(index: nat, n: nat, low: nat)
    requires 0 < n && index < Pow2(n) && low == (if index < Pow2(n - 1) then index else index - Pow2(n - 1))
    ensures Pow2(n) == 2 * Pow2(n - 1) && low < Pow2(n - 1)
    ensures Bits(index, n) == [if index < Pow2(n - 1) then 0 else 1] + Bits(low, n - 1)
  {
  }

  /** A zero or a one in front picks one half of the rows. */
  lemma VertexHalves(point: seq<int>, a: seq<seq<int>>, b: seq<seq<int>>, len: nat)
    requires |a| == |b| == Pow2(|point|) && Uniform(a, len) && Uniform(b, len)
    ensures |EqTable([0] + point)| == |EqTable([1] + point)| == |a + b|
    ensures Combine(EqTable([0] + point), a + b, len) == Combine(EqTable(point), a, len)
    ensures Combine(EqTable([1] + point), a + b, len) == Combine(EqTable(point), b, len)
  {
    var e := EqTable(point);
    EqTableCons(0, point);
    EqTableCons(1, point);
    hide Combine, EqTable;
    CombineConcat(Scale(1, e), Scale(0, e), a, b, len);
    CombineConcat(Scale(0, e), Scale(1, e), a, b, len);
    CombineScale(1, e, a, len);
    CombineScale(0, e, b, len);
    CombineScale(0, e, a, len);
    CombineScale(1, e, b, len);
    UnitSum(Combine(e, a, len), Combine(e, b, len));
    UnitSum(Combine(e, b, len), Combine(e, a, len));
  }

  lemma UnitSum(a: seq<int>, b: seq<int>)
    requires |a| == |b|
    ensures VAdd(Scale(1, a), Scale(0, b)) == a == VAdd(Scale(0, b), Scale(1, a))
  {
  }
}
