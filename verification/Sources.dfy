/** Multilinear sources and the fold of their rows: dense tables, one-hot
    tables kept as one column per row, and lazy linear combinations. */
module Sources {
  import opened Results
  import opened IntDivision
  import opened Vectors
  import opened Multilinear
  import opened EqTables
  import opened Matrices
  import EqPlusOne

  // What folding is for.

  /** Rows folded by the eq weights of the row point and then dotted with those
      of the column point give the value at the joined point. */
  lemma FoldThenDot(table: seq<int>, rowPoint: seq<int>, columnPoint: seq<int>)
    requires |table| == Pow2(|rowPoint + columnPoint|)
    ensures Dot(Combine(EqTable(rowPoint), Chunks(table, Pow2(|columnPoint|), Pow2(|rowPoint|)), Pow2(|columnPoint|)),
                EqTable(columnPoint))
         == Mle(table, rowPoint + columnPoint)
  {
    var len, count := Pow2(|columnPoint|), Pow2(|rowPoint|);
    Pow2Add(|rowPoint|, |columnPoint|);
    hide *;
    FlattenOfChunks(table, len, count);
    assert table + Zeros(0) == table;
    MatrixMle(Chunks(table, len, count), rowPoint, columnPoint);
    DotIsMle(Combine(EqTable(rowPoint), Chunks(table, len, count), len), columnPoint);
  }

  /** `fold_rows`, row by row. */
  method FoldRows(rows: seq<seq<int>>, left: seq<int>, len: nat) returns (result: seq<int>)
    requires |left| == |rows| && Uniform(rows, len)
    ensures result == Combine(left, rows, len)
  {
    result := Zeros(len);
    NoneFolded(left, rows, len);
    for i := 0 to |rows|
      invariant |result| == len && result == Combine(left[..i], rows[..i], len)
    {
      OneMoreFolded(left, rows, len, i);
      result := AddScaled(result, left[i], rows[i]);
    }
    assert left[..|rows|] == left && rows[..|rows|] == rows;
  }

  /** `for (r, val) in result.zip(row) { r += l * val }`. */
  method AddScaled(base: seq<int>, l: int, row: seq<int>) returns (result: seq<int>)
    requires |base| == |row|
    ensures result == VAdd(base, Scale(l, row))
  {
    result := base;
    for k := 0 to |row|
      invariant |result| == |base|
      invariant forall j {:trigger result[j]} :: k <= j < |base| ==> result[j] == base[j]
      invariant forall j {:trigger result[j]} :: 0 <= j < k ==> result[j] == VAdd(base, Scale(l, row))[j]
    {
      result := result[k := result[k] + l * row[k]];
    }
  }

  lemma NoneFolded(left: seq<int>, rows: seq<seq<int>>, len: nat)
    requires |left| == |rows| && Uniform(rows, len)
    ensures Combine(left[..0], rows[..0], len) == Zeros(len)
  {
  }

  lemma OneMoreFolded(left: seq<int>, rows: seq<seq<int>>, len: nat, i: nat)
    requires |left| == |rows| && Uniform(rows, len) && i < |rows|
    ensures Combine(left[..i + 1], rows[..i + 1], len)
         == VAdd(Combine(left[..i], rows[..i], len), Scale(left[i], rows[i]))
  {
    assert left[..i + 1] == left[..i] + [left[i]] && rows[..i + 1] == rows[..i] + [rows[i]];
    CombineConcat(left[..i], [left[i]], rows[..i], [rows[i]], len);
    CombineOne(left[i], rows[i], len);
  }

  lemma CombineOne(c: int, row: seq<int>, len: nat)
    requires |row| == len
    ensures Combine([c], [row], len) == Scale(c, row)
  {
    assert [c][1..] == [] && [row][1..] == [];
    assert Combine([], [], len) == Zeros(len);
  }

  // One-hot tables.

  datatype IndexOrder = RowMajor | ColumnMajor

  /** One optional hot column per row. */
  datatype OneHot = OneHot(k: nat, indices: seq<Option<nat>>, order: IndexOrder)

  ghost predicate ValidHot(p: OneHot, n: nat) {
    && Cell(|p.indices|, p.k, 0) == Pow2(n)
    && forall row :: 0 <= row < |p.indices| && p.indices[row].Some? ==> p.indices[row].value < p.k
  }

  /** `flat_index`. */
  function FlatIndex(p: OneHot, row: nat, column: nat): nat {
    match p.order
    case RowMajor => Cell(row, p.k, column)
    case ColumnMajor => Cell(column, |p.indices|, row)
  }

  /** Two cells with one position are one cell. */
  lemma CellInjective(len: nat, i: nat, e: nat, i': nat, e': nat)
    requires e < len && e' < len && Cell(i, len, e) == Cell(i', len, e')
    ensures i == i' && e == e'
  {
    DivModUnique(Cell(i, len, e), len, i, e);
    DivModUnique(Cell(i', len, e'), len, i', e');
  }

  lemma CellBound(len: nat, count: nat, i: nat, e: nat)
    requires e < len && i < count
    ensures Cell(i, len, e) < Cell(count, len, 0)
  {
    MulMonotone(len, i + 1, count);
    assert (i + 1) * len == i * len + len;
  }

  lemma CellTurned(a: nat, b: nat)
    ensures Cell(a, b, 0) == Cell(b, a, 0)
  {
  }

  /** In both orders distinct hot entries have distinct places inside the table. */
  lemma FlatIndexInjective(p: OneHot, n: nat, row: nat, column: nat, row': nat, column': nat)
    requires ValidHot(p, n) && row < |p.indices| && row' < |p.indices| && column < p.k && column' < p.k
    ensures FlatIndex(p, row, column) < Pow2(n)
    ensures FlatIndex(p, row, column) == FlatIndex(p, row', column') ==> row == row' && column == column'
  {
    CellTurned(|p.indices|, p.k);
    match p.order
    case RowMajor =>
      CellBound(p.k, |p.indices|, row, column);
      if FlatIndex(p, row, column) == FlatIndex(p, row', column') {
        CellInjective(p.k, row, column, row', column');
      }
    case ColumnMajor =>
      CellBound(|p.indices|, p.k, column, row);
      if FlatIndex(p, row, column) == FlatIndex(p, row', column') {
        CellInjective(|p.indices|, column, row, column', row');
      }
  }

  /** Row `row` is hot at place `j`. */
  predicate HotAt(p: OneHot, row: nat, j: nat)
    requires row < |p.indices|
  {
    p.indices[row].Some? && FlatIndex(p, row, p.indices[row].value) == j
  }

  predicate AnyHot(p: OneHot, m: nat, j: nat)
    requires m <= |p.indices|
  {
    exists row :: 0 <= row < m && HotAt(p, row, j)
  }

  /** The table with the entries of the first `m` rows. */
  function HotTable(p: OneHot, n: nat, m: nat): (t: seq<int>)
    requires m <= |p.indices|
    ensures |t| == Pow2(n)
  {
    seq(Pow2(n), j requires 0 <= j < Pow2(n) => if AnyHot(p, m, j) then 1 else 0)
  }

  /** One more hot entry. */
  function Bump(t: seq<int>, i: nat): (b: seq<int>)
    requires i < |t|
    ensures |b| == |t|
  {
    t[i := t[i] + 1]
  }

  lemma HotTableNext(p: OneHot, n: nat, m: nat)
    requires ValidHot(p, n) && m < |p.indices|
    ensures p.indices[m].None? ==> HotTable(p, n, m + 1) == HotTable(p, n, m)
    ensures p.indices[m].Some? ==> (
      var flat := FlatIndex(p, m, p.indices[m].value);
      flat < Pow2(n) && HotTable(p, n, m)[flat] == 0 && HotTable(p, n, m + 1) == Bump(HotTable(p, n, m), flat))
  {
    var before, after := HotTable(p, n, m), HotTable(p, n, m + 1);
    forall j | 0 <= j < Pow2(n) ensures AnyHot(p, m + 1, j) <==> AnyHot(p, m, j) || HotAt(p, m, j) {
    }
    if p.indices[m].Some? {
      var flat := FlatIndex(p, m, p.indices[m].value);
      FlatIndexInjective(p, n, m, p.indices[m].value, m, p.indices[m].value);
      if AnyHot(p, m, flat) {
        var row :| 0 <= row < m && HotAt(p, row, flat);
        FlatIndexInjective(p, n, row, p.indices[row].value, m, p.indices[m].value);
      }
      forall j | 0 <= j < Pow2(n) ensures after[j] == Bump(before, flat)[j] {
        assert HotAt(p, m, j) <==> j == flat;
      }
    }
  }

  lemma NothingHot(p: OneHot, n: nat)
    ensures HotTable(p, n, 0) == Zeros(Pow2(n))
  {
  }

  lemma {:induction false} DotBump(t: seq<int>, w: seq<int>, i: nat)
    requires |t| == |w| && i < |t|
    ensures Dot(Bump(t, i), w) == Dot(t, w) + w[i]
  {
    if i == 0 {
      assert Bump(t, 0)[1..] == t[1..];
      assert (t[0] + 1) * w[0] == t[0] * w[0] + w[0];
    } else {
      assert Bump(t, i)[1..] == Bump(t[1..], i - 1);
      DotBump(t[1..], w[1..], i - 1);
    }
  }

  /** `OneHotPolynomial::evaluate`: the eq entries of the hot places, summed. */
  method EvaluateHot(p: OneHot, point: seq<int>) returns (result: int)
    requires ValidHot(p, |point|)
    ensures result == Mle(HotTable(p, |point|, |p.indices|), point)
  {
    var n := |point|;
    var eq := Evaluations(point);
    result := 0;
    NothingHot(p, n);
    DotZeros(Zeros(Pow2(n)), eq);
    for m := 0 to |p.indices|
      invariant result == Dot(HotTable(p, n, m), eq)
    {
      HotTableNext(p, n, m);
      if p.indices[m].Some? {
        var flat := FlatIndex(p, m, p.indices[m].value);
        DotBump(HotTable(p, n, m), eq, flat);
        result := result + eq[flat];
      }
    }
    DotIsMle(HotTable(p, n, |p.indices|), point);
  }

  // What the two orders mean.

  /** The sum over the rows with a hot column of the row's eq weight times the column's. */
  function HotSum(p: OneHot, rowPoint: seq<int>, columnPoint: seq<int>, m: nat): int
    requires m <= |p.indices| == Pow2(|rowPoint|) && p.k == Pow2(|columnPoint|)
    requires forall row :: 0 <= row < |p.indices| && p.indices[row].Some? ==> p.indices[row].value < p.k
  {
    if m == 0 then 0
    else HotSum(p, rowPoint, columnPoint, m - 1)
         + if p.indices[m - 1].None? then 0 else EqTable(rowPoint)[m - 1] * EqTable(columnPoint)[p.indices[m - 1].value]
  }

  /** The table's variables: the row's come first in row-major order, the column's in column-major order. */
  function HotPoint(order: IndexOrder, rowPoint: seq<int>, columnPoint: seq<int>): (point: seq<int>)
    ensures |point| == |rowPoint| + |columnPoint|
  {
    match order
    case RowMajor => rowPoint + columnPoint
    case ColumnMajor => columnPoint + rowPoint
  }

  lemma EqEntry(a: seq<int>, b: seq<int>, i: nat, e: nat)
    requires i < Pow2(|a|) && e < Pow2(|b|)
    ensures Cell(i, Pow2(|b|), e) < Pow2(|a + b|)
    ensures EqTable(a + b)[Cell(i, Pow2(|b|), e)] == EqTable(a)[i] * EqTable(b)[e]
  {
    hide *;
    CellIsPlace(i, Pow2(|b|), e);
    Pow2Add(|a|, |b|);
    EqPlusOne.TensorFits(|a|, |b|, i, e);
    EqPlusOne.EqTensorAt(a + b, a, b, Pow2(|b|), i, e);
    EqTableAt(a + b, EqPlusOne.Place(i, Pow2(|b|)) + e);
    EqTableAt(a, i);
    EqTableAt(b, e);
  }

  lemma CellIsPlace(i: nat, len: nat, e: nat)
    ensures Cell(i, len, e) == EqPlusOne.Place(i, len) + e
  {
  }

  /** In either order the one-hot table's extension, its row and column
      variables in their places, weighs every hot entry by its row and its column. */
  lemma {:induction false} HotMeaning(p: OneHot, rowPoint: seq<int>, columnPoint: seq<int>, m: nat)
    requires ValidHot(p, |rowPoint| + |columnPoint|) && m <= |p.indices| == Pow2(|rowPoint|)
    requires p.k == Pow2(|columnPoint|)
    ensures var point := HotPoint(p.order, rowPoint, columnPoint);
      Mle(HotTable(p, |point|, m), point) == HotSum(p, rowPoint, columnPoint, m)
  {
    hide HotTable, EqTable, Dot, Mle, Pow2, Cell, Bump;
    var point := HotPoint(p.order, rowPoint, columnPoint);
    var n := |point|;
    DotIsMle(HotTable(p, n, m), point);
    if m == 0 {
      NothingHot(p, n);
      DotZeros(Zeros(Pow2(n)), EqTable(point));
    } else {
      HotMeaning(p, rowPoint, columnPoint, m - 1);
      DotIsMle(HotTable(p, n, m - 1), point);
      HotTableNext(p, n, m - 1);
      if p.indices[m - 1].Some? {
        var column := p.indices[m - 1].value;
        DotBump(HotTable(p, n, m - 1), EqTable(point), FlatIndex(p, m - 1, column));
        match p.order {
          case RowMajor => EqEntry(rowPoint, columnPoint, m - 1, column);
          case ColumnMajor => EqEntry(columnPoint, rowPoint, column, m - 1);
        }
      }
    }
  }

  // The sparse fold.

  lemma CellOf(index: nat, len: nat, count: nat)
    requires 0 < len && index < Cell(count, len, 0)
    ensures 0 <= index % len < len && 0 <= index / len < count && Cell(index / len, len, index % len) == index
  {
    var q := index / len;
    assert index == q * len + index % len;
    if count <= q {
      MulMonotone(len, count, q);
    }
  }

  /** One more hot entry changes one row of the matrix. */
  lemma ChunksBump(t: seq<int>, len: nat, count: nat, i: nat, e: nat)
    requires |t| == Cell(count, len, 0) && i < count && e < len
    ensures Cell(i, len, e) < |t|
    ensures Chunks(Bump(t, Cell(i, len, e)), len, count)
         == Chunks(t, len, count)[i := Bump(Chunks(t, len, count)[i], e)]
  {
    CellBound(len, count, i, e);
    var b := Bump(t, Cell(i, len, e));
    var left, right := Chunks(b, len, count), Chunks(t, len, count)[i := Bump(Chunks(t, len, count)[i], e)];
    forall p | 0 <= p < count ensures left[p] == right[p] {
      RowBump(t, len, count, i, e, p, left[p], right[p]);
    }
  }

  lemma RowBump(t: seq<int>, len: nat, count: nat, i: nat, e: nat, p: nat, left: seq<int>, right: seq<int>)
    requires |t| == Cell(count, len, 0) && i < count && e < len && p < count && Cell(i, len, e) < |t|
    requires left == Chunks(Bump(t, Cell(i, len, e)), len, count)[p]
    requires right == (if p == i then Bump(Chunks(t, len, count)[i], e) else Chunks(t, len, count)[p])
    ensures left == right
  {
    assert |left| == len && |right| == len;
    forall q | 0 <= q < len ensures left[q] == right[q] {
      ChunkAt(Bump(t, Cell(i, len, e)), len, count, p, q);
      ChunkAt(t, len, count, p, q);
      CellBound(len, count, p, q);
      if Cell(p, len, q) == Cell(i, len, e) {
        CellInjective(len, p, q, i, e);
      }
    }
  }

  /** and adds that row's weight to one entry of the fold. */
  lemma {:induction false} CombineBump(left: seq<int>, rows: seq<seq<int>>, len: nat, i: nat, e: nat)
    requires |left| == |rows| && Uniform(rows, len) && i < |rows| && e < len
    ensures Combine(left, rows[i := Bump(rows[i], e)], len) == AddAt(Combine(left, rows, len), e, left[i])
  {
    var bumped := rows[i := Bump(rows[i], e)];
    if i == 0 {
      assert bumped[1..] == rows[1..];
      ScaleBump(left[0], rows[0], e, Combine(left[1..], rows[1..], len));
    } else {
      assert bumped[1..] == rows[1..][i - 1 := Bump(rows[1..][i - 1], e)];
      CombineBump(left[1..], rows[1..], len, i - 1, e);
      AddAtOuter(Scale(left[0], rows[0]), Combine(left[1..], rows[1..], len), e, left[i]);
    }
  }

  function AddAt(t: seq<int>, e: nat, l: int): (a: seq<int>)
    requires e < |t|
    ensures |a| == |t|
  {
    t[e := t[e] + l]
  }

  lemma ScaleBump(c: int, row: seq<int>, e: nat, rest: seq<int>)
    requires |row| == |rest| && e < |row|
    ensures VAdd(Scale(c, Bump(row, e)), rest) == AddAt(VAdd(Scale(c, row), rest), e, c)
  {
    assert c * (row[e] + 1) == c * row[e] + c;
  }

  lemma AddAtOuter(a: seq<int>, b: seq<int>, e: nat, l: int)
    requires |a| == |b| && e < |a|
    ensures VAdd(a, AddAt(b, e, l)) == AddAt(VAdd(a, b), e, l)
  {
  }

  lemma {:induction false} CombineZeros(left: seq<int>, rows: seq<seq<int>>, len: nat)
    requires |left| == |rows| && Uniform(rows, len) && forall i :: 0 <= i < |rows| ==> rows[i] == Zeros(len)
    ensures Combine(left, rows, len) == Zeros(len)
  {
    if rows != [] {
      CombineZeros(left[1..], rows[1..], len);
      assert left[0] * 0 == 0;
    }
  }

  lemma ChunksOfZeros(n: nat, len: nat, count: nat)
    ensures forall i :: 0 <= i < count ==> Chunks(Zeros(n), len, count)[i] == Zeros(len)
  {
    var rows := Chunks(Zeros(n), len, count);
    forall i | 0 <= i < count ensures rows[i] == Zeros(len) {
      ZeroChunk(n, len, count, i, rows[i]);
    }
  }

  lemma ZeroChunk(n: nat, len: nat, count: nat, i: nat, row: seq<int>)
    requires i < count && row == Chunks(Zeros(n), len, count)[i]
    ensures row == Zeros(len)
  {
    assert |row| == len;
    forall e | 0 <= e < len ensures row[e] == 0 {
      ChunkAt(Zeros(n), len, count, i, e);
    }
  }

  /** The fold of a table's rows, `sigma` column variables. */
  function Fold(left: seq<int>, table: seq<int>, sigma: nat): (r: seq<int>)
    ensures |r| == Pow2(sigma)
  {
    Combine(left, Chunks(table, Pow2(sigma), |left|), Pow2(sigma))
  }

  lemma FoldNothing(left: seq<int>, n: nat, sigma: nat)
    ensures Fold(left, Zeros(n), sigma) == Zeros(Pow2(sigma))
  {
    ChunksOfZeros(n, Pow2(sigma), |left|);
    CombineZeros(left, Chunks(Zeros(n), Pow2(sigma), |left|), Pow2(sigma));
  }

  lemma FoldBump(left: seq<int>, t: seq<int>, sigma: nat, flat: nat)
    requires |t| == Cell(|left|, Pow2(sigma), 0) && flat < |t|
    ensures var len := Pow2(sigma);
      && 0 <= flat / len < |left| && 0 <= flat % len < len
      && Fold(left, Bump(t, flat), sigma) == AddAt(Fold(left, t, sigma), flat % len, left[flat / len])
  {
    var len := Pow2(sigma);
    CellOf(flat, len, |left|);
    ChunksBump(t, len, |left|, flat / len, flat % len);
    CombineBump(left, Chunks(t, len, |left|), len, flat / len, flat % len);
  }

  /** `OneHotPolynomial::fold_rows`: only the hot entries are visited. */
  method FoldHot(p: OneHot, n: nat, left: seq<int>, sigma: nat) returns (result: seq<int>)
    requires ValidHot(p, n) && Pow2(n) == Cell(|left|, Pow2(sigma), 0)
    ensures result == Fold(left, HotTable(p, n, |p.indices|), sigma)
  {
    var columns := Pow2(sigma);
    result := Zeros(columns);
    NothingHot(p, n);
    FoldNothing(left, Pow2(n), sigma);
    hide *;
    for m := 0 to |p.indices|
      invariant |result| == columns && result == Fold(left, HotTable(p, n, m), sigma)
    {
      HotTableNext(p, n, m);
      if p.indices[m].Some? {
        var flat := FlatIndex(p, m, p.indices[m].value);
        FoldBump(left, HotTable(p, n, m), sigma, flat);
        AddAtIs(result, flat % columns, left[flat / columns]);
        result := result[flat % columns := result[flat % columns] + left[flat / columns]];
      }
    }
  }

  lemma AddAtIs(t: seq<int>, e: nat, l: int)
    requires e < |t|
    ensures AddAt(t, e, l) == t[e := t[e] + l]
  {
  }

  // The row-by-row form of a one-hot table.

  /** The hot columns of each matrix row, from the first `m` rows of indices. */
  ghost predicate Bucketed(p: OneHot, m: nat, buckets: seq<seq<nat>>, len: nat)
    requires m <= |p.indices|
  {
    forall i, c :: 0 <= i < |buckets| && 0 <= c < len ==> (c in buckets[i] <==> AnyHot(p, m, Cell(i, len, c)))
  }

  ghost predicate ColumnsWithin(buckets: seq<seq<nat>>, len: nat) {
    forall i, k :: 0 <= i < |buckets| && 0 <= k < |buckets[i]| ==> buckets[i][k] < len
  }

  lemma BucketNext(p: OneHot, n: nat, m: nat, buckets: seq<seq<nat>>, len: nat, flat: nat)
    requires ValidHot(p, n) && m < |p.indices| && Bucketed(p, m, buckets, len) && ColumnsWithin(buckets, len)
    requires p.indices[m].Some? && flat == FlatIndex(p, m, p.indices[m].value) && 0 < len
    requires Pow2(n) == Cell(|buckets|, len, 0)
    ensures 0 <= flat / len < |buckets| && 0 <= flat % len
    ensures var next := buckets[flat / len := buckets[flat / len] + [flat % len]];
      Bucketed(p, m + 1, next, len) && ColumnsWithin(next, len)
  {
    FlatIndexInjective(p, n, m, p.indices[m].value, m, p.indices[m].value);
    CellOf(flat, len, |buckets|);
    var next := buckets[flat / len := buckets[flat / len] + [flat % len]];
    forall i, c | 0 <= i < |next| && 0 <= c < len ensures c in next[i] <==> AnyHot(p, m + 1, Cell(i, len, c)) {
      AnyHotNext(p, m, Cell(i, len, c));
      if Cell(i, len, c) == flat {
        CellInjective(len, i, c, flat / len, flat % len);
      }
    }
  }

  lemma AnyHotNext(p: OneHot, m: nat, j: nat)
    requires m < |p.indices|
    ensures AnyHot(p, m + 1, j) <==> AnyHot(p, m, j) || HotAt(p, m, j)
  {
  }

  lemma BucketSame(p: OneHot, m: nat, buckets: seq<seq<nat>>, len: nat)
    requires m < |p.indices| && p.indices[m].None? && Bucketed(p, m, buckets, len)
    ensures Bucketed(p, m + 1, buckets, len)
  {
    forall i, c | 0 <= i < |buckets| && 0 <= c < len ensures c in buckets[i] <==> AnyHot(p, m + 1, Cell(i, len, c)) {
      AnyHotNext(p, m, Cell(i, len, c));
    }
  }

  /** A buffer of zeros with ones written at the columns. */
  method OnesAt(columns: seq<nat>, len: nat) returns (row: seq<int>)
    requires forall k :: 0 <= k < |columns| ==> columns[k] < len
    ensures |row| == len && forall e :: 0 <= e < len ==> row[e] == if e in columns then 1 else 0
  {
    row := Zeros(len);
    for k := 0 to |columns|
      invariant |row| == len && forall e :: 0 <= e < len ==> row[e] == if e in columns[..k] then 1 else 0
    {
      assert columns[..k + 1] == columns[..k] + [columns[k]];
      row := row[columns[k] := 1];
    }
    assert columns[..|columns|] == columns;
  }

  /** `OneHotPolynomial::for_each_row`: the rows handed out, in order. */
  method HotRows(p: OneHot, n: nat, sigma: nat, count: nat) returns (rows: seq<seq<int>>)
    requires ValidHot(p, n) && Pow2(n) == Cell(count, Pow2(sigma), 0)
    ensures rows == Chunks(HotTable(p, n, |p.indices|), Pow2(sigma), count)
  {
    var len := Pow2(sigma);
    var buckets: seq<seq<nat>> := seq(count, _ => []);
    for m := 0 to |p.indices|
      invariant |buckets| == count && Bucketed(p, m, buckets, len) && ColumnsWithin(buckets, len)
    {
      if p.indices[m].Some? {
        var flat := FlatIndex(p, m, p.indices[m].value);
        BucketNext(p, n, m, buckets, len, flat);
        buckets := buckets[flat / len := buckets[flat / len] + [flat % len]];
      } else {
        BucketSame(p, m, buckets, len);
      }
    }
    rows := [];
    for i := 0 to count
      invariant |rows| == i && forall k :: 0 <= k < i ==> rows[k] == Chunks(HotTable(p, n, |p.indices|), len, count)[k]
    {
      var row := OnesAt(buckets[i], len);
      HotRowIs(p, n, buckets, len, count, i, row);
      rows := rows + [row];
    }
  }

  lemma HotRowIs(p: OneHot, n: nat, buckets: seq<seq<nat>>, len: nat, count: nat, i: nat, row: seq<int>)
    requires Bucketed(p, |p.indices|, buckets, len) && |buckets| == count && i < count && Pow2(n) == Cell(count, len, 0)
    requires |row| == len && forall e :: 0 <= e < len ==> row[e] == if e in buckets[i] then 1 else 0
    ensures row == Chunks(HotTable(p, n, |p.indices|), len, count)[i]
  {
    var table := HotTable(p, n, |p.indices|);
    var chunk := Chunks(table, len, count)[i];
    assert |chunk| == len;
    forall e | 0 <= e < len ensures row[e] == chunk[e] {
      ChunkAt(table, len, count, i, e);
      CellBound(len, count, i, e);
    }
  }

  /** The default fold, which goes through the rows, gives what the sparse one does. */
  method FoldHotByRows(p: OneHot, n: nat, left: seq<int>, sigma: nat) returns (result: seq<int>)
    requires ValidHot(p, n) && Pow2(n) == Cell(|left|, Pow2(sigma), 0)
    ensures result == Fold(left, HotTable(p, n, |p.indices|), sigma)
  {
    var rows := HotRows(p, n, sigma, |left|);
    result := FoldRows(rows, left, Pow2(sigma));
  }

  // Lazy combinations.

  datatype Source = Dense(table: seq<int>) | Hot(hot: OneHot)

  ghost predicate ValidSource(s: Source, n: nat) {
    match s
    case Dense(table) => |table| == Pow2(n)
    case Hot(hot) => ValidHot(hot, n)
  }

  function TableOf(s: Source, n: nat): (t: seq<int>)
    requires ValidSource(s, n)
    ensures |t| == Pow2(n)
  {
    match s
    case Dense(table) => table
    case Hot(hot) => HotTable(hot, n, |hot.indices|)
  }

  method EvaluateSource(s: Source, point: seq<int>) returns (value: int)
    requires ValidSource(s, |point|)
    ensures value == Mle(TableOf(s, |point|), point)
  {
    match s
    case Dense(table) =>
      var eq := Evaluations(point);
      value := InnerProduct(table, eq);
      DotIsMle(table, point);
    case Hot(hot) =>
      value := EvaluateHot(hot, point);
  }

  method FoldSource(s: Source, n: nat, left: seq<int>, sigma: nat) returns (result: seq<int>)
    requires ValidSource(s, n) && Pow2(n) == Cell(|left|, Pow2(sigma), 0)
    ensures result == Fold(left, TableOf(s, n), sigma)
  {
    match s
    case Dense(table) =>
      result := FoldRows(Chunks(table, Pow2(sigma), |left|), left, Pow2(sigma));
    case Hot(hot) =>
      result := FoldHot(hot, n, left, sigma);
  }

  /** The combined table, which is never built. */
  function RlcTable(sources: seq<Source>, scalars: seq<int>, n: nat, m: nat): (t: seq<int>)
    requires |sources| == |scalars| && m <= |sources| && forall i :: 0 <= i < |sources| ==> ValidSource(sources[i], n)
    ensures |t| == Pow2(n)
  {
    if m == 0 then Zeros(Pow2(n))
    else VAdd(RlcTable(sources, scalars, n, m - 1), Scale(scalars[m - 1], TableOf(sources[m - 1], n)))
  }

  /** `RlcSource::evaluate`. */
  method EvaluateRlc(sources: seq<Source>, scalars: seq<int>, point: seq<int>) returns (value: int)
    requires |sources| == |scalars| && forall i :: 0 <= i < |sources| ==> ValidSource(sources[i], |point|)
    ensures value == Mle(RlcTable(sources, scalars, |point|, |sources|), point)
  {
    value := 0;
    var n := |point|;
    DotIsMle(Zeros(Pow2(n)), point);
    DotZeros(Zeros(Pow2(n)), EqTable(point));
    for m := 0 to |sources|
      invariant value == Mle(RlcTable(sources, scalars, n, m), point)
    {
      var v := EvaluateSource(sources[m], point);
      MleAdd(RlcTable(sources, scalars, n, m), Scale(scalars[m], TableOf(sources[m], n)), point);
      MleScale(scalars[m], TableOf(sources[m], n), point);
      value := value + scalars[m] * v;
    }
  }

  lemma {:induction false} CombineLinear(w: seq<int>, a: seq<seq<int>>, b: seq<seq<int>>, ab: seq<seq<int>>, c: int,
                                         len: nat)
    requires |w| == |a| == |b| == |ab| && Uniform(a, len) && Uniform(b, len) && Uniform(ab, len)
    requires forall i :: 0 <= i < |a| ==> ab[i] == VAdd(a[i], Scale(c, b[i]))
    ensures Combine(w, ab, len) == VAdd(Combine(w, a, len), Scale(c, Combine(w, b, len)))
  {
    if w == [] {
      assert c * 0 == 0;
    } else {
      CombineLinear(w[1..], a[1..], b[1..], ab[1..], c, len);
      var x, y := Combine(w[1..], a[1..], len), Combine(w[1..], b[1..], len);
      forall e | 0 <= e < len
        ensures VAdd(Scale(w[0], ab[0]), VAdd(x, Scale(c, y)))[e]
             == VAdd(VAdd(Scale(w[0], a[0]), x), Scale(c, VAdd(Scale(w[0], b[0]), y)))[e]
      {
        LinearEntry(w[0], a[0][e], b[0][e], c, x[e], y[e]);
      }
    }
  }

  lemma LinearEntry(w: int, a: int, b: int, c: int, x: int, y: int)
    ensures w * (a + c * b) + (x + c * y) == (w * a + x) + c * (w * b + y)
  {
    assert w * (a + c * b) == w * a + w * (c * b) && w * (c * b) == c * (w * b);
    assert c * (w * b + y) == c * (w * b) + c * y;
  }

  /** Folding distributes over a combination. */
  lemma FoldLinear(left: seq<int>, a: seq<int>, b: seq<int>, c: int, sigma: nat)
    requires |a| == |b|
    ensures Fold(left, VAdd(a, Scale(c, b)), sigma) == VAdd(Fold(left, a, sigma), Scale(c, Fold(left, b, sigma)))
  {
    var len, count := Pow2(sigma), |left|;
    var ab := VAdd(a, Scale(c, b));
    var rows := Chunks(ab, len, count);
    forall i | 0 <= i < count ensures rows[i] == VAdd(Chunks(a, len, count)[i], Scale(c, Chunks(b, len, count)[i])) {
      ChunkLinear(a, b, c, len, count, i, rows[i]);
    }
    CombineLinear(left, Chunks(a, len, count), Chunks(b, len, count), rows, c, len);
  }

  lemma ChunkLinear(a: seq<int>, b: seq<int>, c: int, len: nat, count: nat, i: nat, row: seq<int>)
    requires |a| == |b| && i < count && row == Chunks(VAdd(a, Scale(c, b)), len, count)[i]
    ensures row == VAdd(Chunks(a, len, count)[i], Scale(c, Chunks(b, len, count)[i]))
  {
    var p, q := Chunks(a, len, count)[i], Chunks(b, len, count)[i];
    assert |row| == len && |p| == len && |q| == len && c * 0 == 0;
    forall e | 0 <= e < len ensures row[e] == p[e] + c * q[e] {
      ChunkAt(a, len, count, i, e);
      ChunkAt(b, len, count, i, e);
      ChunkAt(VAdd(a, Scale(c, b)), len, count, i, e);
    }
  }

  /** `RlcSource::fold_rows`: every source folds by itself. */
  method FoldRlc(sources: seq<Source>, scalars: seq<int>, n: nat, left: seq<int>, sigma: nat) returns (result: seq<int>)
    requires |sources| == |scalars| && forall i :: 0 <= i < |sources| ==> ValidSource(sources[i], n)
    requires Pow2(n) == Cell(|left|, Pow2(sigma), 0)
    ensures result == Fold(left, RlcTable(sources, scalars, n, |sources|), sigma)
  {
    result := Zeros(Pow2(sigma));
    FoldNothing(left, Pow2(n), sigma);
    for m := 0 to |sources|
      invariant result == Fold(left, RlcTable(sources, scalars, n, m), sigma)
    {
      var contribution := FoldSource(sources[m], n, left, sigma);
      FoldLinear(left, RlcTable(sources, scalars, n, m), TableOf(sources[m], n), scalars[m], sigma);
      result := AddScaled(result, scalars[m], contribution);
    }
  }
}
