/** The in-place builders of the eq table. Each one is proved to compute
    `Scaled(scale, r)`, the scaled table of `eq(r, .)`, whatever order it
    fills the buffer in. */
module EqTables {
  import opened Fields
  import opened IntDivision
  import opened Vectors
  import opened Multilinear

  function Scaled(scale: int, r: seq<int>): (t: seq<int>)
    ensures |t| == Pow2(|r|)
  {
    Scale(scale, EqTable(r))
  }

  /** The table with one more variable at the low end, entry pair by entry pair. */
  function Interleaved(t: seq<int>, x: int): (d: seq<int>)
    ensures |d| == 2 * |t|
    ensures forall k {:trigger d[k]} :: 0 <= k < |d| ==> d[k] == if k % 2 == 0 then t[k / 2] * (1 - x) else t[k / 2] * x
  {
    seq(2 * |t|, k requires 0 <= k < 2 * |t| => if k % 2 == 0 then t[k / 2] * (1 - x) else t[k / 2] * x)
  }

  lemma {:induction false} EqTableSnoc(r: seq<int>, x: int)
    ensures EqTable(r + [x]) == Interleaved(EqTable(r), x)
    decreases |r|
  {
    if r == [] {
      assert r + [x] == [x] && [x][1..] == [];
      assert EqTable([x]) == Scale(1 - x, [1]) + Scale(x, [1]);
    } else {
      var t := EqTable(r[1..]);
      var d := Interleaved(t, x);
      EqTableSnoc(r[1..], x);
      assert (r + [x])[1..] == r[1..] + [x];
      assert EqTable(r + [x]) == Scale(1 - r[0], d) + Scale(r[0], d);
      ScaleInterleaved(1 - r[0], t, x);
      ScaleInterleaved(r[0], t, x);
      InterleavedConcat(Scale(1 - r[0], t), Scale(r[0], t), x);
    }
  }

  lemma ScaleInterleaved(c: int, t: seq<int>, x: int)
    ensures Scale(c, Interleaved(t, x)) == Interleaved(Scale(c, t), x)
  {
    forall k | 0 <= k < 2 * |t| ensures Scale(c, Interleaved(t, x))[k] == Interleaved(Scale(c, t), x)[k] {
      Regroup(c, t[k / 2], x);
      Regroup(c, t[k / 2], 1 - x);
    }
  }

  lemma Regroup(c: int, t: int, x: int)
    ensures c * (t * x) == (c * t) * x
  {
  }

  lemma InterleavedConcat(a: seq<int>, b: seq<int>, x: int)
    ensures Interleaved(a + b, x) == Interleaved(a, x) + Interleaved(b, x)
  {
  }

  lemma ScaledSnoc(scale: int, r: seq<int>, i: nat)
    requires i < |r|
    ensures Scaled(scale, r[..i + 1]) == Interleaved(Scaled(scale, r[..i]), r[i])
  {
    assert r[..i + 1] == r[..i] + [r[i]];
    EqTableSnoc(r[..i], r[i]);
    ScaleInterleaved(scale, EqTable(r[..i]), r[i]);
  }

  /** `EqPolynomial::evaluations`: the table doubles, filled from the back. */
  method Evaluations(point: seq<int>) returns (table: seq<int>)
    ensures table == EqTable(point)
  {
    table := [1];
    for i := 0 to |point|
      invariant table == EqTable(point[..i])
    {
      assert point[..i + 1] == point[..i] + [point[i]];
      EqTableSnoc(point[..i], point[i]);
      table := Doubled(table, point[i]);
    }
    assert point[..|point|] == point;
  }

  /** One doubling: every entry makes a pair, the last entry first. */
  method Doubled(before: seq<int>, x: int) returns (table: seq<int>)
    ensures table == Interleaved(before, x)
  {
    var oneMinus, old_len := 1 - x, |before|;
    table := before + Zeros(old_len);
    for j := old_len downto 0
      invariant |table| == 2 * old_len
      invariant forall k {:trigger table[k]} :: 0 <= k < j ==> table[k] == before[k]
      invariant forall k {:trigger table[k]} :: 2 * j <= k < 2 * old_len ==> table[k] == Interleaved(before, x)[k]
    {
      var base := table[j];
      table := table[2 * j := base * oneMinus];
      table := table[2 * j + 1 := base * x];
    }
    assert table == Interleaved(before, x);
  }

  /** `evals_serial`: one buffer of the final size, two entries per step from the back. */
  method EvalsSerial(r: seq<int>, scale: int) returns (result: seq<int>)
    ensures result == Scaled(scale, r)
  {
    hide Interleaved, EqTable;
    var evals := new int[Pow2(|r|)](_ => scale);
    var size := 1;
    ScaledNothing(scale);
    assert evals[..1] == [scale] && r[..0] == [];
    for j := 0 to |r|
      invariant size == Pow2(j) && size <= evals.Length
      invariant evals[..size] == Scaled(scale, r[..j])
    {
      PrefixFits(j + 1, |r|);
      ScaledSnoc(scale, r, j);
      size := 2 * size;
      DoubleInPlace(evals, size, r[j]);
    }
    assert r[..|r|] == r;
    result := evals[..];
  }

  lemma ScaledNothing(scale: int)
    ensures Scaled(scale, []) == [scale]
  {
  }

  lemma {:induction false} PrefixFits(j: nat, n: nat)
    requires j <= n
    ensures Pow2(j) <= Pow2(n)
    decreases n
  {
    if j < n {
      PrefixFits(j, n - 1);
    }
  }

  lemma InterleavedPair(before: seq<int>, x: int, i: nat)
    requires 2 <= i <= 2 * |before| && i % 2 == 0
    ensures Interleaved(before, x)[i - 1] == before[(i - 1) / 2] * x
    ensures Interleaved(before, x)[i - 2] == before[(i - 1) / 2] - before[(i - 1) / 2] * x
  {
  }

  /** The reversed step-by-two loop over `0..size`. */
  method DoubleInPlace(evals: array<int>, size: nat, x: int)
    requires size % 2 == 0 && size <= evals.Length
    modifies evals
    ensures evals[..size] == Interleaved(old(evals[..size / 2]), x)
  {
    hide Interleaved;
    ghost var before := evals[..size / 2];
    var i := size;
    while i > 0
      invariant i % 2 == 0 && 0 <= i <= size
      invariant forall k {:trigger evals[k]} :: 0 <= k < i / 2 ==> evals[k] == before[k]
      invariant forall k {:trigger evals[k]} :: i <= k < size ==> evals[k] == Interleaved(before, x)[k]
    {
      InterleavedPair(before, x, i);
      var scalar := evals[(i - 1) / 2];
      evals[i - 1] := scalar * x;
      evals[i - 2] := scalar - evals[i - 1];
      i := i - 2;
    }
  }

  /** `evals_cached`: the tables of every prefix. */
  method EvalsCached(r: seq<int>, scale: int) returns (tables: seq<seq<int>>)
    ensures |tables| == |r| + 1
    ensures forall j :: 0 <= j <= |r| ==> tables[j] == Scaled(scale, r[..j])
  {
    tables := [[scale]];
    assert tables[0] == Scaled(scale, r[..0]);
    for j := 0 to |r|
      invariant |tables| == j + 1
      invariant forall k :: 0 <= k <= j ==> tables[k] == Scaled(scale, r[..k])
    {
      var next := new int[2 * |tables[j]|](_ => scale);
      FillFromBack(tables[j], r[j], next);
      ScaledSnoc(scale, r, j);
      tables := tables + [next[..]];
    }
  }

  method FillFromBack(previous: seq<int>, x: int, next: array<int>)
    requires next.Length == 2 * |previous|
    modifies next
    ensures next[..] == Interleaved(previous, x)
  {
    hide Interleaved;
    var i := next.Length;
    while i > 0
      invariant i % 2 == 0 && 0 <= i <= next.Length
      invariant forall k {:trigger next[k]} :: i <= k < next.Length ==> next[k] == Interleaved(previous, x)[k]
    {
      InterleavedPair(previous, x, i);
      var scalar := previous[(i - 1) / 2];
      next[i - 1] := scalar * x;
      next[i - 2] := scalar - next[i - 1];
      i := i - 2;
    }
  }

  /** The table with one more variable at the high end. */
  function HighDoubled(t: seq<int>, x: int): (d: seq<int>)
    ensures |d| == 2 * |t|
  {
    var high := seq(|t|, k requires 0 <= k < |t| => t[k] * x);
    seq(|t|, k requires 0 <= k < |t| => t[k] - high[k]) + high
  }

  lemma ScaledCons(scale: int, r: seq<int>, i: nat)
    requires i < |r|
    ensures HighDoubled(Scaled(scale, r[i + 1..]), r[i]) == Scaled(scale, r[i..])
  {
    var t := EqTable(r[i + 1..]);
    assert r[i..][1..] == r[i + 1..];
    forall k | 0 <= k < |t|
      ensures scale * t[k] * r[i] == scale * (r[i] * t[k])
      ensures scale * t[k] - scale * t[k] * r[i] == scale * ((1 - r[i]) * t[k])
    {
      HighBit(scale, t[k], r[i]);
    }
  }

  lemma HighBit(scale: int, t: int, x: int)
    ensures scale * t * x == scale * (x * t) && scale * t - scale * t * x == scale * ((1 - x) * t)
  {
  }

  /** `evals_cached_rev`: the tables of every suffix, each doubled at the high end. */
  method EvalsCachedRev(r: seq<int>, scale: int) returns (tables: seq<seq<int>>)
    ensures |tables| == |r| + 1
    ensures forall j :: 0 <= j <= |r| ==> tables[j] == Scaled(scale, r[|r| - j..])
  {
    hide HighDoubled, Scaled;
    tables := [[scale]];
    ScaledNothing(scale);
    assert r[|r|..] == [];
    for j := 0 to |r|
      invariant |tables| == j + 1
      invariant forall k :: 0 <= k <= j ==> tables[k] == Scaled(scale, r[|r| - k..])
    {
      var size, x := |tables[j]|, r[|r| - 1 - j];
      var next := new int[2 * size](_ => scale);
      FillHigh(tables[j], x, next);
      ScaledCons(scale, r, |r| - 1 - j);
      tables := tables + [next[..]];
    }
  }

  method FillHigh(previous: seq<int>, x: int, next: array<int>)
    requires next.Length == 2 * |previous|
    modifies next
    ensures next[..] == HighDoubled(previous, x)
  {
    var size := |previous|;
    for i := 0 to size
      invariant forall k {:trigger next[k]} :: 0 <= k < i ==> next[k] == HighDoubled(previous, x)[k]
      invariant forall k {:trigger next[k]} :: size <= k < size + i ==> next[k] == HighDoubled(previous, x)[k]
    {
      var scalar := previous[i];
      next[i + size] := scalar * x;
      next[i] := scalar - next[i + size];
    }
  }

  /** `evals_parallel`, its serial body: two variables per pass from the low
      end of the point, then at most one left over. */
  method EvalsFourWay(r: seq<int>, scale: int) returns (result: seq<int>)
    ensures result == Scaled(scale, r)
  {
    hide HighDoubled, Scaled;
    var evals := new int[Pow2(|r|)](_ => 0);
    var size, i := 1, |r|;
    evals[0] := scale;
    ScaledNothing(scale);
    assert evals[..1] == [scale] && r[|r|..] == [];
    while i >= 2
      invariant 0 <= i <= |r| && size == Pow2(|r| - i)
      invariant size <= evals.Length && evals[..size] == Scaled(scale, r[i..])
    {
      PrefixFits(|r| - i + 2, |r|);
      ScaledCons(scale, r, i - 1);
      ScaledCons(scale, r, i - 2);
      FourWayStep(evals, size, r[i - 1], r[i - 2]);
      i, size := i - 2, size * 4;
    }
    if i == 1 {
      ScaledCons(scale, r, 0);
      HighStep(evals, size, r[0]);
      size := size * 2;
    }
    assert evals[..size] == evals[..];
    assert r[0..] == r;
    result := evals[..];
  }

  /** What one pass leaves in the four quarters for an old entry `x`. */
  ghost predicate FourWaySlot(x: int, lo: int, hi: int, q0: int, q1: int, q2: int, q3: int) {
    var withLo := x * lo;
    q2 == (x - withLo) * hi && q0 == x - withLo - q2 && q3 == withLo * hi && q1 == withLo - q3
  }

  ghost predicate FourWayTable(before: seq<int>, lo: int, hi: int, t: seq<int>) {
    && |t| == 4 * |before|
    && forall j {:trigger before[j]} :: 0 <= j < |before| ==>
         FourWaySlot(before[j], lo, hi, t[j], t[|before| + j], t[2 * |before| + j], t[3 * |before| + j])
  }

  /** Two doublings at the high end are one four-way pass. */
  lemma TwoDoublings(before: seq<int>, lo: int, hi: int)
    ensures FourWayTable(before, lo, hi, HighDoubled(HighDoubled(before, lo), hi))
  {
    var t := HighDoubled(HighDoubled(before, lo), hi);
    forall j | 0 <= j < |before|
      ensures FourWaySlot(before[j], lo, hi, t[j], t[|before| + j], t[2 * |before| + j], t[3 * |before| + j])
    {
    }
  }

  /** One pass over the four quarters. */
  method FourWayStep(evals: array<int>, size: nat, rLo: int, rHi: int)
    requires 4 * size <= evals.Length
    modifies evals
    ensures evals[..4 * size] == HighDoubled(HighDoubled(old(evals[..size]), rLo), rHi)
  {
    TwoDoublings(evals[..size], rLo, rHi);
    FourWayFill(evals, size, rLo, rHi, HighDoubled(HighDoubled(evals[..size], rLo), rHi));
  }

  /** The first `j` entries of each quarter are done, the others of the first as before. */
  ghost predicate FourWayDone(evals: seq<int>, before: seq<int>, target: seq<int>, j: nat) {
    var size := |before|;
    && j <= size && 4 * size == |target| <= |evals|
    && (forall k {:trigger evals[k]} :: j <= k < size ==> evals[k] == before[k])
    && (forall k {:trigger evals[k]} :: 0 <= k < j ==> evals[k] == target[k])
    && (forall k {:trigger evals[k]} :: size <= k < size + j ==> evals[k] == target[k])
    && (forall k {:trigger evals[k]} :: 2 * size <= k < 2 * size + j ==> evals[k] == target[k])
    && (forall k {:trigger evals[k]} :: 3 * size <= k < 3 * size + j ==> evals[k] == target[k])
  }

  /** The four writes of one entry. */
  function FourWrites(evals: seq<int>, size: nat, j: nat, lo: int, hi: int): (next: seq<int>)
    requires j < size && 4 * size <= |evals|
    ensures |next| == |evals|
  {
    var withLo := evals[j] * lo;
    var withoutLo := evals[j] - withLo;
    var q2, q3 := withoutLo * hi, withLo * hi;
    evals[2 * size + j := q2][j := withoutLo - q2][3 * size + j := q3][size + j := withLo - q3]
  }

  lemma FourWayNext(evals: seq<int>, before: seq<int>, target: seq<int>, j: nat, lo: int, hi: int)
    requires FourWayDone(evals, before, target, j) && j < |before| && FourWayTable(before, lo, hi, target)
    ensures FourWayDone(FourWrites(evals, |before|, j, lo, hi), before, target, j + 1)
  {
    var size := |before|;
    assert FourWaySlot(before[j], lo, hi, target[j], target[size + j], target[2 * size + j], target[3 * size + j]);
  }

  lemma FourWayEnds(evals: seq<int>, before: seq<int>, target: seq<int>)
    requires 4 * |before| == |target| <= |evals|
    ensures before == evals[..|before|] ==> FourWayDone(evals, before, target, 0)
    ensures FourWayDone(evals, before, target, |before|) ==> evals[..|target|] == target
  {
  }

  method FourWayEntry(evals: array<int>, size: nat, j: nat, rLo: int, rHi: int)
    requires j < size && 4 * size <= evals.Length
    modifies evals
    ensures evals[..] == FourWrites(old(evals[..]), size, j, rLo, rHi)
  {
    var x := evals[j];
    var withLo := x * rLo;
    var withoutLo := x - withLo;
    evals[2 * size + j] := withoutLo * rHi;
    evals[j] := withoutLo - evals[2 * size + j];
    evals[3 * size + j] := withLo * rHi;
    evals[size + j] := withLo - evals[3 * size + j];
  }

  method FourWayFill(evals: array<int>, size: nat, rLo: int, rHi: int, ghost target: seq<int>)
    requires |target| == 4 * size <= evals.Length && FourWayTable(evals[..size], rLo, rHi, target)
    modifies evals
    ensures evals[..4 * size] == target
  {
    hide FourWayDone, FourWayTable, FourWrites;
    ghost var before := evals[..size];
    FourWayEnds(evals[..], before, target);
    for j := 0 to size
      invariant FourWayDone(evals[..], before, target, j)
    {
      FourWayNext(evals[..], before, target, j, rLo, rHi);
      FourWayEntry(evals, size, j, rLo, rHi);
    }
    FourWayEnds(evals[..], before, target);
    assert evals[..][..4 * size] == evals[..4 * size];
  }

  /** The pass for a variable left over. */
  method HighStep(evals: array<int>, size: nat, x: int)
    requires 2 * size <= evals.Length
    modifies evals
    ensures evals[..2 * size] == HighDoubled(old(evals[..size]), x)
  {
    ghost var before := evals[..size];
    for k := 0 to size
      invariant forall j {:trigger evals[j]} :: k <= j < size ==> evals[j] == before[j]
      invariant forall j {:trigger evals[j]} :: 0 <= j < k ==> evals[j] == HighDoubled(before, x)[j]
      invariant forall j {:trigger evals[j]} :: size <= j < size + k ==> evals[j] == HighDoubled(before, x)[j]
    {
      evals[k + size] := evals[k] * x;
      evals[k] := evals[k] - evals[k + size];
    }
  }

  /** `EqPolynomial::evals`: the builder is chosen by the number of variables. */
  method Evals(r: seq<int>, scale: int) returns (result: seq<int>)
    ensures result == Scaled(scale, r)
  {
    if |r| <= 16 {
      result := EvalsSerial(r, scale);
    } else {
      result := EvalsFourWay(r, scale);
    }
  }
}
