/** The less-than polynomial: its table, its point formula, and the split form
    that stores three small tables in place of the full one. */
module LessThan {
  import opened IntDivision
  import opened Vectors
  import opened Multilinear
  import opened EqTables
  import opened EqPlusOne
  import opened EqBlocks

  /** One more variable in front: with a zero there, everything with a one is
      greater; with a one there, the rest decides. */
  function LtDoubled(t: seq<int>, x: int): (d: seq<int>)
    ensures |d| == 2 * |t|
  {
    LtLower(t, x) + Scale(x, t)
  }

  function LtLower(t: seq<int>, x: int): (d: seq<int>)
    ensures |d| == |t| && forall k {:trigger d[k]} :: 0 <= k < |d| ==> d[k] == (1 - x) * t[k] + x
  {
    seq(|t|, k requires 0 <= k < |t| => (1 - x) * t[k] + x)
  }

  /** The table of `LT(., r)`. */
  function LtTable(r: seq<int>): (t: seq<int>)
    ensures |t| == Pow2(|r|)
  {
    if r == [] then [0] else LtDoubled(LtTable(r[1..]), r[0])
  }

  /** The sum of the entries past `j`. */
  function SumAbove(t: seq<int>, j: nat): int
    requires j < |t|
  {
    Sum(t[j + 1..])
  }

  /** What the table is: entry `j` is the sum of eq over all greater indices. */
  lemma {:induction false} LtTableIs(r: seq<int>, j: nat)
    requires j < Pow2(|r|)
    ensures LtTable(r)[j] == SumAbove(EqTable(r), j)
  {
    hide *;
    if r == [] {
      LtOfNothing(r, j);
    } else {
      var x, e, t, h := r[0], EqTable(r[1..]), LtTable(r[1..]), Pow2(|r| - 1);
      EqTableStep(r);
      LtTableStep(r);
      SumOfEqTable(r[1..]);
      if j < h {
        LtTableIs(r[1..], j);
        LtEntry(t, x, j, j);
        AboveLow(x, e, j);
      } else {
        LtTableIs(r[1..], j - h);
        LtEntry(t, x, j - h, j);
        AboveHigh(x, e, j - h);
      }
    }
  }

  lemma LtOfNothing(r: seq<int>, j: nat)
    requires r == [] && j < Pow2(0)
    ensures LtTable(r)[j] == SumAbove(EqTable(r), j)
  {
    assert EqTable(r)[1..] == [];
  }

  lemma LtTableStep(r: seq<int>)
    requires r != []
    ensures LtTable(r) == LtDoubled(LtTable(r[1..]), r[0]) && Pow2(|r|) == 2 * Pow2(|r| - 1)
    ensures |LtTable(r[1..])| == Pow2(|r| - 1)
  {
  }

  lemma LtEntry(t: seq<int>, x: int, low: nat, j: nat)
    requires low < |t| && (j == low || j == |t| + low)
    ensures LtDoubled(t, x)[j] == if j == low then (1 - x) * t[low] + x else x * t[low]
  {
  }

  /** The entries past `j` of a doubled table that sums to one. */
  lemma AboveLow(x: int, e: seq<int>, j: nat)
    requires j < |e| && Sum(e) == 1
    ensures SumAbove(Scale(1 - x, e) + Scale(x, e), j) == (1 - x) * SumAbove(e, j) + x
  {
    hide Sum;
    var a, b := Scale(1 - x, e), Scale(x, e);
    SuffixOfHalves(a, b, j + 1);
    ScaleSuffix(1 - x, e, j + 1);
    SumConcat(a[j + 1..], b);
    SumScale(1 - x, e[j + 1..]);
    SumScale(x, e);
  }

  lemma AboveHigh(x: int, e: seq<int>, j: nat)
    requires j < |e|
    ensures SumAbove(Scale(1 - x, e) + Scale(x, e), |e| + j) == x * SumAbove(e, j)
  {
    hide Sum;
    SuffixOfHalves(Scale(1 - x, e), Scale(x, e), |e| + j + 1);
    ScaleSuffix(x, e, j + 1);
    SumScale(x, e[j + 1..]);
  }

  lemma SuffixOfHalves(a: seq<int>, b: seq<int>, k: nat)
    requires k <= |a + b|
    ensures (a + b)[k..] == if k <= |a| then a[k..] + b else b[k - |a|..]
  {
  }

  lemma ScaleSuffix(c: int, e: seq<int>, k: nat)
    requires k <= |e|
    ensures Scale(c, e)[k..] == Scale(c, e[k..])
  {
  }

  /** `lt_evals`: the table doubles in place, last variable first. */
  method LtEvals(r: seq<int>) returns (result: seq<int>)
    ensures result == LtTable(r)
  {
    var n := |r|;
    var evals := new int[Pow2(n)](_ => 0);
    var size := 1;
    assert evals[..1] == LtTable(r[n..]);
    for i := 0 to n
      invariant size == Pow2(i) && size <= evals.Length && evals[..size] == LtTable(r[n - i..])
    {
      PrefixFits(i + 1, n);
      assert r[n - i - 1..][1..] == r[n - i..];
      LtStep(evals, size, r[n - 1 - i]);
      size := 2 * size;
    }
    assert r[0..] == r;
    assert evals[..size] == evals[..];
    result := evals[..];
  }

  method LtStep(evals: array<int>, size: nat, x: int)
    requires 2 * size <= evals.Length
    modifies evals
    ensures evals[..2 * size] == LtDoubled(old(evals[..size]), x)
  {
    ghost var before := evals[..size];
    LtEnds(evals[..], before, x);
    for k := 0 to size
      invariant LtDone(evals[..], before, x, k)
    {
      LtNext(evals[..], before, x, k);
      ghost var next := LtWrites(evals[..], size, k, x);
      hide *;
      evals[k + size] := evals[k] * x;
      evals[k] := evals[k] + (x - evals[k + size]);
      assert evals[..] == next;
    }
    LtEnds(evals[..], before, x);
    assert evals[..][..2 * size] == evals[..2 * size];
  }

  /** The first `k` entries of each half are done. */
  ghost predicate LtDone(evals: seq<int>, before: seq<int>, x: int, k: nat) {
    var size, target := |before|, LtDoubled(before, x);
    && k <= size && 2 * size <= |evals|
    && (forall j {:trigger evals[j]} :: k <= j < size ==> evals[j] == before[j])
    && (forall j {:trigger evals[j]} :: 0 <= j < k ==> evals[j] == target[j])
    && (forall j {:trigger evals[j]} :: size <= j < size + k ==> evals[j] == target[j])
  }

  function LtWrites(evals: seq<int>, size: nat, k: nat, x: int): (next: seq<int>)
    requires k < size && 2 * size <= |evals|
  {
    var y := evals[k] * x;
    evals[k + size := y][k := evals[k] + (x - y)]
  }

  lemma LtNext(evals: seq<int>, before: seq<int>, x: int, k: nat)
    requires LtDone(evals, before, x, k) && k < |before|
    ensures LtDone(LtWrites(evals, |before|, k, x), before, x, k + 1)
  {
    LtEntry(before, x, k, k);
    LtEntry(before, x, k, |before| + k);
    assert (1 - x) * before[k] + x == before[k] + (x - before[k] * x);
  }

  lemma LtEnds(evals: seq<int>, before: seq<int>, x: int)
    requires 2 * |before| <= |evals|
    ensures before == evals[..|before|] ==> LtDone(evals, before, x, 0)
    ensures LtDone(evals, before, x, |before|) ==> evals[..2 * |before|] == LtDoubled(before, x)
  {
  }

  // The point formula.

  /** `LT(x, r)`, first variable first. */
  function LtAt(x: seq<int>, r: seq<int>): int
    requires |x| == |r|
  {
    if x == [] then 0 else (1 - x[0]) * r[0] + BothOrNeither(x[0], r[0]) * LtAt(x[1..], r[1..])
  }

  lemma {:induction false} LtAtIsMle(x: seq<int>, r: seq<int>)
    requires |x| == |r|
    ensures LtAt(x, r) == Mle(LtTable(r), x)
    decreases |x|
  {
    if x != [] {
      var t := LtTable(r[1..]);
      LtAtIsMle(x[1..], r[1..]);
      MleOfHalves(LtLower(t, r[0]), Scale(r[0], t), x);
      MleOfLower(t, r[0], x[1..]);
      MleScale(r[0], t, x[1..]);
      LtStepOf(x, r);
      hide *;
      LtPoint(x[0], r[0], Mle(t, x[1..]));
    }
  }

  lemma LtStepOf(x: seq<int>, r: seq<int>)
    requires |x| == |r| && x != []
    ensures LtAt(x, r) == (1 - x[0]) * r[0] + BothOrNeither(x[0], r[0]) * LtAt(x[1..], r[1..])
    ensures LtTable(r) == LtLower(LtTable(r[1..]), r[0]) + Scale(r[0], LtTable(r[1..]))
  {
  }

  lemma MleOfLower(t: seq<int>, c: int, y: seq<int>)
    requires |t| == Pow2(|y|)
    ensures Mle(LtLower(t, c), y) == (1 - c) * Mle(t, y) + c
  {
    var ones := Ones(|t|);
    assert LtLower(t, c) == VAdd(Scale(1 - c, t), Scale(c, ones));
    MleAdd(Scale(1 - c, t), Scale(c, ones), y);
    MleScale(1 - c, t, y);
    MleScale(c, ones, y);
    MleOnes(y);
  }

  function Ones(n: nat): (r: seq<int>)
    ensures |r| == n && forall i :: 0 <= i < n ==> r[i] == 1
  {
    seq(n, _ => 1)
  }

  lemma {:induction false} MleOnes(y: seq<int>)
    ensures Mle(Ones(Pow2(|y|)), y) == 1
    decreases |y|
  {
    if y != [] {
      var h := Pow2(|y| - 1);
      assert Ones(Pow2(|y|)) == Ones(h) + Ones(h);
      MleOfHalves(Ones(h), Ones(h), y);
      MleOnes(y[1..]);
    }
  }

  lemma LtPoint(x: int, r: int, m: int)
    ensures Interp(x, (1 - r) * m + r, r * m) == (1 - x) * r + BothOrNeither(x, r) * m
  {
    Spread(1 - x, (1 - r) * m, r);
    EqFactor(r, x, m);
  }

  /** `LtPolynomial::evaluate`: two accumulators, from the first variable. */
  method Evaluate(x: seq<int>, r: seq<int>) returns (lt: int)
    requires |x| == |r|
    ensures lt == LtAt(x, r)
  {
    hide LtAt, BothOrNeither;
    lt := 0;
    var eqPrefix := 1;
    assert x[0..] == x && r[0..] == r;
    for i := 0 to |x|
      invariant LtAt(x, r) == lt + eqPrefix * LtAt(x[i..], r[i..])
    {
      assert x[i..][1..] == x[i + 1..] && r[i..][1..] == r[i + 1..];
      LtStepOf(x[i..], r[i..]);
      PrefixMoves(lt, eqPrefix, x[i], r[i], LtAt(x[i..], r[i..]), LtAt(x[i + 1..], r[i + 1..]));
      lt := lt + (1 - x[i]) * r[i] * eqPrefix;
      eqPrefix := eqPrefix * (x[i] * r[i] + (1 - x[i]) * (1 - r[i]));
    }
    NothingLeft(x[|x|..], r[|x|..], eqPrefix);
  }

  lemma PrefixMoves(lt: int, e: int, x: int, r: int, all: int, rest: int)
    requires all == (1 - x) * r + BothOrNeither(x, r) * rest
    ensures lt + e * all == (lt + (1 - x) * r * e) + (e * (x * r + (1 - x) * (1 - r))) * rest
  {
    var b := BothOrNeither(x, r);
    Spread(e, (1 - x) * r, b * rest);
    EqTables.Regroup(e, b, rest);
    assert e * ((1 - x) * r) == (1 - x) * r * e;
  }

  lemma NothingLeft(x: seq<int>, r: seq<int>, e: int)
    requires x == [] && r == []
    ensures e * LtAt(x, r) == 0
  {
  }

  // The split form.

  function Affine(lo: seq<int>, a: int, b: int): (t: seq<int>)
    ensures |t| == |lo| && forall k {:trigger t[k]} :: 0 <= k < |t| ==> t[k] == a + b * lo[k]
  {
    seq(|lo|, k requires 0 <= k < |lo| => a + b * lo[k])
  }

  /** The table three small ones stand for: for every high index a copy of the
      low table, scaled by the eq entry and raised by the less-than entry. */
  function Split(hi: seq<int>, eq: seq<int>, lo: seq<int>): (t: seq<int>)
    requires |hi| == |eq|
    ensures |t| == Place(|hi|, |lo|)
  {
    if hi == [] then []
    else
      PlaceNext(|hi| - 1, |lo|);
      Affine(lo, hi[0], eq[0]) + Split(hi[1..], eq[1..], lo)
  }

  lemma {:induction false} SplitConcat(a: seq<int>, b: seq<int>, c: seq<int>, d: seq<int>, lo: seq<int>)
    requires |a| == |c| && |b| == |d|
    ensures Split(a + b, c + d, lo) == Split(a, c, lo) + Split(b, d, lo)
  {
    if a == [] {
      assert a + b == b && c + d == d;
    } else {
      assert (a + b)[1..] == a[1..] + b && (c + d)[1..] == c[1..] + d;
      SplitConcat(a[1..], b, c[1..], d, lo);
    }
  }

  /** Mapping every entry by `c x + d`. */
  function Moved(t: seq<int>, c: int, d: int): (m: seq<int>)
    ensures |m| == |t| && forall k {:trigger m[k]} :: 0 <= k < |m| ==> m[k] == c * t[k] + d
  {
    seq(|t|, k requires 0 <= k < |t| => c * t[k] + d)
  }

  lemma MovedConcat(a: seq<int>, b: seq<int>, c: int, d: int)
    ensures Moved(a + b, c, d) == Moved(a, c, d) + Moved(b, c, d)
  {
  }

  lemma MovedAffine(lo: seq<int>, a: int, b: int, c: int, d: int)
    ensures Moved(Affine(lo, a, b), c, d) == Affine(lo, c * a + d, c * b)
  {
    forall k | 0 <= k < |lo| ensures Moved(Affine(lo, a, b), c, d)[k] == Affine(lo, c * a + d, c * b)[k] {
      Spread(c, a, b * lo[k]);
      EqTables.Regroup(c, b, lo[k]);
    }
  }

  lemma {:induction false} MovedSplit(hi: seq<int>, eq: seq<int>, lo: seq<int>, c: int, d: int)
    requires |hi| == |eq|
    ensures Moved(Split(hi, eq, lo), c, d) == Split(Moved(hi, c, d), Scale(c, eq), lo)
  {
    if hi != [] {
      MovedSplit(hi[1..], eq[1..], lo, c, d);
      assert Moved(hi, c, d)[1..] == Moved(hi[1..], c, d) && Scale(c, eq)[1..] == Scale(c, eq[1..]);
      MovedConcat(Affine(lo, hi[0], eq[0]), Split(hi[1..], eq[1..], lo), c, d);
      MovedAffine(lo, hi[0], eq[0], c, d);
    }
  }

  lemma LtDoubledIsMoved(t: seq<int>, x: int)
    ensures LtDoubled(t, x) == Moved(t, 1 - x, x) + Moved(t, x, 0)
  {
  }

  /** The full table is the split of the tables of the two halves of the point. */
  lemma {:induction false} LtTableSplits(hi: seq<int>, lo: seq<int>)
    ensures LtTable(hi + lo) == Split(LtTable(hi), EqTable(hi), LtTable(lo))
  {
    hide *;
    var low := LtTable(lo);
    if hi == [] {
      SplitOfNothing(lo);
      assert hi + lo == lo;
    } else {
      var x, t, e := hi[0], LtTable(hi[1..]), EqTable(hi[1..]);
      assert (hi + lo)[1..] == hi[1..] + lo && (hi + lo)[0] == x;
      LtTableSplits(hi[1..], lo);
      LtTableStep(hi + lo);
      LtTableStep(hi);
      EqTableStep(hi);
      LtDoubledIsMoved(Split(t, e, low), x);
      LtDoubledIsMoved(t, x);
      MovedSplit(t, e, low, 1 - x, x);
      MovedSplit(t, e, low, x, 0);
      SplitConcat(Moved(t, 1 - x, x), Moved(t, x, 0), Scale(1 - x, e), Scale(x, e), low);
    }
  }

  lemma SplitOfNothing(lo: seq<int>)
    ensures LtTable([]) == [0] && EqTable([]) == [1] && Split([0], [1], LtTable(lo)) == LtTable(lo)
  {
    OneBlock(0, 1, LtTable(lo));
    assert Affine(LtTable(lo), 0, 1) == LtTable(lo);
  }

  // Binding.

  lemma AffineLerp(lo: seq<int>, a: int, b: int, a': int, b': int, s: int)
    ensures Lerp(Affine(lo, a, b), Affine(lo, a', b'), s) == Affine(lo, a + s * (a' - a), b + s * (b' - b))
  {
    forall k | 0 <= k < |lo|
      ensures Lerp(Affine(lo, a, b), Affine(lo, a', b'), s)[k] == Affine(lo, a + s * (a' - a), b + s * (b' - b))[k]
    {
      LerpOfAffine(a, b, a', b', s, lo[k]);
    }
  }

  lemma LerpOfAffine(a: int, b: int, a': int, b': int, s: int, x: int)
    ensures (a + b * x) + s * ((a' + b' * x) - (a + b * x)) == (a + s * (a' - a)) + (b + s * (b' - b)) * x
  {
    var d := b' - b;
    assert (a' + b' * x) - (a + b * x) == (a' - a) + d * x;
    Spread(s, a' - a, d * x);
    EqTables.Regroup(s, d, x);
    assert (b + s * d) * x == b * x + (s * d) * x;
  }

  lemma LerpConcat(a: seq<int>, b: seq<int>, c: seq<int>, d: seq<int>, s: int)
    requires |a| == |c| && |b| == |d|
    ensures Lerp(a + b, c + d, s) == Lerp(a, c, s) + Lerp(b, d, s)
  {
  }

  lemma {:induction false} SplitLerp(a: seq<int>, e: seq<int>, a': seq<int>, e': seq<int>, lo: seq<int>, s: int)
    requires |a| == |e| == |a'| == |e'|
    ensures Lerp(Split(a, e, lo), Split(a', e', lo), s) == Split(Lerp(a, a', s), Lerp(e, e', s), lo)
  {
    hide *;
    if a == [] {
      SplitNone(a, e, lo);
      SplitNone(a', e', lo);
      SplitNone(Lerp(a, a', s), Lerp(e, e', s), lo);
    } else {
      SplitLerp(a[1..], e[1..], a'[1..], e'[1..], lo, s);
      LerpTail(a, a', s);
      LerpTail(e, e', s);
      AffineLerp(lo, a[0], e[0], a'[0], e'[0], s);
      SplitStep(a, e, lo);
      SplitStep(a', e', lo);
      SplitStep(Lerp(a, a', s), Lerp(e, e', s), lo);
      LerpConcat(Affine(lo, a[0], e[0]), Split(a[1..], e[1..], lo), Affine(lo, a'[0], e'[0]),
                 Split(a'[1..], e'[1..], lo), s);
    }
  }

  lemma SplitNone(a: seq<int>, e: seq<int>, lo: seq<int>)
    requires |a| == |e| == 0
    ensures Split(a, e, lo) == []
  {
  }

  lemma SplitStep(a: seq<int>, e: seq<int>, lo: seq<int>)
    requires |a| == |e| && a != []
    ensures Split(a, e, lo) == Affine(lo, a[0], e[0]) + Split(a[1..], e[1..], lo)
    ensures |Split(a[1..], e[1..], lo)| == Place(|a| - 1, |lo|)
  {
  }

  lemma LerpTail(a: seq<int>, b: seq<int>, s: int)
    requires |a| == |b| && a != []
    ensures Lerp(a, b, s)[0] == a[0] + s * (b[0] - a[0]) && Lerp(a, b, s)[1..] == Lerp(a[1..], b[1..], s)
  {
  }

  lemma BindOfHalves(a: seq<int>, b: seq<int>, s: int)
    requires |a| == |b|
    ensures |a + b| % 2 == 0 && BindHigh(a + b, s) == Lerp(a, b, s)
  {
    assert (a + b)[..|a|] == a && (a + b)[|a|..] == b;
  }

  /** Binding a high variable binds the two high tables. */
  lemma BindSplitHigh(hi: seq<int>, eq: seq<int>, lo: seq<int>, s: int)
    requires |hi| == |eq| && |hi| % 2 == 0
    ensures |Split(hi, eq, lo)| % 2 == 0
    ensures BindHigh(Split(hi, eq, lo), s) == Split(BindHigh(hi, s), BindHigh(eq, s), lo)
  {
    var h := |hi| / 2;
    var a, b, c, d := hi[..h], hi[h..], eq[..h], eq[h..];
    assert hi == a + b && eq == c + d;
    SplitConcat(a, b, c, d, lo);
    hide Split;
    BindOfHalves(a, b, s);
    BindOfHalves(c, d, s);
    BindOfHalves(Split(a, c, lo), Split(b, d, lo), s);
    SplitLerp(a, c, b, d, lo, s);
  }

  lemma OneBlock(a: int, e: int, lo: seq<int>)
    ensures Split([a], [e], lo) == Affine(lo, a, e)
  {
    assert [a][1..] == [] && [e][1..] == [] && Split([], [], lo) == [];
  }

  /** With every high variable bound, binding a low one binds the low table. */
  lemma BindSplitLow(a: int, e: int, lo: seq<int>, s: int)
    requires |lo| % 2 == 0
    ensures BindHigh(Affine(lo, a, e), s) == Affine(BindHigh(lo, s), a, e)
  {
    var left, right := BindHigh(Affine(lo, a, e), s), Affine(BindHigh(lo, s), a, e);
    forall k | 0 <= k < |lo| / 2 ensures left[k] == right[k] {
      BoundEntry(Affine(lo, a, e), s, k);
      BoundEntry(lo, s, k);
      LowEntry(a, e, lo[k], lo[k + |lo| / 2], s);
    }
  }

  lemma BoundEntry(t: seq<int>, s: int, k: nat)
    requires |t| % 2 == 0 && k < |t| / 2
    ensures BindHigh(t, s)[k] == t[k] + s * (t[k + |t| / 2] - t[k])
  {
  }

  lemma LowEntry(a: int, e: int, x: int, y: int, s: int)
    ensures (a + e * x) + s * ((a + e * y) - (a + e * x)) == a + e * (x + s * (y - x))
  {
    assert (a + e * y) - (a + e * x) == e * (y - x);
    assert s * (e * (y - x)) == e * (s * (y - x));
    Spread(e, x, s * (y - x));
  }

  /** `get`: quotient and remainder pick the entry. */
  lemma {:induction false} SplitAt(hi: seq<int>, eq: seq<int>, lo: seq<int>, p: nat, q: nat)
    requires |hi| == |eq| && p < |hi| && q < |lo|
    ensures Place(p, |lo|) + q < |Split(hi, eq, lo)| && Split(hi, eq, lo)[Place(p, |lo|) + q] == hi[p] + eq[p] * lo[q]
  {
    if p > 0 {
      SplitAt(hi[1..], eq[1..], lo, p - 1, q);
      PlaceNext(p - 1, |lo|);
      PlaceNext(|hi| - 1, |lo|);
    }
  }

  /** `bind_in_place`: the first half takes the bound values, the rest is cut off. */
  method BindInPlace(v: seq<int>, challenge: int) returns (bound: seq<int>)
    requires |v| % 2 == 0
    ensures bound == BindHigh(v, challenge)
  {
    var half := |v| / 2;
    bound := v;
    for j := 0 to half
      invariant |bound| == |v|
      invariant forall k {:trigger bound[k]} :: j <= k < |v| ==> bound[k] == v[k]
      invariant forall k {:trigger bound[k]} :: 0 <= k < j ==> bound[k] == BindHigh(v, challenge)[k]
    {
      BoundEntry(v, challenge, j);
      var lo, hi := bound[j], bound[j + half];
      bound := bound[j := lo + challenge * (hi - lo)];
    }
    bound := bound[..half];
  }

  /** `LtPolynomial`. */
  class LtPolynomial {
    var ltLo: seq<int>
    var ltHi: seq<int>
    var eqHi: seq<int>
    var loVars: nat
    var hiVars: nat

    ghost predicate Valid()
      reads this
    {
      |ltLo| == Pow2(loVars) && |ltHi| == |eqHi| == Pow2(hiVars)
    }

    /** The full table this stands for. */
    ghost function Table(): (t: seq<int>)
      requires Valid()
      reads this
      ensures |t| == Pow2(hiVars + loVars)
    {
      Pow2Add(hiVars, loVars);
      Split(ltHi, eqHi, ltLo)
    }

    /** For an odd number of variables the high half has one more. */
    constructor (r: seq<int>)
      ensures Valid() && hiVars + loVars == |r| && Table() == LtTable(r)
    {
      var mid := |r| / 2;
      var rHi, rLo := r[..|r| - mid], r[|r| - mid..];
      var lo := LtEvals(rLo);
      var hi := LtEvals(rHi);
      var e := Evaluations(rHi);
      ltLo, ltHi, eqHi := lo, hi, e;
      loVars, hiVars := |rLo|, |rHi|;
      new;
      assert rHi + rLo == r;
      LtTableSplits(rHi, rLo);
    }

    /** `get`. */
    method Get(index: nat) returns (value: int)
      requires Valid() && index < Pow2(hiVars + loVars)
      ensures value == Table()[index]
    {
      var size := |ltLo|;
      Pow2Add(hiVars, loVars);
      EntryOf(index, size, |ltHi|);
      var p, q := index / size, index % size;
      SplitAt(ltHi, eqHi, ltLo, p, q);
      value := ltHi[p] + eqHi[p] * ltLo[q];
    }

    /** `sumcheck_eval_pair`. */
    method EvalPair(j: nat) returns (low: int, high: int)
      requires Valid() && 0 < hiVars + loVars && j < Pow2(hiVars + loVars) / 2
      ensures low == Table()[j] && high == Table()[j + Pow2(hiVars + loVars) / 2]
    {
      Pow2Add(hiVars, loVars);
      var half := (|ltHi| * |ltLo|) / 2;
      low := Get(j);
      high := Get(j + half);
    }

    /** `bind`: the high tables first, then the low one. */
    method Bind(challenge: int)
      requires Valid() && 0 < hiVars + loVars
      modifies this
      ensures Valid() && hiVars + loVars == old(hiVars + loVars) - 1
      ensures |old(Table())| % 2 == 0 && Table() == BindHigh(old(Table()), challenge)
    {
      if hiVars > 0 {
        BindSplitHigh(ltHi, eqHi, ltLo, challenge);
        var hi := BindInPlace(ltHi, challenge);
        var e := BindInPlace(eqHi, challenge);
        ltHi, eqHi, hiVars := hi, e, hiVars - 1;
      } else {
        OneEntry(ltHi);
        OneEntry(eqHi);
        BindSplitLow(ltHi[0], eqHi[0], ltLo, challenge);
        OneBlock(ltHi[0], eqHi[0], ltLo);
        OneBlock(ltHi[0], eqHi[0], BindHigh(ltLo, challenge));
        var lo := BindInPlace(ltLo, challenge);
        ltLo, loVars := lo, loVars - 1;
      }
    }

    /** Binding every variable leaves the value of the point formula. */
    method BindAll(challenges: seq<int>, ghost r: seq<int>)
      requires Valid() && hiVars + loVars == |challenges| == |r| && Table() == LtTable(r)
      modifies this
      ensures Valid() && hiVars + loVars == 0 && Table() == [LtAt(challenges, r)]
    {
      LtAtIsMle(challenges, r);
      assert challenges[0..] == challenges;
      for i := 0 to |challenges|
        invariant Valid() && hiVars + loVars == |challenges| - i
        invariant Mle(Table(), challenges[i..]) == LtAt(challenges, r)
      {
        assert [challenges[i]] + challenges[i + 1..] == challenges[i..];
        MleBindHigh(Table(), challenges[i], challenges[i + 1..]);
        Bind(challenges[i]);
      }
      OneEntry(Table());
    }
  }

  lemma OneEntry(t: seq<int>)
    requires |t| == 1
    ensures t == [t[0]]
  {
  }

  lemma EntryOf(index: nat, size: nat, count: nat)
    requires 0 < size && index < count * size
    ensures index / size < count && 0 <= index % size < size && Place(index / size, size) + index % size == index
  {
    var q := index / size;
    assert index == q * size + index % size;
    if count <= q {
      MulMonotone(size, count, q);
    }
  }
}
