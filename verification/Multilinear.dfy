/** Vectors of field elements and their inner product. */
module Vectors {
  import opened Fields

  function Pow2(n: nat): (r: nat)
    ensures 0 < r
  {
    if n == 0 then 1 else 2 * Pow2(n - 1)
  }

  lemma {:induction false} Pow2Add(m: nat, n: nat)
    ensures Pow2(m + n) == Pow2(m) * Pow2(n)
  {
    if m > 0 {
      Pow2Add(m - 1, n);
      assert 2 * Pow2(m - 1) * Pow2(n) == 2 * (Pow2(m - 1) * Pow2(n));
    }
  }

  function Zeros(n: nat): (r: seq<int>)
    ensures |r| == n && forall i :: 0 <= i < n ==> r[i] == 0
  {
    seq(n, _ => 0)
  }

  function Scale(c: int, xs: seq<int>): (r: seq<int>)
    ensures |r| == |xs| && forall i {:trigger r[i]} :: 0 <= i < |xs| ==> r[i] == c * xs[i]
  {
    seq(|xs|, i requires 0 <= i < |xs| => c * xs[i])
  }

  function VAdd(xs: seq<int>, ys: seq<int>): (r: seq<int>)
    requires |xs| == |ys|
    ensures |r| == |xs| && forall i {:trigger r[i]} :: 0 <= i < |xs| ==> r[i] == xs[i] + ys[i]
  {
    seq(|xs|, i requires 0 <= i < |xs| => xs[i] + ys[i])
  }

  /** `lo + s * (hi - lo)`, slot by slot. */
  function Lerp(lo: seq<int>, hi: seq<int>, s: int): (r: seq<int>)
    requires |lo| == |hi|
    ensures |r| == |lo| && forall i {:trigger r[i]} :: 0 <= i < |lo| ==> r[i] == lo[i] + s * (hi[i] - lo[i])
  {
    seq(|lo|, i requires 0 <= i < |lo| => lo[i] + s * (hi[i] - lo[i]))
  }

  function Sum(xs: seq<int>): int {
    if xs == [] then 0 else xs[0] + Sum(xs[1..])
  }

  function Dot(xs: seq<int>, ys: seq<int>): int
    requires |xs| == |ys|
  {
    if xs == [] then 0 else xs[0] * ys[0] + Dot(xs[1..], ys[1..])
  }

  lemma {:induction false} DotConcat(a: seq<int>, b: seq<int>, c: seq<int>, d: seq<int>)
    requires |a| == |c| && |b| == |d|
    ensures Dot(a + b, c + d) == Dot(a, c) + Dot(b, d)
  {
    if a == [] {
      assert a + b == b && c + d == d;
    } else {
      assert (a + b)[1..] == a[1..] + b && (c + d)[1..] == c[1..] + d;
      DotConcat(a[1..], b, c[1..], d);
    }
  }

  lemma {:induction false} DotScale(c: int, xs: seq<int>, ys: seq<int>)
    requires |xs| == |ys|
    ensures Dot(Scale(c, xs), ys) == c * Dot(xs, ys)
  {
    if xs != [] {
      assert Scale(c, xs)[1..] == Scale(c, xs[1..]);
      DotScale(c, xs[1..], ys[1..]);
      assert c * xs[0] * ys[0] + c * Dot(xs[1..], ys[1..]) == c * (xs[0] * ys[0] + Dot(xs[1..], ys[1..]));
    }
  }

  lemma {:induction false} DotAdd(xs: seq<int>, ys: seq<int>, zs: seq<int>)
    requires |xs| == |ys| == |zs|
    ensures Dot(VAdd(xs, ys), zs) == Dot(xs, zs) + Dot(ys, zs)
  {
    if xs != [] {
      assert VAdd(xs, ys)[1..] == VAdd(xs[1..], ys[1..]);
      DotAdd(xs[1..], ys[1..], zs[1..]);
    }
  }

  lemma {:induction false} DotSymmetric(xs: seq<int>, ys: seq<int>)
    requires |xs| == |ys|
    ensures Dot(xs, ys) == Dot(ys, xs)
  {
    if xs != [] {
      DotSymmetric(xs[1..], ys[1..]);
    }
  }

  lemma {:induction false} DotSame(f: Field, xs: seq<int>, ys: seq<int>, us: seq<int>, vs: seq<int>)
    requires IsField(f) && |xs| == |ys| && SameVec(f, xs, us) && SameVec(f, ys, vs)
    ensures Same(f, Dot(xs, ys), Dot(us, vs))
  {
    if xs != [] {
      DotSame(f, xs[1..], ys[1..], us[1..], vs[1..]);
      SameMul(f, xs[0], us[0], ys[0], vs[0]);
      SameAdd(f, xs[0] * ys[0], us[0] * vs[0], Dot(xs[1..], ys[1..]), Dot(us[1..], vs[1..]));
    }
  }

  lemma {:induction false} DotZeros(xs: seq<int>, ys: seq<int>)
    requires |xs| == |ys| && forall i :: 0 <= i < |xs| ==> xs[i] == 0
    ensures Dot(xs, ys) == 0
  {
    if xs != [] {
      DotZeros(xs[1..], ys[1..]);
    }
  }

  /** One more entry at the end of a running inner product. */
  lemma DotSnoc(xs: seq<int>, ys: seq<int>, i: nat)
    requires i < |xs| == |ys|
    ensures Dot(xs[..i + 1], ys[..i + 1]) == Dot(xs[..i], ys[..i]) + xs[i] * ys[i]
  {
    assert xs[..i + 1] == xs[..i] + [xs[i]] && ys[..i + 1] == ys[..i] + [ys[i]];
    DotConcat(xs[..i], [xs[i]], ys[..i], [ys[i]]);
  }

  /** The loop `for (l, r) in lhs.zip(rhs) { acc += l * r }`. */
  method InnerProduct(lhs: seq<int>, rhs: seq<int>) returns (acc: int)
    requires |lhs| == |rhs|
    ensures acc == Dot(lhs, rhs)
  {
    acc := 0;
    for i := 0 to |lhs|
      invariant acc == Dot(lhs[..i], rhs[..i])
    {
      DotSnoc(lhs, rhs, i);
      acc := acc + lhs[i] * rhs[i];
    }
    assert lhs[..|lhs|] == lhs && rhs[..|rhs|] == rhs;
  }
}

/** Multilinear extensions of tables over the Boolean hypercube; the first
    variable of a point is the most significant bit of a table index. */
module Multilinear {
  import opened Fields
  import opened IntDivision
  import opened Vectors

  /** `eq(r, index)`: the product over the variables of `r_k` where the index
      has a one and `1 - r_k` where it has a zero. */
  function EqAt(r: seq<int>, index: nat): int
    requires index < Pow2(|r|)
    decreases |r|
  {
    if r == [] then 1
    else
      var half := Pow2(|r| - 1);
      if index < half then (1 - r[0]) * EqAt(r[1..], index)
      else r[0] * EqAt(r[1..], index - half)
  }

  /** The table of `eq(r, .)`. */
  function EqTable(r: seq<int>): (t: seq<int>)
    ensures |t| == Pow2(|r|)
  {
    if r == [] then [1]
    else var t := EqTable(r[1..]); Scale(1 - r[0], t) + Scale(r[0], t)
  }

  lemma {:induction false} EqTableAt(r: seq<int>, index: nat)
    requires index < Pow2(|r|)
    ensures EqTable(r)[index] == EqAt(r, index)
  {
    if r != [] {
      var half := Pow2(|r| - 1);
      EqTableAt(r[1..], if index < half then index else index - half);
    }
  }

  lemma EqTableStep(r: seq<int>)
    requires r != []
    ensures EqTable(r) == Scale(1 - r[0], EqTable(r[1..])) + Scale(r[0], EqTable(r[1..]))
    ensures |EqTable(r[1..])| == Pow2(|r| - 1)
  {
  }

  /** `a` at 0 and `b` at 1. */
  function Interp(x: int, a: int, b: int): int {
    (1 - x) * a + x * b
  }

  /** The multilinear extension of `t` at `r`, first variable first. */
  function Mle(t: seq<int>, r: seq<int>): int
    requires |t| == Pow2(|r|)
    decreases |r|
  {
    if r == [] then t[0]
    else
      var half := Pow2(|r| - 1);
      Interp(r[0], Mle(t[..half], r[1..]), Mle(t[half..], r[1..]))
  }

  lemma MleStep(t: seq<int>, r: seq<int>)
    requires r != [] && |t| == Pow2(|r|)
    ensures var h := Pow2(|r| - 1); Mle(t, r) == Interp(r[0], Mle(t[..h], r[1..]), Mle(t[h..], r[1..]))
  {
  }

  /** The extension is the sum of the table against `eq(r, .)`. */
  lemma {:induction false} DotIsMle(t: seq<int>, r: seq<int>)
    requires |t| == Pow2(|r|)
    ensures Dot(t, EqTable(r)) == Mle(t, r)
    decreases |r|
  {
    if r == [] {
      assert t == [t[0]];
    } else {
      var half, e := Pow2(|r| - 1), EqTable(r[1..]);
      assert t == t[..half] + t[half..];
      DotConcat(t[..half], t[half..], Scale(1 - r[0], e), Scale(r[0], e));
      DotScaleRight(1 - r[0], t[..half], e);
      DotScaleRight(r[0], t[half..], e);
      DotIsMle(t[..half], r[1..]);
      DotIsMle(t[half..], r[1..]);
    }
  }

  lemma DotScaleRight(c: int, xs: seq<int>, ys: seq<int>)
    requires |xs| == |ys|
    ensures Dot(xs, Scale(c, ys)) == c * Dot(xs, ys)
  {
    DotSymmetric(xs, Scale(c, ys));
    DotScale(c, ys, xs);
    DotSymmetric(xs, ys);
  }

  function BindHigh(t: seq<int>, s: int): (b: seq<int>)
    requires |t| % 2 == 0
    ensures |b| == |t| / 2
  {
    Lerp(t[..|t| / 2], t[|t| / 2..], s)
  }

  function BindLow(t: seq<int>, s: int): (b: seq<int>)
    requires |t| % 2 == 0
    ensures |b| == |t| / 2
    ensures forall i {:trigger b[i]} :: 0 <= i < |b| ==> b[i] == t[2 * i] + s * (t[2 * i + 1] - t[2 * i])
  {
    seq(|t| / 2, i requires 0 <= i < |t| / 2 => t[2 * i] + s * (t[2 * i + 1] - t[2 * i]))
  }

  lemma {:induction false} MleLerp(lo: seq<int>, hi: seq<int>, s: int, r: seq<int>)
    requires |lo| == |hi| == Pow2(|r|)
    ensures Mle(Lerp(lo, hi, s), r) == Interp(s, Mle(lo, r), Mle(hi, r))
    decreases |r|
  {
    if r == [] {
      SlopeForm(s, lo[0], hi[0]);
    } else {
      var h := Pow2(|r| - 1);
      MleStep(lo, r);
      MleStep(hi, r);
      MleStep(Lerp(lo, hi, s), r);
      hide Mle, Interp;
      assert Lerp(lo, hi, s)[..h] == Lerp(lo[..h], hi[..h], s);
      assert Lerp(lo, hi, s)[h..] == Lerp(lo[h..], hi[h..], s);
      MleLerp(lo[..h], hi[..h], s, r[1..]);
      MleLerp(lo[h..], hi[h..], s, r[1..]);
      LerpExchange(r[0], s, Mle(lo[..h], r[1..]), Mle(lo[h..], r[1..]), Mle(hi[..h], r[1..]), Mle(hi[h..], r[1..]));
    }
  }

  lemma SlopeForm(x: int, a: int, b: int)
    ensures a + x * (b - a) == Interp(x, a, b)
  {
  }

  /** Interpolating in two directions, in either order. */
  lemma LerpExchange(x: int, s: int, a: int, b: int, c: int, d: int)
    ensures Interp(x, Interp(s, a, c), Interp(s, b, d)) == Interp(s, Interp(x, a, b), Interp(x, c, d))
  {
    Exchange(1 - x, 1 - s, a, s, c);
    Exchange(x, 1 - s, b, s, d);
    Spread(1 - s, (1 - x) * a, x * b);
    Spread(s, (1 - x) * c, x * d);
  }

  lemma Exchange(p: int, q: int, a: int, s: int, c: int)
    ensures p * (q * a + s * c) == q * (p * a) + s * (p * c)
  {
    assert p * (q * a) == q * (p * a) && p * (s * c) == s * (p * c);
    Spread(p, q * a, s * c);
  }

  lemma Spread(p: int, a: int, b: int)
    ensures p * (a + b) == p * a + p * b
  {
  }

  lemma MleCons(t: seq<int>, x: int, r: seq<int>)
    requires |t| == 2 * Pow2(|r|)
    ensures var h := Pow2(|r|); Mle(t, [x] + r) == Interp(x, Mle(t[..h], r), Mle(t[h..], r))
  {
    var point := [x] + r;
    assert point[1..] == r;
    MleStep(t, point);
  }

  /** A table given as its two halves. */
  lemma MleOfHalves(lo: seq<int>, hi: seq<int>, y: seq<int>)
    requires y != [] && |lo| == |hi| == Pow2(|y| - 1)
    ensures Mle(lo + hi, y) == Interp(y[0], Mle(lo, y[1..]), Mle(hi, y[1..]))
  {
    var t := lo + hi;
    assert t[..|lo|] == lo && t[|lo|..] == hi;
  }

  /** Binding the first variable fixes the first coordinate of the point. */
  lemma MleBindHigh(t: seq<int>, s: int, r: seq<int>)
    requires |t| == 2 * Pow2(|r|)
    ensures Mle(BindHigh(t, s), r) == Mle(t, [s] + r)
  {
    hide Mle, Interp;
    MleCons(t, s, r);
    MleLerp(t[..Pow2(|r|)], t[Pow2(|r|)..], s, r);
  }

  lemma EvenDouble(x: int)
    ensures (2 * x) % 2 == 0 && (2 * x) / 2 == x
  {
  }

  lemma BindLowHalves(t: seq<int>, s: int, h: nat)
    requires |t| == 4 * h
    ensures |t| % 2 == 0 && BindLow(t, s)[..h] == BindLow(t[..2 * h], s) && BindLow(t, s)[h..] == BindLow(t[2 * h..], s)
  {
  }

  /** Binding the last variable fixes the last coordinate of the point. */
  lemma {:induction false} MleBindLow(t: seq<int>, s: int, r: seq<int>)
    requires |t| == 2 * Pow2(|r|)
    ensures |t| % 2 == 0 && Mle(BindLow(t, s), r) == Mle(t, r + [s])
    decreases |r|
  {
    if r == [] {
      assert [] + [s] == [s] && [s][1..] == [];
      MleBindOne(t, s);
    } else {
      var k, tail := Pow2(|r| - 1), r[1..];
      assert r == [r[0]] + tail && r + [s] == [r[0]] + (tail + [s]);
      BindLowHalves(t, s, k);
      MleBindLow(t[..2 * k], s, tail);
      MleBindLow(t[2 * k..], s, tail);
      MleCons(BindLow(t, s), r[0], tail);
      MleCons(t, r[0], tail + [s]);
    }
  }

  lemma MleBindOne(t: seq<int>, s: int)
    requires |t| == 2
    ensures Mle(BindLow(t, s), []) == Mle(t, [s])
  {
    assert [s] == [s] + [];
    MleCons(t, s, []);
    SlopeForm(s, t[0], t[1]);
  }

  /** `EqPolynomial::mle`: the product form of eq at two points. */
  function EqMle(x: seq<int>, y: seq<int>): int
    requires |x| == |y|
  {
    if x == [] then 1
    else (x[0] * y[0] + (1 - x[0]) * (1 - y[0])) * EqMle(x[1..], y[1..])
  }

  /** The extension of the eq table is the product form. */
  lemma {:induction false} MleOfEqTable(x: seq<int>, y: seq<int>)
    requires |x| == |y|
    ensures Mle(EqTable(x), y) == EqMle(x, y)
    decreases |x|
  {
    if x != [] {
      var t := EqTable(x[1..]);
      var h := |t|;
      assert EqTable(x)[..h] == Scale(1 - x[0], t) && EqTable(x)[h..] == Scale(x[0], t);
      MleScale(1 - x[0], t, y[1..]);
      MleScale(x[0], t, y[1..]);
      MleOfEqTable(x[1..], y[1..]);
      EqFactor(x[0], y[0], EqMle(x[1..], y[1..]));
    }
  }

  lemma EqFactor(x: int, y: int, m: int)
    ensures (1 - y) * ((1 - x) * m) + y * (x * m) == (x * y + (1 - x) * (1 - y)) * m
  {
  }

  lemma MleScale(c: int, t: seq<int>, r: seq<int>)
    requires |t| == Pow2(|r|)
    ensures Mle(Scale(c, t), r) == c * Mle(t, r)
  {
    DotIsMle(Scale(c, t), r);
    DotScale(c, t, EqTable(r));
    DotIsMle(t, r);
  }

  lemma MleAdd(a: seq<int>, b: seq<int>, r: seq<int>)
    requires |a| == |b| == Pow2(|r|)
    ensures Mle(VAdd(a, b), r) == Mle(a, r) + Mle(b, r)
  {
    DotIsMle(VAdd(a, b), r);
    DotAdd(a, b, EqTable(r));
    DotIsMle(a, r);
    DotIsMle(b, r);
  }

  lemma MleSame(f: Field, a: seq<int>, b: seq<int>, r: seq<int>)
    requires IsField(f) && |a| == Pow2(|r|) && SameVec(f, a, b)
    ensures Same(f, Mle(a, r), Mle(b, r))
  {
    DotIsMle(a, r);
    DotIsMle(b, r);
    DotSame(f, a, EqTable(r), b, EqTable(r));
  }

  /** The bits of an index, most significant first. */
  function Bits(index: nat, n: nat): (p: seq<int>)
    requires index < Pow2(n)
    ensures |p| == n
  {
    if n == 0 then []
    else if index < Pow2(n - 1) then [0] + Bits(index, n - 1)
    else [1] + Bits(index - Pow2(n - 1), n - 1)
  }

  /** `boolean_point`: shift and mask, bit by bit. */
  function BooleanPoint(index: nat, n: nat): (p: seq<int>)
    ensures |p| == n
  {
    seq(n, k requires 0 <= k < n => BitOf(index, n - 1 - k))
  }

  /** `(index >> k) & 1`. */
  function BitOf(index: nat, k: nat): int {
    (index / Pow2(k)) % 2
  }

  lemma {:induction false} BooleanPointIsBits(index: nat, n: nat)
    requires index < Pow2(n)
    ensures BooleanPoint(index, n) == Bits(index, n)
  {
    if n > 0 {
      var half := Pow2(n - 1);
      var low := if index < half then index else index - half;
      BooleanPointIsBits(low, n - 1);
      TopBit(index, half, low);
      SameLowBits(index, low, n);
      BitsByTail(index, low, n);
    }
  }

  lemma SameLowBits(index: nat, low: nat, n: nat)
    requires 0 < n && (index == low || index == low + Pow2(n - 1))
    ensures forall j :: 0 <= j < n - 1 ==> BitOf(index, j) == BitOf(low, j)
  {
    forall j | 0 <= j < n - 1 ensures BitOf(index, j) == BitOf(low, j) {
      if index != low {
        LowBit(low, n - 1, n - 2 - j);
      }
    }
  }

  lemma TopBit(index: nat, half: nat, low: nat)
    requires 0 < half && low < half && (index == low || index == low + half)
    ensures (index / half) % 2 == if index == low then 0 else 1
  {
    DivModUnique(index, half, if index == low then 0 else 1, low);
  }

  lemma BitsByTail(index: nat, low: nat, n: nat)
    requires 0 < n && index < Pow2(n) && low == (if index < Pow2(n - 1) then index else index - Pow2(n - 1))
    requires BitOf(index, n - 1) == if index < Pow2(n - 1) then 0 else 1
    requires forall j :: 0 <= j < n - 1 ==> BitOf(index, j) == BitOf(low, j)
    requires BooleanPoint(low, n - 1) == Bits(low, n - 1)
    ensures BooleanPoint(index, n) == Bits(index, n)
  {
    hide BitOf;
    var p := BooleanPoint(index, n);
    forall k | 0 < k < n ensures p[k] == Bits(low, n - 1)[k - 1] {
      assert BooleanPoint(low, n - 1)[k - 1] == BitOf(low, n - 1 - k);
    }
  }

  /** A bit above position `n` does not change the bits below it. */
  lemma LowBit(low: nat, n: nat, k: nat)
    requires k < n
    ensures BitOf(low + Pow2(n), n - 1 - k) == BitOf(low, n - 1 - k)
  {
    var d, e := Pow2(n - 1 - k), Pow2(k);
    assert Pow2(k + 1) == 2 * e;
    Pow2Add(k + 1, n - 1 - k);
    ShiftedBit(low, e, d, low + Pow2(n));
  }

  lemma ShiftedBit(low: nat, e: nat, d: nat, shifted: nat)
    requires 0 < d && shifted == low + (2 * e) * d
    ensures (shifted / d) % 2 == (low / d) % 2
  {
    DivModShift(low, 2 * e, d);
    EvenShift(low / d, e);
  }

  lemma EvenShift(x: int, e: int)
    ensures (x + 2 * e) % 2 == x % 2
  {
  }

  /** At a vertex the extension reads the table. */
  lemma {:induction false} MleAtVertex(t: seq<int>, index: nat, n: nat)
    requires |t| == Pow2(n) && index < |t|
    ensures Mle(t, Bits(index, n)) == t[index]
    decreases n
  {
    if n > 0 {
      var half := Pow2(n - 1);
      if index < half {
        MleAtVertex(t[..half], index, n - 1);
      } else {
        MleAtVertex(t[half..], index - half, n - 1);
      }
    }
  }
}
