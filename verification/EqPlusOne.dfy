/** The successor polynomial: `eq+1(x, y)` is 1 when `y` is one more than `x`.
    Its table is the eq table moved up by one, with no wrap-around. */
module EqPlusOne {
  import opened Fields
  import opened Vectors
  import opened Multilinear
  import opened EqTables

  /** The table of `eq+1(r, .)`: entry `j` is `eq(r, j - 1)`, entry 0 is zero. */
  function NextTable(r: seq<int>): (t: seq<int>)
    ensures |t| == Pow2(|r|)
  {
    MovedUp(EqTable(r))
  }

  function MovedUp(t: seq<int>): (n: seq<int>)
    requires t != []
    ensures |n| == |t|
  {
    [0] + t[..|t| - 1]
  }

  /** The product of all coordinates: the last entry of the eq table. */
  function AllOnes(r: seq<int>): int {
    if r == [] then 1 else r[0] * AllOnes(r[1..])
  }

  lemma {:induction false} LastOfEqTable(r: seq<int>)
    ensures EqTable(r)[Pow2(|r|) - 1] == AllOnes(r)
  {
    if r != [] {
      LastOfEqTable(r[1..]);
    }
  }

  lemma {:induction false} AllOnesSnoc(r: seq<int>, x: int)
    ensures AllOnes(r + [x]) == AllOnes(r) * x
  {
    if r != [] {
      AllOnesSnoc(r[1..], x);
      assert (r + [x])[1..] == r[1..] + [x];
      Regroup(r[0], AllOnes(r[1..]), x);
    } else {
      assert [] + [x] == [x] && [x][1..] == [];
    }
  }

  // The point formula.

  /** `prod over i < k` of `x_i (1 - y_i)`, counting variables from the last. */
  function LowerBits(x: seq<int>, y: seq<int>, k: nat): int
    requires |x| == |y| && k <= |x|
  {
    if k == 0 then 1 else LowerBits(x, y, k - 1) * (x[|x| - k] * (1 - y[|x| - k]))
  }

  function BothOrNeither(x: int, y: int): int {
    x * y + (1 - x) * (1 - y)
  }

  /** `prod over i >= k` of the eq factor, counting variables from the last. */
  function HigherBits(x: seq<int>, y: seq<int>, k: nat): int
    requires |x| == |y| && k <= |x|
    decreases |x| - k
  {
    if k == |x| then 1 else BothOrNeither(x[|x| - 1 - k], y[|x| - 1 - k]) * HigherBits(x, y, k + 1)
  }

  function Term(x: seq<int>, y: seq<int>, k: nat): int
    requires |x| == |y| && k < |x|
  {
    LowerBits(x, y, k) * ((1 - x[|x| - 1 - k]) * y[|x| - 1 - k]) * HigherBits(x, y, k + 1)
  }

  function Terms(x: seq<int>, y: seq<int>, k: nat): int
    requires |x| == |y| && k <= |x|
  {
    if k == 0 then 0 else Terms(x, y, k - 1) + Term(x, y, k - 1)
  }

  /** `EqPlusOnePolynomial::evaluate`. */
  function Evaluate(x: seq<int>, y: seq<int>): int
    requires |x| == |y|
  {
    Terms(x, y, |x|)
  }

  lemma {:induction false} LowerBitsCons(x: seq<int>, y: seq<int>, k: nat)
    requires |x| == |y| && k < |x|
    ensures LowerBits(x, y, k) == LowerBits(x[1..], y[1..], k)
  {
    if k > 0 {
      LowerBitsCons(x, y, k - 1);
    }
  }

  lemma HigherBitsStep(x: seq<int>, y: seq<int>, k: nat)
    requires |x| == |y| && k < |x|
    ensures HigherBits(x, y, k) == BothOrNeither(x[|x| - 1 - k], y[|x| - 1 - k]) * HigherBits(x, y, k + 1)
  {
  }

  lemma Swap(c: int, d: int, h: int)
    ensures c * (d * h) == d * (c * h)
  {
  }

  lemma {:induction false} HigherBitsCons(x: seq<int>, y: seq<int>, k: nat)
    requires |x| == |y| && k < |x|
    ensures HigherBits(x, y, k) == BothOrNeither(x[0], y[0]) * HigherBits(x[1..], y[1..], k)
    decreases |x| - k
  {
    if k == |x| - 1 {
      assert HigherBits(x, y, k + 1) == 1;
    } else {
      HigherBitsCons(x, y, k + 1);
      HigherBitsStep(x, y, k);
      HigherBitsStep(x[1..], y[1..], k);
      hide *;
      Swap(BothOrNeither(x[|x| - 1 - k], y[|x| - 1 - k]), BothOrNeither(x[0], y[0]), HigherBits(x[1..], y[1..], k + 1));
    }
  }

  /** One more variable in front multiplies the earlier terms by its eq factor. */
  lemma {:induction false} TermsCons(x: seq<int>, y: seq<int>, k: nat)
    requires |x| == |y| && k < |x|
    ensures Terms(x, y, k) == BothOrNeither(x[0], y[0]) * Terms(x[1..], y[1..], k)
  {
    if k > 0 {
      TermsCons(x, y, k - 1);
      LowerBitsCons(x, y, k - 1);
      HigherBitsCons(x, y, k);
      var d := BothOrNeither(x[0], y[0]);
      var p := LowerBits(x, y, k - 1) * ((1 - x[|x| - k]) * y[|x| - k]);
      var h := HigherBits(x[1..], y[1..], k);
      assert Term(x, y, k - 1) == p * (d * h) && Term(x[1..], y[1..], k - 1) == p * h;
      Distribute(d, Terms(x[1..], y[1..], k - 1), p, h);
    }
  }

  lemma Distribute(d: int, t: int, p: int, h: int)
    ensures d * t + p * (d * h) == d * (t + p * h)
  {
    assert p * (d * h) == d * (p * h);
  }

  /** The formula, variable by variable from the front. */
  lemma EvaluateCons(x: seq<int>, y: seq<int>)
    requires |x| == |y| > 0
    ensures Evaluate(x, y) == BothOrNeither(x[0], y[0]) * Evaluate(x[1..], y[1..])
                              + ((1 - x[0]) * y[0]) * LowerBits(x[1..], y[1..], |x| - 1)
  {
    var k := |x| - 1;
    TermsCons(x, y, k);
    LowerBitsCons(x, y, k);
    assert HigherBits(x, y, k + 1) == 1;
    Turn(LowerBits(x, y, k), (1 - x[0]) * y[0]);
  }

  lemma Turn(a: int, b: int)
    ensures a * b * 1 == b * a
  {
  }

  /** Only the first entry is not zero. */
  function Spike(c: int, size: nat): (t: seq<int>)
    requires 0 < size
    ensures |t| == size
  {
    [c] + Zeros(size - 1)
  }

  /** The eq factor of the all-zeros vertex. */
  function NoOnes(y: seq<int>): int {
    if y == [] then 1 else (1 - y[0]) * NoOnes(y[1..])
  }

  lemma {:induction false} MleSpike(c: int, y: seq<int>)
    ensures Mle(Spike(c, Pow2(|y|)), y) == c * NoOnes(y)
    decreases |y|
  {
    var t := Spike(c, Pow2(|y|));
    if y != [] {
      var h := Pow2(|y| - 1);
      assert t[..h] == Spike(c, h) && t[h..] == Zeros(h);
      MleSpike(c, y[1..]);
      MleZeros(y[1..]);
      MleStep(t, y);
      hide Mle, Interp;
      SpikeFactor(c, y[0], NoOnes(y[1..]));
    }
  }

  lemma SpikeFactor(c: int, y: int, n: int)
    ensures Interp(y, c * n, 0) == c * ((1 - y) * n)
  {
    Swap(1 - y, c, n);
  }

  lemma MleZeros(y: seq<int>)
    ensures Mle(Zeros(Pow2(|y|)), y) == 0
  {
    DotIsMle(Zeros(Pow2(|y|)), y);
    DotZeros(Zeros(Pow2(|y|)), EqTable(y));
  }

  lemma {:induction false} LowerBitsIsProduct(x: seq<int>, y: seq<int>)
    requires |x| == |y|
    ensures LowerBits(x, y, |x|) == AllOnes(x) * NoOnes(y)
  {
    if x != [] {
      LowerBitsCons(x, y, |x| - 1);
      LowerBitsIsProduct(x[1..], y[1..]);
      Pairs(AllOnes(x[1..]), NoOnes(y[1..]), x[0], 1 - y[0]);
    }
  }

  lemma Pairs(a: int, n: int, x: int, z: int)
    ensures (a * n) * (x * z) == (x * a) * (z * n)
  {
    assert (a * n) * (x * z) == a * (n * (x * z)) && n * (x * z) == x * (z * n);
    assert a * (x * (z * n)) == (x * a) * (z * n);
  }

  /** The table moved up by one, in halves: the lower half is again such a
      table, and so is the upper half but for what carries into its first entry. */
  lemma NextTableStep(r: seq<int>, e: seq<int>)
    requires r != [] && e == EqTable(r[1..])
    ensures NextTable(r) == LowerHalf(MovedUp(e), 1 - r[0]) + UpperHalf(MovedUp(e), r[0], 1 - r[0], AllOnes(r[1..]))
  {
    LastOfEqTable(r[1..]);
    MovedHalves(e, 1 - r[0], r[0]);
  }

  function LowerHalf(t: seq<int>, lo: int): (h: seq<int>)
    ensures |h| == |t|
  {
    Scale(lo, t)
  }

  function UpperHalf(t: seq<int>, hi: int, lo: int, last: int): (h: seq<int>)
    requires t != []
    ensures |h| == |t|
  {
    VAdd(Scale(hi, t), Spike(lo * last, |t|))
  }

  lemma MovedHalves(e: seq<int>, lo: int, hi: int)
    requires e != []
    ensures MovedUp(Scale(lo, e) + Scale(hi, e))
         == LowerHalf(MovedUp(e), lo) + UpperHalf(MovedUp(e), hi, lo, e[|e| - 1])
  {
    var h, t, whole := |e|, MovedUp(e), Scale(lo, e) + Scale(hi, e);
    var n := MovedUp(whole);
    assert lo * 0 == 0 && hi * 0 == 0;
    forall j | 0 <= j < h ensures n[j] == LowerHalf(t, lo)[j] {
      assert j > 0 ==> n[j] == whole[j - 1] == Scale(lo, e)[j - 1];
    }
    var upper := n[h..];
    forall j | 0 <= j < h ensures upper[j] == UpperHalf(t, hi, lo, e[h - 1])[j] {
      assert upper[j] == whole[h + j - 1];
      assert j > 0 ==> upper[j] == Scale(hi, e)[j - 1];
    }
  }

  lemma MleOfUpper(t: seq<int>, hi: int, lo: int, last: int, y: seq<int>)
    requires |t| == Pow2(|y|)
    ensures Mle(UpperHalf(t, hi, lo, last), y) == hi * Mle(t, y) + (lo * last) * NoOnes(y)
  {
    MleScale(hi, t, y);
    MleSpike(lo * last, y);
    MleAdd(Scale(hi, t), Spike(lo * last, |t|), y);
  }

  /** The point formula is the extension of the table, at every field point. */
  lemma {:induction false} EvaluateIsMle(x: seq<int>, y: seq<int>)
    requires |x| == |y|
    ensures Evaluate(x, y) == Mle(NextTable(x), y)
    decreases |x|
  {
    if x != [] {
      var e, a := EqTable(x[1..]), AllOnes(x[1..]);
      var t := MovedUp(e);
      var m, n := Mle(t, y[1..]), NoOnes(y[1..]);
      NextTableStep(x, e);
      MleOfHalves(LowerHalf(t, 1 - x[0]), UpperHalf(t, x[0], 1 - x[0], a), y);
      MleScale(1 - x[0], t, y[1..]);
      MleOfUpper(t, x[0], 1 - x[0], a, y[1..]);
      EvaluateIsMle(x[1..], y[1..]);
      EvaluateCons(x, y);
      LowerBitsIsProduct(x[1..], y[1..]);
      hide *;
      HalvesMeet(x[0], y[0], m, a, n);
    }
  }

  lemma HalvesMeet(x: int, y: int, m: int, a: int, n: int)
    ensures Interp(y, (1 - x) * m, x * m + ((1 - x) * a) * n) == BothOrNeither(x, y) * m + ((1 - x) * y) * (a * n)
  {
    assert y * (((1 - x) * a) * n) == ((1 - x) * y) * (a * n) by {
      assert ((1 - x) * a) * n == (1 - x) * (a * n);
      assert y * ((1 - x) * (a * n)) == ((1 - x) * y) * (a * n);
    }
    EqFactor(x, y, m);
  }

  // The strided table.

  /** Slot `m` of the table stored at every `stride`-th index. */
  function Place(m: nat, stride: nat): nat {
    m * stride
  }

  lemma PlaceNext(m: nat, stride: nat)
    ensures Place(m + 1, stride) == Place(m, stride) + stride
  {
  }

  lemma PlaceDouble(m: nat, half: nat)
    ensures Place(m, 2 * half) == Place(2 * m, half)
    ensures Place(m, 2 * half) + half == Place(2 * m + 1, half)
  {
    assert m * (2 * half) == (2 * m) * half;
    PlaceNext(2 * m, half);
  }

  lemma PlaceOrdered(stride: nat)
    requires 0 < stride
    ensures forall i: nat, j: nat :: i < j ==> Place(i, stride) < Place(j, stride)
  {
    forall i: nat, j: nat | i < j ensures Place(i, stride) < Place(j, stride) {
      PlaceBefore(i, j, stride);
    }
  }

  lemma PlaceBefore(i: nat, j: nat, stride: nat)
    requires 0 < stride && i < j
    ensures Place(i, stride) < Place(j, stride)
  {
    PlaceNext(j - 1, stride);
    if i < j - 1 {
      PlaceBefore(i, j - 1, stride);
    }
  }

  ghost predicate Holds(a: seq<int>, stride: nat, n: nat) {
    0 < stride && Place(n, stride) == |a|
  }

  /** Every `stride`-th entry of the buffer. */
  function Strided(a: seq<int>, stride: nat, n: nat): (s: seq<int>)
    requires Holds(a, stride, n)
    ensures |s| == n
  {
    PlaceOrdered(stride);
    seq(n, m requires 0 <= m < n => a[Place(m, stride)])
  }

  lemma StridedUpdate(a: seq<int>, stride: nat, n: nat, m: nat, v: int)
    requires Holds(a, stride, n) && m < n
    ensures Place(m, stride) < |a| && Strided(a, stride, n)[m] == a[Place(m, stride)]
    ensures Strided(a[Place(m, stride) := v], stride, n) == Strided(a, stride, n)[m := v]
  {
    PlaceOrdered(stride);
    var b, s := a[Place(m, stride) := v], Strided(a, stride, n);
    forall k | 0 <= k < n ensures Strided(b, stride, n)[k] == s[m := v][k] {
      if k != m {
        assert Place(k, stride) != Place(m, stride);
      }
    }
  }

  /** Entries two strides apart are the even ones. */
  lemma StridedEven(a: seq<int>, half: nat, n: nat, m: nat)
    requires Holds(a, half, 2 * n) && m < n
    ensures Holds(a, 2 * half, n) && Strided(a, 2 * half, n)[m] == Strided(a, half, 2 * n)[2 * m]
  {
    PlaceDouble(n, half);
    PlaceDouble(m, half);
  }

  lemma StridedByOne(a: seq<int>)
    ensures Holds(a, 1, |a|) && Strided(a, 1, |a|) == a
  {
  }

  lemma StridedByAll(a: seq<int>)
    requires a != []
    ensures Holds(a, |a|, 1) && Strided(a, |a|, 1) == [a[0]]
  {
    assert Place(0, |a|) == 0 && Place(1, |a|) == |a|;
  }

  lemma {:induction false} TensorFits(m: nat, n: nat, p: nat, q: nat)
    requires p < Pow2(m) && q < Pow2(n)
    ensures Place(p, Pow2(n)) + q < Pow2(m + n)
  {
    var size := Pow2(n);
    Pow2Add(m, n);
    PlaceIsProduct(Pow2(m), size);
    PlaceNext(p, size);
    if p + 1 < Pow2(m) {
      PlaceBefore(p + 1, Pow2(m), size);
    }
  }

  /** The entry a prefix and a suffix of the index choose together. */
  lemma {:induction false} EqTensorAt(r: seq<int>, a: seq<int>, b: seq<int>, size: nat, p: nat, q: nat)
    requires r == a + b && size == Pow2(|b|) && p < Pow2(|a|) && q < size && Place(p, size) + q < Pow2(|r|)
    ensures EqAt(r, Place(p, size) + q) == EqAt(a, p) * EqAt(b, q)
    decreases |a|
  {
    if a == [] {
      assert r == b;
    } else {
      var h := Pow2(|a| - 1);
      var low := if p < h then p else p - h;
      EqAtHalf(a, h, p, low);
      TensorFits(|a| - 1, |b|, low, q);
      assert r[1..] == a[1..] + b;
      EqTensorAt(r[1..], a[1..], b, size, low, q);
      TensorHalf(a, b, size, p, low);
      EqAtHalf(r, Pow2(|r| - 1), Place(p, size) + q, Place(low, size) + q);
      hide *;
      RegroupTo(EqWeight(a[0], p < h), EqAt(a[1..], low), EqAt(b, q), EqAt(r, Place(p, size) + q), EqAt(a, p));
    }
  }

  function EqWeight(x: int, low: bool): int {
    if low then 1 - x else x
  }

  lemma EqAtHalf(r: seq<int>, h: nat, index: nat, low: nat)
    requires r != [] && h == Pow2(|r| - 1) && low < h && (index == low || index == h + low)
    ensures Pow2(|r|) == 2 * h && EqAt(r, index) == EqWeight(r[0], index < h) * EqAt(r[1..], low)
  {
  }

  lemma TensorHalf(a: seq<int>, b: seq<int>, size: nat, p: nat, low: nat)
    requires a != [] && size == Pow2(|b|) && low < Pow2(|a| - 1) && (p == low || p == Pow2(|a| - 1) + low)
    ensures Place(p, size) == Place(low, size) + if p == low then 0 else Pow2(|a| - 1 + |b|)
  {
    Pow2Add(|a| - 1, |b|);
    PlaceSum(Pow2(|a| - 1), low, size);
  }

  lemma RegroupTo(c: int, x: int, y: int, l: int, r: int)
    requires l == c * (x * y) && r == c * x
    ensures l == r * y
  {
  }

  lemma PlaceIsProduct(m: nat, stride: nat)
    ensures Place(m, stride) == m * stride
  {
  }

  lemma PlaceSum(i: int, j: int, stride: nat)
    requires 0 <= i && 0 <= j
    ensures Place(i + j, stride) == Place(i, stride) + Place(j, stride)
  {
  }

  /** One bit of the successor table: the entries whose last one is bit `i`. */
  lemma OddEntry(r: seq<int>, i: nat, m: nat, half: nat)
    requires i < |r| && m < Pow2(i) && half == Pow2(|r| - i - 1)
    ensures 0 < Place(2 * m + 1, half) < Pow2(|r|)
    ensures NextTable(r)[Place(2 * m + 1, half)] == EqTable(r[..i])[m] * (AllOnes(r[i + 1..]) * (1 - r[i]))
  {
    var a, b, j := r[..i], r[i..], Place(2 * m + 1, half);
    assert a + b == r && b[1..] == r[i + 1..];
    TensorFits(i, |b|, m, half);
    PlaceDouble(m, half);
    EqTensorAt(r, a, b, 2 * half, m, half - 1);
    SuffixOfOnes(b, half);
    NextTableAt(r, j);
    EqTableAt(a, m);
    hide *;
    OddProduct(NextTable(r)[j], EqTable(a)[m], EqAt(b, half - 1), 1 - r[i], AllOnes(r[i + 1..]));
  }

  /** A zero and then all ones. */
  lemma SuffixOfOnes(b: seq<int>, half: nat)
    requires b != [] && half == Pow2(|b| - 1)
    ensures Pow2(|b|) == 2 * half && EqAt(b, half - 1) == (1 - b[0]) * AllOnes(b[1..])
  {
    LastOfEqTable(b[1..]);
    EqTableAt(b[1..], half - 1);
  }

  lemma NextTableAt(r: seq<int>, j: nat)
    requires j < Pow2(|r|)
    ensures NextTable(r)[j] == if j == 0 then 0 else EqAt(r, j - 1)
  {
    if j > 0 {
      EqTableAt(r, j - 1);
    }
  }

  lemma OddProduct(v: int, x: int, b: int, c: int, a: int)
    requires v == x * b && b == c * a
    ensures v == x * (a * c)
  {
  }

  // The table builder.

  /** The slots of `next` that the prefix `r[..i]` decides, and those of `eq`:
      every `stride`-th index. Slot 0 of `next` is never written. */
  ghost predicate BuiltUpTo(r: seq<int>, scale: int, i: nat, stride: nat, eq: seq<int>, next: seq<int>) {
    && i <= |r| && stride == Pow2(|r| - i) && |eq| == |next| == Pow2(|r|)
    && Holds(eq, stride, Pow2(i)) && Holds(next, stride, Pow2(i))
    && Strided(eq, stride, Pow2(i)) == Scaled(scale, r[..i])
    && Strided(next, stride, Pow2(i)) == Strided(Scale(scale, NextTable(r)), stride, Pow2(i))
  }

  lemma BuildStart(r: seq<int>, scale: int, eq: seq<int>, next: seq<int>)
    requires |eq| == |next| == Pow2(|r|) && eq[0] == scale && next[0] == 0
    ensures BuiltUpTo(r, scale, 0, Pow2(|r|), eq, next)
  {
    StridedByAll(eq);
    StridedByAll(next);
    StridedByAll(Scale(scale, NextTable(r)));
    assert r[..0] == [] && Scaled(scale, []) == [scale * 1];
  }

  lemma BuildEnd(r: seq<int>, scale: int, eq: seq<int>, next: seq<int>)
    requires BuiltUpTo(r, scale, |r|, 1, eq, next)
    ensures eq == Scaled(scale, r) && next == Scale(scale, NextTable(r))
  {
    assert r[..|r|] == r;
    StridedByOne(eq);
    StridedByOne(next);
    StridedByOne(Scale(scale, NextTable(r)));
  }

  /** `EqPlusOnePolynomial::evals`. */
  method Evals(r: seq<int>, scale: int) returns (eq: seq<int>, next: seq<int>)
    ensures eq == Scaled(scale, r) && next == Scale(scale, NextTable(r))
  {
    var size, step := Pow2(|r|), Pow2(|r|);
    var eqEvals, nextEvals := new int[size](j => if j == 0 then scale else 0), new int[size](_ => 0);
    BuildStart(r, scale, eqEvals[..], nextEvals[..]);
    for i := 0 to |r|
      invariant BuiltUpTo(r, scale, i, step, eqEvals[..], nextEvals[..])
    {
      ghost var oldEq, oldNext := eqEvals[..], nextEvals[..];
      var half := step / 2;
      BuildHalf(r, i, step, half, oldEq, oldNext);
      var product := LowerProduct(r, i);
      FillOdd(eqEvals, nextEvals, half, Pow2(i), product);
      ExtendEven(eqEvals, half, Pow2(i), r[i]);
      BuildStep(r, scale, i, half, oldEq, oldNext, eqEvals[..], nextEvals[..]);
      step := half;
    }
    BuildEnd(r, scale, eqEvals[..], nextEvals[..]);
    eq, next := eqEvals[..], nextEvals[..];
  }

  /** `r_lower_product`: all later coordinates, and not this one. */
  method LowerProduct(r: seq<int>, i: nat) returns (product: int)
    requires i < |r|
    ensures product == AllOnes(r[i + 1..]) * (1 - r[i])
  {
    product := 1;
    var later := r[i + 1..];
    for k := 0 to |later|
      invariant product == AllOnes(later[..k])
    {
      AllOnesSnoc(later[..k], later[k]);
      assert later[..k + 1] == later[..k] + [later[k]];
      product := product * later[k];
    }
    assert later[..|later|] == later;
    product := product * (1 - r[i]);
  }

  /** What each half-step slot gets: the slot before it times the product. */
  function OddFilled(next: seq<int>, eq: seq<int>, product: int): (t: seq<int>)
    requires |next| == 2 * |eq|
    ensures |t| == |next|
    ensures forall k {:trigger t[k]} :: 0 <= k < |t| ==> t[k] == if k % 2 == 1 then eq[k / 2] * product else next[k]
  {
    seq(|next|, k requires 0 <= k < |next| => if k % 2 == 1 then eq[k / 2] * product else next[k])
  }

  /** The first `m` pairs of slots are done. */
  function Halfway(before: seq<int>, target: seq<int>, m: nat): (s: seq<int>)
    requires |before| == |target| && 2 * m <= |before|
    ensures |s| == |before|
  {
    target[..2 * m] + before[2 * m..]
  }

  lemma HalfwayEnds(before: seq<int>, target: seq<int>)
    requires |before| == |target| && |before| % 2 == 0
    ensures Halfway(before, target, 0) == before && Halfway(before, target, |before| / 2) == target
  {
  }

  /** The entries of bit `i`: every odd multiple of `half`, each written once. */
  method FillOdd(eq: array<int>, next: array<int>, half: nat, ghost n: nat, product: int)
    requires eq != next && eq.Length == next.Length && Holds(eq[..], half, 2 * n) && Holds(eq[..], 2 * half, n)
    modifies next
    ensures Holds(next[..], half, 2 * n)
    ensures Strided(next[..], half, 2 * n)
         == OddFilled(old(Strided(next[..], half, 2 * n)), Strided(eq[..], 2 * half, n), product)
  {
    hide Strided, Halfway, OddFilled, Place;
    ghost var before, from := Strided(next[..], half, 2 * n), Strided(eq[..], 2 * half, n);
    ghost var target := OddFilled(before, from, product);
    HalfwayEnds(before, target);
    var index := half;
    ghost var m := 0;
    OddGuard(half, n, 0);
    while index < next.Length
      invariant m <= n && index == Place(2 * m + 1, half) && (index < next.Length <==> m < n)
      invariant Strided(next[..], half, 2 * n) == Halfway(before, target, m)
      decreases n - m
    {
      FillStep(eq[..], next[..], half, n, m, before, from, product, index);
      OddGuard(half, n, m + 1);
      OddGuard(half, n, m);
      next[index] := eq[index - half] * product;
      index := index + 2 * half;
      m := m + 1;
    }
  }

  lemma FillStep(eq: seq<int>, next: seq<int>, half: nat, n: nat, m: nat, before: seq<int>, from: seq<int>,
                 product: int, index: nat)
    requires Holds(eq, half, 2 * n) && Holds(eq, 2 * half, n) && Holds(next, half, 2 * n) && m < n
    requires index == Place(2 * m + 1, half)
    requires from == Strided(eq, 2 * half, n) && |before| == 2 * n
    requires Strided(next, half, 2 * n) == Halfway(before, OddFilled(before, from, product), m)
    ensures half <= index < |next| && |next| == |eq|
    ensures Strided(next[index := eq[index - half] * product], half, 2 * n)
         == Halfway(before, OddFilled(before, from, product), m + 1)
  {
    PlaceDouble(m, half);
    StridedAt(eq, 2 * half, n, m);
    StridedUpdate(next, half, 2 * n, 2 * m + 1, from[m] * product);
    OneMoreOdd(before, from, product, m);
  }

  lemma OneMoreOdd(before: seq<int>, from: seq<int>, product: int, m: nat)
    requires |before| == 2 * |from| && m < |from|
    ensures var target := OddFilled(before, from, product);
      Halfway(before, target, m)[2 * m + 1 := from[m] * product] == Halfway(before, target, m + 1)
  {
    var target := OddFilled(before, from, product);
    assert target[2 * m + 1] == from[m] * product && target[2 * m] == before[2 * m];
  }

  lemma OddGuard(half: nat, n: nat, m: nat)
    requires 0 < half && m <= n
    ensures Place(2 * m + 1, half) < Place(2 * n, half) <==> m < n
    ensures Place(2 * m + 1, half) + 2 * half == Place(2 * (m + 1) + 1, half)
    ensures Place(1, half) == half
  {
    PlaceOrdered(half);
    PlaceNext(2 * m + 1, half);
    PlaceNext(2 * m + 2, half);
  }

  lemma StridedAt(a: seq<int>, stride: nat, n: nat, m: nat)
    requires Holds(a, stride, n) && m < n
    ensures Place(m, stride) < |a| && Strided(a, stride, n)[m] == a[Place(m, stride)]
  {
    PlaceOrdered(stride);
  }

  /** One more variable of the strided eq table: each entry makes a pair. */
  method ExtendEven(eq: array<int>, half: nat, ghost n: nat, x: int)
    requires Holds(eq[..], half, 2 * n) && Holds(eq[..], 2 * half, n)
    modifies eq
    ensures Strided(eq[..], half, 2 * n) == Interleaved(old(Strided(eq[..], 2 * half, n)), x)
  {
    hide Strided, Halfway, Interleaved, Place;
    ghost var from, before := Strided(eq[..], 2 * half, n), Strided(eq[..], half, 2 * n);
    ghost var target := Interleaved(from, x);
    EvenEntries(eq[..], half, n, before, from);
    HalfwayEnds(before, target);
    var k := 0;
    ghost var m := 0;
    EvenGuard(half, n, 0);
    while k < eq.Length
      invariant m <= n && k == Place(2 * m, half) && (k < eq.Length <==> m < n)
      invariant Strided(eq[..], half, 2 * n) == Halfway(before, target, m)
      decreases n - m
    {
      ExtendStep(eq[..], half, n, m, before, from, x, k);
      EvenGuard(half, n, m + 1);
      EvenGuard(half, n, m);
      ghost var was := eq[..];
      var val := eq[k] * x;
      eq[k + half] := val;
      eq[k] := eq[k] - val;
      assert eq[..] == was[k + half := val][k := was[k] - val];
      k := k + 2 * half;
      m := m + 1;
    }
  }

  lemma EvenEntries(a: seq<int>, half: nat, n: nat, before: seq<int>, from: seq<int>)
    requires Holds(a, half, 2 * n) && Holds(a, 2 * half, n) && before == Strided(a, half, 2 * n)
    requires from == Strided(a, 2 * half, n)
    ensures forall m :: 0 <= m < n ==> from[m] == before[2 * m]
  {
    forall m | 0 <= m < n ensures from[m] == before[2 * m] {
      StridedEven(a, half, n, m);
    }
  }

  lemma ExtendStep(a: seq<int>, half: nat, n: nat, m: nat, before: seq<int>, from: seq<int>, x: int, k: nat)
    requires Holds(a, half, 2 * n) && m < n && k == Place(2 * m, half) && |before| == 2 * n && |from| == n
    requires (forall j :: 0 <= j < n ==> from[j] == before[2 * j])
    requires Strided(a, half, 2 * n) == Halfway(before, Interleaved(from, x), m)
    ensures k + half < |a| && 0 < half
    ensures var val := a[k] * x;
      Strided(a[k + half := val][k := a[k] - val], half, 2 * n) == Halfway(before, Interleaved(from, x), m + 1)
  {
    var s := Halfway(before, Interleaved(from, x), m);
    EvenGuard(half, n, m);
    StridedAt(a, half, 2 * n, 2 * m);
    assert a[k] == s[2 * m] == from[m];
    var val := a[k] * x;
    StridedUpdate(a, half, 2 * n, 2 * m + 1, val);
    StridedUpdate(a[k + half := val], half, 2 * n, 2 * m, a[k] - val);
    OneMorePair(before, from, x, m);
  }

  lemma OneMorePair(before: seq<int>, from: seq<int>, x: int, m: nat)
    requires |before| == 2 * |from| && m < |from| && before[2 * m] == from[m]
    ensures var target, val := Interleaved(from, x), from[m] * x;
      Halfway(before, target, m)[2 * m + 1 := val][2 * m := from[m] - val] == Halfway(before, target, m + 1)
  {
    var target := Interleaved(from, x);
    assert target[2 * m] == from[m] * (1 - x) == from[m] - from[m] * x && target[2 * m + 1] == from[m] * x;
  }

  lemma EvenGuard(half: nat, n: nat, m: nat)
    requires 0 < half && m <= n
    ensures Place(2 * m, half) < Place(2 * n, half) <==> m < n
    ensures Place(2 * m, half) + 2 * half == Place(2 * (m + 1), half)
    ensures Place(2 * m, half) + half == Place(2 * m + 1, half)
    ensures Place(0, half) == 0
  {
    PlaceOrdered(half);
    PlaceNext(2 * m, half);
    PlaceNext(2 * m + 1, half);
  }

  /** Halving the stride doubles the slots. */
  lemma BuildHalf(r: seq<int>, i: nat, step: nat, half: nat, eq: seq<int>, next: seq<int>)
    requires i < |r| && step == Pow2(|r| - i) && half == step / 2 && |eq| == |next| == Pow2(|r|)
    ensures step == 2 * half && half == Pow2(|r| - i - 1)
    ensures Holds(eq, half, 2 * Pow2(i)) && Holds(next, half, 2 * Pow2(i)) && Holds(eq, step, Pow2(i))
  {
    Pow2Add(i, |r| - i);
    PlaceDouble(Pow2(i), half);
  }

  lemma BuildStep(r: seq<int>, scale: int, i: nat, half: nat, oldEq: seq<int>, oldNext: seq<int>, eq: seq<int>,
                  next: seq<int>)
    requires i < |r| && BuiltUpTo(r, scale, i, 2 * half, oldEq, oldNext) && half == Pow2(|r| - i - 1)
    requires |eq| == |next| == Pow2(|r|) && Holds(eq, half, 2 * Pow2(i)) && Holds(next, half, 2 * Pow2(i))
    requires Holds(oldNext, half, 2 * Pow2(i))
    requires Strided(eq, half, 2 * Pow2(i)) == Interleaved(Strided(oldEq, 2 * half, Pow2(i)), r[i])
    requires Strided(next, half, 2 * Pow2(i))
          == OddFilled(Strided(oldNext, half, 2 * Pow2(i)), Strided(oldEq, 2 * half, Pow2(i)),
                       AllOnes(r[i + 1..]) * (1 - r[i]))
    ensures BuiltUpTo(r, scale, i + 1, half, eq, next)
  {
    ScaledSnoc(scale, r, i);
    var target, n := Scale(scale, NextTable(r)), 2 * Pow2(i);
    forall k | 0 <= k < n ensures Strided(next, half, n)[k] == Strided(target, half, n)[k] {
      NextSlot(r, scale, i, half, oldEq, oldNext, next, k);
    }
  }

  lemma NextSlot(r: seq<int>, scale: int, i: nat, half: nat, oldEq: seq<int>, oldNext: seq<int>, next: seq<int>, k: nat)
    requires i < |r| && BuiltUpTo(r, scale, i, 2 * half, oldEq, oldNext) && half == Pow2(|r| - i - 1)
    requires |next| == Pow2(|r|) && Holds(next, half, 2 * Pow2(i)) && Holds(oldNext, half, 2 * Pow2(i))
    requires k < 2 * Pow2(i)
    requires Strided(next, half, 2 * Pow2(i))
          == OddFilled(Strided(oldNext, half, 2 * Pow2(i)), Strided(oldEq, 2 * half, Pow2(i)),
                       AllOnes(r[i + 1..]) * (1 - r[i]))
    ensures Strided(next, half, 2 * Pow2(i))[k] == Strided(Scale(scale, NextTable(r)), half, 2 * Pow2(i))[k]
  {
    var target, n, m := Scale(scale, NextTable(r)), 2 * Pow2(i), k / 2;
    if k % 2 == 0 {
      StridedEven(oldNext, half, Pow2(i), m);
      StridedEven(target, half, Pow2(i), m);
    } else {
      OddEntry(r, i, m, half);
      StridedAt(target, half, n, k);
      Regroup(scale, EqTable(r[..i])[m], AllOnes(r[i + 1..]) * (1 - r[i]));
    }
  }

  // The prefix-suffix form.

  lemma {:induction false} LowerBitsSplit(x: seq<int>, y: seq<int>, u: seq<int>, v: seq<int>)
    requires |x| == |y| && |u| == |v|
    ensures AllOnes(x + u) == AllOnes(x) * AllOnes(u) && NoOnes(y + v) == NoOnes(y) * NoOnes(v)
  {
    if x == [] {
      assert x + u == u && y + v == v;
    } else {
      assert (x + u)[1..] == x[1..] + u && (y + v)[1..] == y[1..] + v;
      LowerBitsSplit(x[1..], y[1..], u, v);
      Regroup(x[0], AllOnes(x[1..]), AllOnes(u));
      Regroup(1 - y[0], NoOnes(y[1..]), NoOnes(v));
    }
  }

  /** The successor of a pair: the low part moves and the high part stays, or
      the low part wraps and the high part moves. */
  lemma {:induction false} EvaluateSplit(hi: seq<int>, yHi: seq<int>, lo: seq<int>, yLo: seq<int>)
    requires |hi| == |yHi| && |lo| == |yLo|
    ensures Evaluate(hi + lo, yHi + yLo)
         == Evaluate(lo, yLo) * EqMle(hi, yHi) + (AllOnes(lo) * NoOnes(yLo)) * Evaluate(hi, yHi)
    decreases |hi|
  {
    if hi == [] {
      assert hi + lo == lo && yHi + yLo == yLo;
    } else {
      var x, y, h, g := hi + lo, yHi + yLo, hi[1..], yHi[1..];
      assert x[1..] == h + lo && y[1..] == g + yLo;
      EvaluateSplit(h, g, lo, yLo);
      EvaluateCons(x, y);
      EvaluateCons(hi, yHi);
      LowerBitsIsProduct(h + lo, g + yLo);
      LowerBitsIsProduct(h, g);
      LowerBitsSplit(h, g, lo, yLo);
      var d, f, w := BothOrNeither(hi[0], yHi[0]), (1 - hi[0]) * yHi[0], AllOnes(lo) * NoOnes(yLo);
      assert EqMle(hi, yHi) == d * EqMle(h, g);
      hide *;
      CarryOver(d, Evaluate(lo, yLo), EqMle(h, g), w, Evaluate(h, g), f, AllOnes(h), NoOnes(g), AllOnes(lo),
                NoOnes(yLo));
    }
  }

  lemma CarryOver(d: int, e: int, m: int, w: int, v: int, f: int, a: int, n: int, b: int, k: int)
    requires w == b * k
    ensures d * (e * m + w * v) + f * ((a * b) * (n * k)) == e * (d * m) + w * (d * v + f * (a * n))
  {
    assert (a * b) * (n * k) == w * (a * n) by {
      Pairs(a, b, n, k);
      Turn3(a, b, n, k);
    }
    Swap(d, e, m);
    Swap(d, w, v);
    Swap(f, w, a * n);
    Spread(d, e * m, w * v);
    Spread(w, d * v, f * (a * n));
  }

  lemma Turn3(a: int, b: int, n: int, k: int)
    ensures (a * b) * (n * k) == (b * k) * (a * n)
  {
    assert (a * b) * (n * k) == a * (b * (n * k)) && b * (n * k) == n * (b * k);
    assert a * (n * (b * k)) == (a * n) * (b * k);
  }

  datatype PrefixSuffix = PrefixSuffix(prefix0: seq<int>, suffix0: seq<int>, prefix1: seq<int>, suffix1: seq<int>)

  /** The two rank-one terms of a decomposition at a point. */
  function TwoTerms(d: PrefixSuffix, yHi: seq<int>, yLo: seq<int>): int
    requires |d.prefix0| == |d.prefix1| == Pow2(|yLo|) && |d.suffix0| == |d.suffix1| == Pow2(|yHi|)
  {
    Mle(d.prefix0, yLo) * Mle(d.suffix0, yHi) + Mle(d.prefix1, yLo) * Mle(d.suffix1, yHi)
  }

  /** `EqPlusOnePrefixSuffix::new`, split in the middle. At every field point
      the two rank-one terms add up to eq+1. */
  method NewPrefixSuffix(r: seq<int>) returns (d: PrefixSuffix)
    ensures |d.prefix0| == |d.prefix1| == Pow2(|r| - |r| / 2) && |d.suffix0| == |d.suffix1| == Pow2(|r| / 2)
    ensures forall yHi, yLo :: |yHi| == |r| / 2 && |yLo| == |r| - |r| / 2 ==>
      TwoTerms(d, yHi, yLo) == Evaluate(r, yHi + yLo)
  {
    var mid := |r| / 2;
    var hi, lo := r[..mid], r[mid..];
    var ones := seq(|lo|, _ => 1);
    OnesAt(ones, lo);
    var prefix1 := [EqMle(ones, lo)] + Zeros(Pow2(|lo|) - 1);
    var suffix0, suffix1 := Evals(hi, 1);
    var _, prefix0 := Evals(lo, 1);
    d := PrefixSuffix(prefix0, suffix0, prefix1, suffix1);
    forall yHi, yLo | |yHi| == mid && |yLo| == |lo| ensures TwoTerms(d, yHi, yLo) == Evaluate(r, yHi + yLo) {
      assert hi + lo == r;
      TermsMeet(hi, yHi, lo, yLo, d);
    }
  }

  lemma TermsMeet(hi: seq<int>, yHi: seq<int>, lo: seq<int>, yLo: seq<int>, d: PrefixSuffix)
    requires |hi| == |yHi| && |lo| == |yLo|
    requires d.prefix0 == Scale(1, NextTable(lo)) && d.suffix0 == Scaled(1, hi) && d.suffix1 == Scale(1, NextTable(hi))
    requires d.prefix1 == Spike(AllOnes(lo), Pow2(|lo|))
    ensures TwoTerms(d, yHi, yLo) == Evaluate(hi + lo, yHi + yLo)
  {
    EvaluateSplit(hi, yHi, lo, yLo);
    MleScale(1, NextTable(lo), yLo);
    MleScale(1, EqTable(hi), yHi);
    MleScale(1, NextTable(hi), yHi);
    EvaluateIsMle(lo, yLo);
    EvaluateIsMle(hi, yHi);
    MleOfEqTable(hi, yHi);
    MleSpike(AllOnes(lo), yLo);
  }

  lemma {:induction false} OnesAt(ones: seq<int>, r: seq<int>)
    requires |ones| == |r| && forall i :: 0 <= i < |ones| ==> ones[i] == 1
    ensures EqMle(ones, r) == AllOnes(r)
  {
    if r != [] {
      OnesAt(ones[1..], r[1..]);
    }
  }
}
