/** Univariate polynomials in coefficient form, lowest degree first. */
module Univariate {
  import opened Fields
  import opened Vectors

  function EvalPoly(c: seq<int>, x: int): int {
    if c == [] then 0 else c[0] + x * EvalPoly(c[1..], x)
  }

  /** The value at the node `k` steps after `start`. */
  function AtNode(c: seq<int>, start: int, k: int): int {
    EvalPoly(c, start + k)
  }

  /** `1, .., n - 1` are invertible: consecutive nodes are distinct. */
  ghost predicate NodesDistinct(f: Field, n: nat) {
    forall k :: 0 < k < n ==> !Same(f, k, 0)
  }

  lemma {:induction false} EvalAdd(a: seq<int>, b: seq<int>, x: int)
    requires |a| == |b|
    ensures EvalPoly(VAdd(a, b), x) == EvalPoly(a, x) + EvalPoly(b, x)
  {
    if a != [] {
      assert VAdd(a, b)[1..] == VAdd(a[1..], b[1..]);
      EvalAdd(a[1..], b[1..], x);
      assert x * (EvalPoly(a[1..], x) + EvalPoly(b[1..], x)) == x * EvalPoly(a[1..], x) + x * EvalPoly(b[1..], x);
    }
  }

  lemma {:induction false} EvalScale(s: int, a: seq<int>, x: int)
    ensures EvalPoly(Scale(s, a), x) == s * EvalPoly(a, x)
  {
    if a != [] {
      assert Scale(s, a)[1..] == Scale(s, a[1..]);
      EvalScale(s, a[1..], x);
      assert s * a[0] + x * (s * EvalPoly(a[1..], x)) == s * (a[0] + x * EvalPoly(a[1..], x));
    }
  }

  lemma EvalAddScale(a: seq<int>, s: int, b: seq<int>, x: int)
    requires |a| == |b|
    ensures EvalPoly(VAdd(a, Scale(s, b)), x) == EvalPoly(a, x) + s * EvalPoly(b, x)
  {
    EvalAdd(a, Scale(s, b), x);
    EvalScale(s, b, x);
  }

  lemma {:induction false} EvalSame(f: Field, c: seq<int>, x: int, y: int)
    requires IsField(f) && Same(f, x, y)
    ensures Same(f, EvalPoly(c, x), EvalPoly(c, y))
  {
    if c != [] {
      EvalSame(f, c[1..], x, y);
      SameMul(f, x, y, EvalPoly(c[1..], x), EvalPoly(c[1..], y));
      SameAdd(f, c[0], c[0], x * EvalPoly(c[1..], x), y * EvalPoly(c[1..], y));
    }
  }

  /** Synthetic division by `x - a`. */
  function Quotient(c: seq<int>, a: int): (q: seq<int>)
    requires c != []
    ensures |q| == |c| - 1
  {
    if |c| == 1 then [] else [EvalPoly(c[1..], a)] + Quotient(c[1..], a)
  }

  lemma {:induction false} QuotientExact(c: seq<int>, a: int, x: int)
    requires c != []
    ensures EvalPoly(c, x) == EvalPoly(c, a) + (x - a) * EvalPoly(Quotient(c, a), x)
  {
    if |c| > 1 {
      QuotientExact(c[1..], a, x);
      var t := Quotient(c[1..], a);
      assert Quotient(c, a)[1..] == t;
      HornerStep(c[0], x, a, EvalPoly(c[1..], a), EvalPoly(t, x));
    }
  }

  lemma HornerStep(c: int, x: int, a: int, e: int, q: int)
    ensures c + x * (e + (x - a) * q) == c + a * e + (x - a) * (e + x * q)
  {
  }

  /** A polynomial with at most `|c|` coefficients that vanishes at `|c|`
      consecutive nodes vanishes everywhere. */
  lemma {:induction false} VanishesEverywhere(f: Field, c: seq<int>, start: int, x: int)
    requires IsField(f) && NodesDistinct(f, |c|)
    requires forall k :: 0 <= k < |c| ==> Same(f, AtNode(c, start, k), 0)
    ensures Same(f, EvalPoly(c, x), 0)
    decreases |c|
  {
    if c != [] {
      var n := |c| - 1;
      var a, q := start + n, Quotient(c, start + n);
      forall k | 0 <= k < n ensures Same(f, AtNode(q, start, k), 0) {
        assert Same(f, AtNode(c, start, n), 0) && Same(f, AtNode(c, start, k), 0);
        RootOfQuotient(f, c, a, start + k, n - k);
      }
      VanishesEverywhere(f, q, start, x);
      QuotientExact(c, a, x);
      SameMul(f, x - a, x - a, EvalPoly(q, x), 0);
      SameAdd(f, EvalPoly(c, a), 0, (x - a) * EvalPoly(q, x), 0);
    }
  }

  lemma RootOfQuotient(f: Field, c: seq<int>, a: int, b: int, d: int)
    requires IsField(f) && c != [] && a - b == d && !Same(f, d, 0)
    requires Same(f, EvalPoly(c, a), 0) && Same(f, EvalPoly(c, b), 0)
    ensures Same(f, EvalPoly(Quotient(c, a), b), 0)
  {
    var q := EvalPoly(Quotient(c, a), b);
    QuotientExact(c, a, b);
    SameSub(f, EvalPoly(c, a), 0, EvalPoly(c, b), 0);
    assert (b - a) * q == -(d * q);
    assert EvalPoly(c, a) - EvalPoly(c, b) == d * q;
    ZeroProduct(f, d, q);
  }

  /** Two polynomials of the same length that agree at that many consecutive
      nodes agree everywhere. */
  lemma InterpolantUnique(f: Field, c: seq<int>, d: seq<int>, start: int, x: int)
    requires IsField(f) && |c| == |d| && NodesDistinct(f, |c|)
    requires forall k :: 0 <= k < |c| ==> Same(f, AtNode(c, start, k), AtNode(d, start, k))
    ensures Same(f, EvalPoly(c, x), EvalPoly(d, x))
  {
    hide EvalPoly;
    var e := VAdd(c, Scale(-1, d));
    forall y ensures EvalPoly(e, y) == EvalPoly(c, y) - EvalPoly(d, y) {
      EvalAdd(c, Scale(-1, d), y);
      EvalScale(-1, d, y);
    }
    forall k | 0 <= k < |e| ensures Same(f, AtNode(e, start, k), 0) {
      assert Same(f, AtNode(c, start, k), AtNode(d, start, k));
      SameDifference(f, EvalPoly(c, start + k), EvalPoly(d, start + k));
    }
    VanishesEverywhere(f, e, start, x);
    SameDifference(f, EvalPoly(c, x), EvalPoly(d, x));
  }
}

/** Newton interpolation on consecutive integer nodes. */
module Interpolation {
  import opened Results
  import opened Fields
  import opened Vectors
  import opened Univariate

  /** `invs[k]` inverts `k` for every `0 < k < n`. */
  ghost predicate InverseTable(f: Field, invs: seq<int>, n: nat) {
    |invs| == n && forall k :: 0 < k < n ==> Same(f, k * invs[k], 1)
  }

  /** The divided difference of the `m + 1` nodes that end at node `i`. */
  function Divided(values: seq<int>, invs: seq<int>, m: nat, i: nat): int
    requires m <= i < |values| == |invs|
  {
    if m == 0 then values[i]
    else (Divided(values, invs, m - 1, i) - Divided(values, invs, m - 1, i - 1)) * invs[m]
  }

  /** `t (t - 1) .. (t - k + 1)`. */
  function Falling(t: int, k: nat): int {
    if k == 0 then 1 else Falling(t, k - 1) * (t - k + 1)
  }

  lemma {:induction false} FallingZero(t: nat, k: nat)
    requires t < k
    ensures Falling(t, k) == 0
  {
    if k > t + 1 {
      FallingZero(t, k - 1);
    }
  }

  lemma {:induction false} FallingStep(t: int, k: nat)
    ensures Falling(t + 1, k) == Falling(t, k) + if k == 0 then 0 else k * Falling(t, k - 1)
  {
    if k > 1 {
      FallingStep(t, k - 1);
      FallingAlgebra(Falling(t, k - 2), t, k);
    }
  }

  lemma FallingAlgebra(a: int, t: int, k: int)
    ensures (a * (t - k + 2) + (k - 1) * a) * (t + 1 - k + 1)
         == a * (t - k + 2) * (t - k + 1) + k * (a * (t - k + 2))
  {
  }

  /** The Newton form on the `m` nodes from `a`, evaluated `t` steps after `a`. */
  function NewtonAt(values: seq<int>, invs: seq<int>, a: nat, m: nat, t: int): int
    requires a + m <= |values| == |invs|
  {
    if m == 0 then 0
    else NewtonAt(values, invs, a, m - 1, t) + Falling(t, m - 1) * Divided(values, invs, m - 1, a + m - 1)
  }

  /** One step further along the nodes is the Newton form from the next node. */
  lemma {:induction false} NewtonAdvance(f: Field, values: seq<int>, invs: seq<int>, a: nat, m: nat, t: int)
    requires IsField(f) && 0 < m && a + m <= |values| && InverseTable(f, invs, |values|)
    ensures Same(f, NewtonAt(values, invs, a, m, t + 1),
                 NewtonAt(values, invs, a + 1, m - 1, t) + Falling(t, m - 1) * Divided(values, invs, m - 1, a + m - 1))
  {
    if m > 1 {
      var k := m - 1;
      var hi, lo := Divided(values, invs, k - 1, a + k), Divided(values, invs, k - 1, a + k - 1);
      NewtonAdvance(f, values, invs, a, k, t);
      FallingStep(t, k);
      AdvanceAlgebra(f, NewtonAt(values, invs, a, k, t + 1), NewtonAt(values, invs, a + 1, k - 1, t),
                     Falling(t, k), Falling(t, k - 1), k, hi, lo, invs[k]);
    }
  }

  lemma AdvanceAlgebra(f: Field, n: int, n': int, g: int, h: int, k: int, hi: int, lo: int, inv: int)
    requires IsField(f) && Same(f, n, n' + h * lo) && Same(f, k * inv, 1)
    ensures Same(f, n + (g + k * h) * ((hi - lo) * inv), n' + h * hi + g * ((hi - lo) * inv))
  {
    var d, x := (hi - lo) * inv, h * (hi - lo);
    SameMul(f, k * inv, 1, x, x);
    SameAdd(f, n, n' + h * lo, (k * inv) * x, 1 * x);
    SameAdd(f, n + (k * inv) * x, n' + h * lo + x, g * d, g * d);
    assert (k * inv) * x == (k * h) * d;
    assert (g + k * h) * d == g * d + (k * h) * d;
    assert h * lo + x == h * hi;
  }

  /** The Newton form takes the given value at every node. */
  lemma {:induction false} NewtonInterpolates(f: Field, values: seq<int>, invs: seq<int>, a: nat, m: nat, t: nat)
    requires IsField(f) && t < m && a + m <= |values| && InverseTable(f, invs, |values|)
    ensures Same(f, NewtonAt(values, invs, a, m, t), values[a + t])
    decreases t
  {
    hide NewtonAt, Falling;
    if t == 0 {
      NewtonAtZero(values, invs, a, m);
    } else {
      NewtonAdvance(f, values, invs, a, m, t - 1);
      FallingZero(t - 1, m - 1);
      NewtonInterpolates(f, values, invs, a + 1, m - 1, t - 1);
    }
  }

  lemma {:induction false} NewtonAtZero(values: seq<int>, invs: seq<int>, a: nat, m: nat)
    requires 0 < m && a + m <= |values| == |invs|
    ensures NewtonAt(values, invs, a, m, 0) == values[a]
  {
    if m > 1 {
      NewtonAtZero(values, invs, a, m - 1);
      FallingZero(0, m - 1);
    }
  }

  /** The coefficients of `(x - s)(x - s - 1) .. (x - s - k + 1)`, padded to `n`. */
  function NodeBasis(s: int, k: nat, n: nat): (b: seq<int>)
    requires k < n
    ensures |b| == n && forall i :: k < i < n ==> b[i] == 0
  {
    if k == 0 then [1] + Zeros(n - 1)
    else TimesLinear(NodeBasis(s, k - 1, n), -(s + (k - 1)))
  }

  /** `b * (x + shift)` within the same length. */
  function TimesLinear(b: seq<int>, shift: int): (r: seq<int>)
    requires b != []
    ensures |r| == |b|
  {
    VAdd([0] + b[..|b| - 1], Scale(shift, b))
  }

  lemma NodeBasisStep(s: int, k: nat, n: nat)
    requires k + 1 < n
    ensures NodeBasis(s, k + 1, n) == TimesLinear(NodeBasis(s, k, n), -(s + k))
  {
    var shift := -(s + (k + 1 - 1));
    assert shift == -(s + k);
  }

  lemma {:induction false} EvalZeros(b: seq<int>, x: int)
    requires forall i :: 0 <= i < |b| ==> b[i] == 0
    ensures EvalPoly(b, x) == 0
  {
    if b != [] {
      EvalZeros(b[1..], x);
    }
  }

  lemma {:induction false} EvalShift(b: seq<int>, x: int)
    requires b != [] && b[|b| - 1] == 0
    ensures EvalPoly([0] + b[..|b| - 1], x) == x * EvalPoly(b, x)
  {
    assert ([0] + b[..|b| - 1])[1..] == b[..|b| - 1];
    EvalDropZero(b, x);
  }

  lemma {:induction false} EvalDropZero(b: seq<int>, x: int)
    requires b != [] && b[|b| - 1] == 0
    ensures EvalPoly(b[..|b| - 1], x) == EvalPoly(b, x)
  {
    if |b| > 1 {
      assert b[..|b| - 1][1..] == b[1..][..|b| - 2];
      EvalDropZero(b[1..], x);
    }
  }

  lemma EvalTimesLinear(b: seq<int>, shift: int, x: int)
    requires b != [] && b[|b| - 1] == 0
    ensures EvalPoly(TimesLinear(b, shift), x) == EvalPoly(b, x) * (x + shift)
  {
    var up := [0] + b[..|b| - 1];
    EvalAdd(up, Scale(shift, b), x);
    EvalScale(shift, b, x);
    EvalShift(b, x);
    LinearFactor(EvalPoly(b, x), x, shift);
  }

  lemma LinearFactor(e: int, x: int, shift: int)
    ensures x * e + shift * e == e * (x + shift)
  {
  }

  lemma {:induction false} NodeBasisEval(s: int, k: nat, n: nat, t: int)
    requires k < n
    ensures EvalPoly(NodeBasis(s, k, n), s + t) == Falling(t, k)
  {
    if k == 0 {
      EvalZeros(NodeBasis(s, 0, n)[1..], s + t);
      assert (s + t) * 0 == 0;
    } else {
      NodeBasisEval(s, k - 1, n, t);
      EvalTimesLinear(NodeBasis(s, k - 1, n), -(s + (k - 1)), s + t);
    }
  }

  /** The monomial form of the Newton form with the first `m` terms. */
  function NewtonCoeffs(newton: seq<int>, s: int, m: nat): (c: seq<int>)
    requires m <= |newton|
    ensures |c| == |newton|
  {
    if m == 0 then Zeros(|newton|)
    else VAdd(NewtonCoeffs(newton, s, m - 1), Scale(newton[m - 1], NodeBasis(s, m - 1, |newton|)))
  }

  lemma NewtonAtStep(values: seq<int>, invs: seq<int>, m: nat, t: int)
    requires 0 < m <= |values| == |invs|
    ensures NewtonAt(values, invs, 0, m, t)
         == NewtonAt(values, invs, 0, m - 1, t) + Falling(t, m - 1) * Divided(values, invs, m - 1, m - 1)
  {
  }

  lemma NewtonCoeffsStep(newton: seq<int>, s: int, m: nat)
    requires 0 < m <= |newton|
    ensures NewtonCoeffs(newton, s, m)
         == VAdd(NewtonCoeffs(newton, s, m - 1), Scale(newton[m - 1], NodeBasis(s, m - 1, |newton|)))
  {
  }

  lemma {:induction false} NewtonCoeffsEval(values: seq<int>, invs: seq<int>, newton: seq<int>, s: int, m: nat, t: int)
    requires |newton| == |values| == |invs| && m <= |newton|
    requires forall k :: 0 <= k < |newton| ==> newton[k] == Divided(values, invs, k, k)
    ensures EvalPoly(NewtonCoeffs(newton, s, m), s + t) == NewtonAt(values, invs, 0, m, t)
  {
    if m == 0 {
      EvalZeros(Zeros(|newton|), s + t);
    } else {
      hide *;
      NewtonCoeffsEval(values, invs, newton, s, m - 1, t);
      NewtonCoeffsStep(newton, s, m);
      NewtonAtStep(values, invs, m, t);
      NodeBasisEval(s, m - 1, |newton|, t);
      OneMoreTerm(NewtonCoeffs(newton, s, m - 1), newton[m - 1], NodeBasis(s, m - 1, |newton|), s + t,
                  Falling(t, m - 1));
    }
  }

  lemma OneMoreTerm(c: seq<int>, w: int, basis: seq<int>, x: int, b: int)
    requires |c| == |basis| && EvalPoly(basis, x) == b
    ensures EvalPoly(VAdd(c, Scale(w, basis)), x) == EvalPoly(c, x) + b * w
  {
    EvalAddScale(c, w, basis, x);
    ProductCommutes(w, b);
  }

  lemma ProductCommutes(x: int, y: int)
    ensures x * y == y * x
  {
  }

  ghost predicate Interpolates(f: Field, coeffs: seq<int>, start: int, values: seq<int>) {
    && |coeffs| == |values|
    && forall k :: 0 <= k < |values| ==> Same(f, AtNode(coeffs, start, k), values[k])
  }

  lemma NewtonCoeffsInterpolate(f: Field, values: seq<int>, invs: seq<int>, newton: seq<int>, s: int)
    requires IsField(f) && |newton| == |values| && InverseTable(f, invs, |values|)
    requires forall k :: 0 <= k < |newton| ==> newton[k] == Divided(values, invs, k, k)
    ensures Interpolates(f, NewtonCoeffs(newton, s, |newton|), s, values)
  {
    var c := NewtonCoeffs(newton, s, |newton|);
    forall k | 0 <= k < |values| ensures Same(f, AtNode(c, s, k), values[k]) {
      NewtonCoeffsEval(values, invs, newton, s, |newton|, k);
      NewtonInterpolates(f, values, invs, 0, |values|, k);
    }
  }

  /** The interpolant is determined everywhere, whatever routine computed it. */
  lemma InterpolantsAgree(f: Field, c: seq<int>, d: seq<int>, start: int, values: seq<int>, x: int)
    requires IsField(f) && NodesDistinct(f, |values|)
    requires Interpolates(f, c, start, values) && Interpolates(f, d, start, values)
    ensures Same(f, EvalPoly(c, x), EvalPoly(d, x))
  {
    InterpolantUnique(f, c, d, start, x);
  }

  /** `interpolate_to_coeffs`. */
  method InterpolateToCoeffs(f: Field, domainStart: int, values: seq<int>) returns (coeffs: seq<int>)
    requires IsField(f) && values != [] && NodesDistinct(f, |values|)
    ensures Interpolates(f, coeffs, domainStart, values)
  {
    ghost var invs := seq(|values|, k => f.inv(k));
    assert InverseTable(f, invs, |values|) by {
      forall k | 0 < k < |values| ensures Same(f, k * invs[k], 1) { InverseWorks(f, k); }
    }
    var newton := DividedDifferences(f, values, invs);
    coeffs := NewtonToMonomial(newton, domainStart);
    NewtonCoeffsInterpolate(f, values, invs, newton, domainStart);
  }

  /** The table `dd`, refined in place for every order. */
  method DividedDifferences(f: Field, values: seq<int>, ghost invs: seq<int>) returns (newton: seq<int>)
    requires values != [] && |values| == |invs| && forall k :: 0 < k < |values| ==> invs[k] == f.inv(k)
    ensures |newton| == |values| && forall k :: 0 <= k < |values| ==> newton[k] == Divided(values, invs, k, k)
  {
    var dd := new int[|values|](k requires 0 <= k < |values| => values[k]);
    for step := 1 to |values|
      invariant PartlyDivided(dd[..], values, invs, step - 1)
    {
      DividedStep(dd, values, invs, step, f.inv(step));
    }
    newton := dd[..];
  }

  /** Entries from `step` on hold differences of that order, earlier ones are final. */
  ghost predicate PartlyDivided(dd: seq<int>, values: seq<int>, invs: seq<int>, step: nat) {
    && |dd| == |values| == |invs|
    && forall j {:trigger dd[j]} :: 0 <= j < |dd| ==> dd[j] == Divided(values, invs, if j < step then j else step, j)
  }

  lemma NewtonStart(newton: seq<int>, start: int, coeffs: seq<int>, basis: seq<int>)
    requires |newton| == |coeffs| == |basis| > 0
    requires forall k :: 0 <= k < |coeffs| ==> coeffs[k] == 0
    requires forall k :: 0 <= k < |basis| ==> basis[k] == if k == 0 then 1 else 0
    ensures coeffs == NewtonCoeffs(newton, start, 0) && basis == NodeBasis(start, 0, |newton|)
  {
  }

  /** Newton form to monomial form, the node product growing in place. */
  method NewtonToMonomial(newton: seq<int>, start: int) returns (result: seq<int>)
    requires newton != []
    ensures result == NewtonCoeffs(newton, start, |newton|)
  {
    hide *;
    var n := |newton|;
    var coeffs := new int[n](_ => 0);
    var basis := new int[n](k => if k == 0 then 1 else 0);
    NewtonStart(newton, start, coeffs[..], basis[..]);
    for k := 0 to n
      invariant k < n ==> basis[..] == NodeBasis(start, k, n)
      invariant coeffs[..] == NewtonCoeffs(newton, start, k)
    {
      Accumulate(coeffs, newton, basis, start, k);
      ghost var sum := coeffs[..];
      if k < n - 1 {
        MultiplyByLinear(basis, start, k);
      }
      assert coeffs[..] == sum;
    }
    result := coeffs[..];
  }

  /** One pass of the divided differences, from the last node down. */
  method DividedStep(dd: array<int>, ghost values: seq<int>, ghost invs: seq<int>, step: nat, denomInv: int)
    requires 1 <= step < dd.Length && PartlyDivided(dd[..], values, invs, step - 1) && denomInv == invs[step]
    modifies dd
    ensures PartlyDivided(dd[..], values, invs, step)
  {
    hide Divided;
    for i := dd.Length downto step
      invariant forall j {:trigger dd[j]} :: i <= j < dd.Length ==> dd[j] == Divided(values, invs, step, j)
      invariant forall j {:trigger dd[j]} :: 0 <= j < i ==>
        dd[j] == Divided(values, invs, if j < step - 1 then j else step - 1, j)
    {
      DividedNext(values, invs, step, i);
      dd[i] := (dd[i] - dd[i - 1]) * denomInv;
    }
  }

  lemma DividedNext(values: seq<int>, invs: seq<int>, step: nat, i: nat)
    requires 1 <= step <= i < |values| == |invs|
    ensures Divided(values, invs, step, i)
         == (Divided(values, invs, step - 1, i) - Divided(values, invs, step - 1, i - 1)) * invs[step]
  {
  }

  /** `coeffs += newton[k] * basis`, on the `k + 1` coefficients the basis has. */
  method Accumulate(coeffs: array<int>, newton: seq<int>, basis: array<int>, start: int, k: nat)
    requires coeffs != basis && k < |newton| == coeffs.Length == basis.Length
    requires coeffs[..] == NewtonCoeffs(newton, start, k) && basis[..] == NodeBasis(start, k, |newton|)
    modifies coeffs
    ensures coeffs[..] == NewtonCoeffs(newton, start, k + 1)
  {
    hide *;
    ghost var before, target, node := coeffs[..], NewtonCoeffs(newton, start, k + 1), basis[..];
    AccumulatedTail(newton, start, k);
    for i := 0 to k + 1
      invariant basis[..] == node
      invariant forall j {:trigger coeffs[j]} :: 0 <= j < i ==> coeffs[j] == target[j]
      invariant forall j {:trigger coeffs[j]} :: i <= j < coeffs.Length ==> coeffs[j] == before[j]
    {
      AccumulatedEntry(newton, start, k, i);
      assert basis[i] == node[i];
      coeffs[i] := coeffs[i] + newton[k] * basis[i];
    }
  }

  lemma AccumulatedEntry(newton: seq<int>, start: int, k: nat, i: nat)
    requires i <= k < |newton|
    ensures NewtonCoeffs(newton, start, k + 1)[i]
         == NewtonCoeffs(newton, start, k)[i] + newton[k] * NodeBasis(start, k, |newton|)[i]
  {
  }

  lemma AccumulatedTail(newton: seq<int>, start: int, k: nat)
    requires k < |newton|
    ensures forall j :: k < j < |newton| ==> NewtonCoeffs(newton, start, k + 1)[j] == NewtonCoeffs(newton, start, k)[j]
  {
    assert newton[k] * 0 == 0;
  }

  /** `basis *= x - node` in place for the `k`-th node, from the top coefficient down. */
  method MultiplyByLinear(basis: array<int>, start: int, k: nat)
    requires k + 1 < basis.Length && basis[..] == NodeBasis(start, k, basis.Length)
    modifies basis
    ensures basis[..] == NodeBasis(start, k + 1, basis.Length)
  {
    hide *;
    var shift := -(start + k);
    ghost var before, target := basis[..], NodeBasis(start, k + 1, basis.Length);
    NodeBasisStep(start, k, basis.Length);
    TimesLinearEntries(before, shift, k);
    for i := k + 2 downto 1
      invariant forall j {:trigger basis[j]} :: 0 <= j < basis.Length && (j < i || k + 2 <= j) ==> basis[j] == before[j]
      invariant forall j {:trigger basis[j]} :: i <= j < k + 2 ==> basis[j] == target[j]
    {
      basis[i] := basis[i - 1] + basis[i] * shift;
    }
    basis[0] := basis[0] * shift;
  }

  lemma TimesLinearEntries(b: seq<int>, shift: int, k: nat)
    requires k + 1 < |b|
    requires forall j {:trigger b[j]} :: k < j < |b| ==> b[j] == 0
    ensures var r := TimesLinear(b, shift);
      && r[0] == b[0] * shift
      && (forall j {:trigger r[j]} :: 0 < j < k + 2 ==> r[j] == b[j - 1] + b[j] * shift)
      && (forall j {:trigger r[j]} :: k + 2 <= j < |b| ==> r[j] == b[j])
      && r[k + 1] == b[k]
  {
    var r := TimesLinear(b, shift);
    forall j | 0 <= j < |b| ensures r[j] == (if j == 0 then 0 else b[j - 1]) + b[j] * shift {
      assert r[j] == ([0] + b[..|b| - 1])[j] + shift * b[j];
    }
    assert 0 * shift == 0;
    forall j | k + 1 <= j < |b| ensures r[j] == b[j - 1] {
      assert r[j] == b[j - 1] + b[j] * shift;
    }
  }

  // The const-size routine: inverses from one inversion, differences towards the front.

  function Factorial(k: nat): int {
    if k == 0 then 1 else Factorial(k - 1) * k
  }

  lemma {:induction false} FactorialNonzero(f: Field, k: nat, n: nat)
    requires IsField(f) && k < n && NodesDistinct(f, n)
    ensures !Same(f, Factorial(k), 0)
  {
    if k > 0 {
      FactorialNonzero(f, k - 1, n);
      NonzeroProduct(f, Factorial(k - 1), k);
    }
  }

  /** The inverses of `1, .., n - 1` from the single inverse of their product. */
  method PrefixInverses(f: Field, n: nat) returns (inverses: seq<int>)
    requires IsField(f) && 0 < n && NodesDistinct(f, n)
    ensures InverseTable(f, inverses, n)
  {
    var degree := n - 1;
    var prefix := [1];
    for m := 1 to n
      invariant |prefix| == m && forall j :: 0 <= j < m ==> prefix[j] == Factorial(j)
    {
      prefix := prefix + [prefix[m - 1] * m];
    }
    FactorialNonzero(f, degree, n);
    var total := Inverse(f, prefix[degree]).value;
    InverseWorks(f, Factorial(degree));
    var right := 1;
    inverses := Zeros(n);
    for idx := n downto 1
      invariant |inverses| == n && right * Factorial(idx - 1) == Factorial(degree)
      invariant forall j :: idx <= j < n ==> Same(f, j * inverses[j], 1)
    {
      RegroupInverse(idx, Factorial(idx - 1), right, total);
      FactorialStep(idx);
      hide *;
      inverses := inverses[idx := prefix[idx - 1] * right * total];
      right := right * idx;
    }
  }

  lemma FactorialStep(k: nat)
    requires 0 < k
    ensures Factorial(k) == Factorial(k - 1) * k
  {
  }

  lemma RegroupInverse(idx: int, p: int, right: int, total: int)
    ensures idx * (p * right * total) == right * (p * idx) * total
    ensures right * idx * p == right * (p * idx)
  {
  }

  /** One pass of the differences, from the front. */
  method ForwardStep(dd: array<int>, ghost values: seq<int>, inverses: seq<int>, order: nat)
    requires |values| == |inverses| == dd.Length && 1 <= order < dd.Length
    requires forall i {:trigger dd[i]} :: 0 <= i < dd.Length - order + 1 ==>
      dd[i] == Divided(values, inverses, order - 1, i + order - 1)
    modifies dd
    ensures forall i {:trigger dd[i]} :: 0 <= i < dd.Length - order ==>
      dd[i] == Divided(values, inverses, order, i + order)
  {
    hide Divided;
    for i := 0 to dd.Length - order
      invariant forall j {:trigger dd[j]} :: 0 <= j < i ==> dd[j] == Divided(values, inverses, order, j + order)
      invariant forall j {:trigger dd[j]} :: i <= j < dd.Length - order + 1 ==>
        dd[j] == Divided(values, inverses, order - 1, j + order - 1)
    {
      DividedNext(values, inverses, order, i + order);
      dd[i] := (dd[i + 1] - dd[i]) * inverses[order];
    }
  }

  /** Differences overwritten towards the front; the order-`m` value is `dd[0]`. */
  method ForwardDifferences(values: seq<int>, inverses: seq<int>) returns (newton: seq<int>)
    requires values != [] && |values| == |inverses|
    ensures |newton| == |values| && forall k :: 0 <= k < |values| ==> newton[k] == Divided(values, inverses, k, k)
  {
    var n := |values|;
    var dd := new int[n](k requires 0 <= k < n => values[k]);
    newton := [dd[0]];
    hide Divided;
    for order := 1 to n
      invariant |newton| == order && forall k :: 0 <= k < order ==> newton[k] == Divided(values, inverses, k, k)
      invariant forall i {:trigger dd[i]} :: 0 <= i < n - order + 1 ==>
        dd[i] == Divided(values, inverses, order - 1, i + order - 1)
    {
      ForwardStep(dd, values, inverses, order);
      newton := newton + [dd[0]];
    }
  }

  /** `basis *= x - node` in place, the leading coefficient moved up last. */
  method MultiplyKeepingLast(basis: array<int>, start: int, degree: nat)
    requires degree + 1 < basis.Length && basis[..] == NodeBasis(start, degree, basis.Length)
    modifies basis
    ensures basis[..] == NodeBasis(start, degree + 1, basis.Length)
  {
    hide *;
    var node := start + degree;
    ghost var before, target := basis[..], NodeBasis(start, degree + 1, basis.Length);
    NodeBasisStep(start, degree, basis.Length);
    TimesLinearKept(before, node, degree);
    var last := basis[degree];
    for idx := degree + 1 downto 1
      invariant forall j {:trigger basis[j]} :: 0 <= j < basis.Length && (j < idx || degree < j) ==>
        basis[j] == before[j]
      invariant forall j {:trigger basis[j]} :: idx <= j <= degree ==> basis[j] == target[j]
    {
      var previous := basis[idx];
      basis[idx] := basis[idx - 1] - previous * node;
    }
    basis[0] := -(basis[0] * node);
    basis[degree + 1] := last;
  }

  lemma TimesLinearKept(b: seq<int>, node: int, k: nat)
    requires k + 1 < |b|
    requires forall j {:trigger b[j]} :: k < j < |b| ==> b[j] == 0
    ensures var r := TimesLinear(b, -node);
      && r[0] == -(b[0] * node) && r[k + 1] == b[k]
      && (forall j {:trigger r[j]} :: 0 < j <= k ==> r[j] == b[j - 1] - b[j] * node)
      && (forall j {:trigger r[j]} :: k + 2 <= j < |b| ==> r[j] == b[j])
  {
    var r := TimesLinear(b, -node);
    TimesLinearEntries(b, -node, k);
    hide *;
    Negated(b[0], node);
    forall j | 0 < j <= k ensures r[j] == b[j - 1] - b[j] * node {
      Negated(b[j], node);
    }
  }

  lemma Negated(x: int, node: int)
    ensures x * -node == -(x * node)
  {
  }

  method NewtonToMonomialKeepingLast(newton: seq<int>, start: int) returns (result: seq<int>)
    requires newton != []
    ensures result == NewtonCoeffs(newton, start, |newton|)
  {
    hide *;
    var n := |newton|;
    var coeffs := new int[n](_ => 0);
    var basis := new int[n](k => if k == 0 then 1 else 0);
    NewtonStart(newton, start, coeffs[..], basis[..]);
    for k := 0 to n
      invariant k < n ==> basis[..] == NodeBasis(start, k, n)
      invariant coeffs[..] == NewtonCoeffs(newton, start, k)
    {
      Accumulate(coeffs, newton, basis, start, k);
      ghost var sum := coeffs[..];
      if k < n - 1 {
        MultiplyKeepingLast(basis, start, k);
      }
      assert coeffs[..] == sum;
    }
    result := coeffs[..];
  }

  /** `LagrangePolynomial::interpolate_coeffs`, on the centered domain. */
  method InterpolateCoeffsCentered(f: Field, values: seq<int>) returns (coeffs: seq<int>)
    requires IsField(f) && values != [] && NodesDistinct(f, |values|)
    ensures Interpolates(f, coeffs, -((|values| - 1) / 2), values)
  {
    var start := -((|values| - 1) / 2);
    var inverses := PrefixInverses(f, |values|);
    var newton := ForwardDifferences(values, inverses);
    coeffs := NewtonToMonomialKeepingLast(newton, start);
    NewtonCoeffsInterpolate(f, values, inverses, newton, start);
  }
}

/** The barycentric Lagrange weights of consecutive integer nodes. */
module Lagrange {
  import opened Results
  import opened Fields
  import opened Vectors
  import opened Univariate
  import opened Interpolation

  function Gap(x: int, node: int): int {
    x - node
  }

  /** The product of `x - (s + j)` over `j < m`, `j != i`. */
  function Except(s: int, i: nat, m: nat, x: int): int {
    if m == 0 then 1
    else if m - 1 == i then Except(s, i, m - 1, x)
    else Except(s, i, m - 1, x) * Gap(x, s + (m - 1))
  }

  /** Its coefficients, padded to `n`. */
  function ExceptBasis(s: int, i: nat, m: nat, n: nat): (b: seq<int>)
    requires 0 < n && i < n && m <= n
    ensures |b| == n
    ensures forall j {:trigger b[j]} :: (if i < m then m - 1 else m) < j < n ==> b[j] == 0
  {
    if m == 0 then [1] + Zeros(n - 1)
    else if m - 1 == i then ExceptBasis(s, i, m - 1, n)
    else TimesLinear(ExceptBasis(s, i, m - 1, n), -(s + (m - 1)))
  }

  lemma ExceptStep(s: int, i: nat, m: nat, n: nat, x: int)
    requires i < n && 0 < m <= n
    ensures Except(s, i, m, x)
         == if m - 1 == i then Except(s, i, m - 1, x) else Except(s, i, m - 1, x) * Gap(x, s + (m - 1))
    ensures ExceptBasis(s, i, m, n)
         == if m - 1 == i then ExceptBasis(s, i, m - 1, n) else TimesLinear(ExceptBasis(s, i, m - 1, n), -(s + (m - 1)))
  {
  }

  lemma {:induction false} ExceptBasisEval(s: int, i: nat, m: nat, n: nat, x: int)
    requires i < n && m <= n
    ensures EvalPoly(ExceptBasis(s, i, m, n), x) == Except(s, i, m, x)
  {
    hide *;
    if m == 0 {
      ExceptNone(s, i, n, x);
    } else {
      ExceptStep(s, i, m, n, x);
      ExceptBasisEval(s, i, m - 1, n, x);
      if m - 1 != i {
        ExceptLastZero(s, i, m - 1, n);
        EvalTimesGap(ExceptBasis(s, i, m - 1, n), s + (m - 1), x);
      }
    }
  }

  lemma ExceptNone(s: int, i: nat, n: nat, x: int)
    requires i < n
    ensures EvalPoly(ExceptBasis(s, i, 0, n), x) == Except(s, i, 0, x)
  {
    assert ([1] + Zeros(n - 1))[1..] == Zeros(n - 1);
    EvalZeros(Zeros(n - 1), x);
    assert x * 0 == 0;
  }

  lemma ExceptLastZero(s: int, i: nat, m: nat, n: nat)
    requires i < n && m < n && m != i
    ensures ExceptBasis(s, i, m, n)[n - 1] == 0
  {
  }

  lemma EvalTimesGap(b: seq<int>, node: int, x: int)
    requires b != [] && b[|b| - 1] == 0
    ensures EvalPoly(TimesLinear(b, -node), x) == EvalPoly(b, x) * Gap(x, node)
  {
    EvalTimesLinear(b, -node, x);
    assert x + -node == Gap(x, node);
  }

  /** At another node the product has a zero factor. */
  lemma {:induction false} ExceptAtOther(s: int, i: nat, m: nat, k: nat)
    requires k < m && k != i
    ensures Except(s, i, m, s + k) == 0
  {
    if m - 1 != k {
      ExceptAtOther(s, i, m - 1, k);
    }
  }

  lemma {:induction false} ExceptNonzero(f: Field, s: int, i: nat, m: nat, n: nat)
    requires IsField(f) && i < n && m <= n && NodesDistinct(f, n)
    ensures !Same(f, Except(s, i, m, s + i), 0)
    decreases m
  {
    if m == 0 {
    } else {
      ExceptNonzero(f, s, i, m - 1, n);
      if m - 1 < i {
        NonzeroProduct(f, Except(s, i, m - 1, s + i), i - (m - 1));
      } else if m - 1 > i {
        var d := m - 1 - i;
        if Same(f, -d, 0) {
          SameSub(f, 0, 0, -d, 0);
        }
        NonzeroProduct(f, Except(s, i, m - 1, s + i), -d);
      }
    }
  }

  /** The full product splits off any one factor. */
  lemma {:induction false} FullProduct(s: int, i: nat, m: nat, x: int)
    ensures Except(s, m, m, x) == if i < m then (x - (s + i)) * Except(s, i, m, x) else Except(s, i, m, x)
  {
    if m > 0 {
      FullProduct(s, i, m - 1, x);
      ExceptBeyond(s, m, m - 1, x);
      Regroup(x - (s + i), Except(s, i, m - 1, x), x - (s + (m - 1)));
    }
  }

  lemma {:induction false} ExceptBeyond(s: int, i: nat, m: nat, x: int)
    requires m <= i
    ensures Except(s, i, m, x) == Except(s, m, m, x)
  {
    if m > 0 {
      ExceptBeyond(s, i, m - 1, x);
      ExceptBeyond(s, m, m - 1, x);
    }
  }

  lemma Regroup(a: int, e: int, b: int)
    ensures (a * e) * b == a * (e * b)
  {
  }

  /** `sum_(i < m) values[i] * weights[i] * prod_(j != i) (x - x_j)`. */
  function LagrangeCoeffs(s: int, scaled: seq<int>, m: nat): (c: seq<int>)
    requires m <= |scaled| && scaled != []
    ensures |c| == |scaled|
  {
    if m == 0 then Zeros(|scaled|)
    else VAdd(LagrangeCoeffs(s, scaled, m - 1), Scale(scaled[m - 1], ExceptBasis(s, m - 1, |scaled|, |scaled|)))
  }

  function LagrangeSum(s: int, scaled: seq<int>, m: nat, x: int): int
    requires m <= |scaled|
  {
    if m == 0 then 0
    else LagrangeSum(s, scaled, m - 1, x) + scaled[m - 1] * Except(s, m - 1, |scaled|, x)
  }

  lemma {:induction false} LagrangeCoeffsEval(s: int, scaled: seq<int>, m: nat, x: int)
    requires m <= |scaled| && scaled != []
    ensures EvalPoly(LagrangeCoeffs(s, scaled, m), x) == LagrangeSum(s, scaled, m, x)
  {
    hide *;
    LagrangeSteps(s, scaled, m, x);
    if m == 0 {
      EvalZeros(Zeros(|scaled|), x);
    } else {
      LagrangeCoeffsEval(s, scaled, m - 1, x);
      EvalAddScale(LagrangeCoeffs(s, scaled, m - 1), scaled[m - 1], ExceptBasis(s, m - 1, |scaled|, |scaled|), x);
      ExceptBasisEval(s, m - 1, |scaled|, |scaled|, x);
    }
  }

  lemma LagrangeSteps(s: int, scaled: seq<int>, m: nat, x: int)
    requires m <= |scaled| && scaled != []
    ensures m == 0 ==> LagrangeCoeffs(s, scaled, m) == Zeros(|scaled|) && LagrangeSum(s, scaled, m, x) == 0
    ensures 0 < m ==> (
      && LagrangeCoeffs(s, scaled, m)
           == VAdd(LagrangeCoeffs(s, scaled, m - 1), Scale(scaled[m - 1], ExceptBasis(s, m - 1, |scaled|, |scaled|)))
      && LagrangeSum(s, scaled, m, x)
           == LagrangeSum(s, scaled, m - 1, x) + scaled[m - 1] * Except(s, m - 1, |scaled|, x))
  {
  }

  /** At node `k` every term but the `k`-th vanishes. */
  lemma {:induction false} LagrangeSumAtNode(s: int, scaled: seq<int>, m: nat, k: nat)
    requires m <= |scaled| && k < |scaled|
    ensures LagrangeSum(s, scaled, m, s + k) == if k < m then scaled[k] * Except(s, k, |scaled|, s + k) else 0
  {
    if m > 0 {
      LagrangeSumAtNode(s, scaled, m - 1, k);
      if m - 1 != k {
        ExceptAtOther(s, m - 1, |scaled|, k);
        assert scaled[m - 1] * 0 == 0;
      }
    }
  }

  /** Lagrange's form equals any interpolant everywhere. */
  lemma LagrangeIsInterpolant(f: Field, s: int, values: seq<int>, weights: seq<int>, coeffs: seq<int>, x: int)
    requires IsField(f) && values != [] && |weights| == |values| && NodesDistinct(f, |values|)
    requires Interpolates(f, coeffs, s, values)
    requires forall i :: 0 <= i < |values| ==> Same(f, weights[i] * Except(s, i, |values|, s + i), 1)
    ensures Same(f, LagrangeSum(s, Times(values, weights), |values|, x), EvalPoly(coeffs, x))
  {
    var n, scaled := |values|, Times(values, weights);
    var c := LagrangeCoeffs(s, scaled, n);
    forall k | 0 <= k < n ensures Same(f, AtNode(c, s, k), AtNode(coeffs, s, k)) {
      LagrangeCoeffsEval(s, scaled, n, s + k);
      LagrangeSumAtNode(s, scaled, n, k);
      var e := Except(s, k, n, s + k);
      SameMul(f, values[k], values[k], weights[k] * e, 1);
      Regroup(values[k], weights[k], e);
      assert Same(f, AtNode(coeffs, s, k), values[k]);
    }
    InterpolantUnique(f, c, coeffs, s, x);
    LagrangeCoeffsEval(s, scaled, n, x);
  }

  /** Slot by slot product. */
  function Times(xs: seq<int>, ys: seq<int>): (r: seq<int>)
    requires |xs| == |ys|
    ensures |r| == |xs| && forall i {:trigger r[i]} :: 0 <= i < |xs| ==> r[i] == xs[i] * ys[i]
  {
    seq(|xs|, i requires 0 <= i < |xs| => xs[i] * ys[i])
  }

  /** What the basis values promise: dotted with values they evaluate the interpolant. */
  ghost predicate EvaluatesAt(f: Field, basis: seq<int>, s: int, r: int) {
    forall values, coeffs {:trigger Interpolates(f, coeffs, s, values)} ::
      |values| == |basis| && Interpolates(f, coeffs, s, values) ==>
        Same(f, Dot(basis, values), EvalPoly(coeffs, r))
  }

  /** The early exit: the node `r` coincides with, if any. */
  method FindNode(f: Field, s: int, n: nat, r: int) returns (hit: Option<nat>)
    ensures hit.Some? ==> hit.value < n && Same(f, r, s + hit.value)
    ensures hit.None? ==> Avoids(f, s, n, r)
  {
    for i := 0 to n
      invariant Avoids(f, s, i, r)
    {
      if Same(f, r, s + i) {
        return Some(i);
      }
    }
    hit := None;
  }

  ghost predicate Avoids(f: Field, s: int, n: nat, r: int) {
    forall x :: s <= x < s + n ==> !Same(f, r, x)
  }

  /** The barycentric weight of node `i`: the inverse of `prod_(j != i) (i - j)`. */
  method Weight(f: Field, s: int, i: nat, n: nat) returns (weight: int)
    requires IsField(f) && i < n && NodesDistinct(f, n)
    ensures Same(f, weight * Except(s, i, n, s + i), 1)
  {
    var w := 1;
    for j := 0 to n
      invariant w == Except(s, i, j, s + i)
    {
      if i != j {
        assert i - j == s + i - (s + j);
        w := w * (i - j);
      }
    }
    ExceptNonzero(f, s, i, n, n);
    weight := Inverse(f, w).value;
    InverseWorks(f, w);
    assert w * weight == weight * w;
  }

  method DifferenceProduct(s: int, n: nat, r: int) returns (full: int)
    ensures full == Except(s, n, n, r)
  {
    full := 1;
    for i := 0 to n
      invariant full == Except(s, i, i, r)
    {
      ExceptBeyond(s, i + 1, i, r);
      full := full * (r - (s + i));
    }
  }

  /** `lagrange_evals`. */
  method LagrangeEvals(f: Field, domainStart: int, n: nat, r: int) returns (result: seq<int>)
    requires IsField(f) && 0 < n && NodesDistinct(f, n)
    ensures |result| == n && EvaluatesAt(f, result, domainStart, r)
  {
    var hit := FindNode(f, domainStart, n, r);
    if hit.Some? {
      UnitEvaluates(f, n, hit.value, domainStart, r);
      return Zeros(n)[hit.value := 1];
    }
    var full := DifferenceProduct(domainStart, n, r);
    ghost var weights := [];
    result := [];
    for i := 0 to n
      invariant |weights| == |result| == i
      invariant forall k :: 0 <= k < i ==> Same(f, weights[k] * Except(domainStart, k, n, domainStart + k), 1)
      invariant forall k :: 0 <= k < i ==> Same(f, result[k], weights[k] * Except(domainStart, k, n, r))
    {
      var weight := Weight(f, domainStart, i, n);
      var diff := r - (domainStart + i);
      SameDifference(f, r, domainStart + i);
      FullProduct(domainStart, i, n, r);
      CancelFactor(f, diff, Except(domainStart, i, n, r), weight, f.inv(diff));
      result := result + [full * weight * Inverse(f, diff).value];
      weights := weights + [weight];
    }
    BarycentricEvaluates(f, result, weights, domainStart, r);
  }

  lemma CancelFactor(f: Field, diff: int, e: int, weight: int, inv: int)
    requires IsField(f) && !Same(f, diff, 0) && inv == f.inv(diff)
    ensures Same(f, (diff * e) * weight * inv, weight * e)
  {
    InverseWorks(f, diff);
    SameMul(f, diff * inv, 1, weight * e, weight * e);
    assert (diff * e) * weight * inv == (diff * inv) * (weight * e);
  }

  lemma UnitEvaluates(f: Field, n: nat, i: nat, s: int, r: int)
    requires IsField(f) && i < n && Same(f, r, s + i)
    ensures EvaluatesAt(f, Zeros(n)[i := 1], s, r)
  {
    forall values, coeffs | |values| == n && Interpolates(f, coeffs, s, values)
      ensures Same(f, Dot(Zeros(n)[i := 1], values), EvalPoly(coeffs, r))
    {
      DotUnit(values, i);
      assert Same(f, AtNode(coeffs, s, i), values[i]);
      EvalSame(f, coeffs, r, s + i);
    }
  }

  lemma {:induction false} DotUnit(values: seq<int>, i: nat)
    requires i < |values|
    ensures Dot(Zeros(|values|)[i := 1], values) == values[i]
  {
    var u := Zeros(|values|)[i := 1];
    if i == 0 {
      DotZeros(u[1..], values[1..]);
    } else {
      assert u[1..] == Zeros(|values| - 1)[i - 1 := 1];
      DotUnit(values[1..], i - 1);
    }
  }

  lemma BarycentricEvaluates(f: Field, basis: seq<int>, weights: seq<int>, s: int, r: int)
    requires IsField(f) && |basis| == |weights| && basis != [] && NodesDistinct(f, |basis|)
    requires forall i :: 0 <= i < |weights| ==> Same(f, weights[i] * Except(s, i, |weights|, s + i), 1)
    requires forall i :: 0 <= i < |basis| ==> Same(f, basis[i], weights[i] * Except(s, i, |weights|, r))
    ensures EvaluatesAt(f, basis, s, r)
  {
    forall values, coeffs | |values| == |basis| && Interpolates(f, coeffs, s, values)
      ensures Same(f, Dot(basis, values), EvalPoly(coeffs, r))
    {
      LagrangeIsInterpolant(f, s, values, weights, coeffs, r);
      LagrangeDot(f, basis, weights, values, s, r, |basis|);
      assert basis[..|basis|] == basis && values[..|basis|] == values;
    }
  }

  lemma LagrangeSumStep(s: int, values: seq<int>, weights: seq<int>, m: nat, x: int)
    requires 0 < m <= |weights| == |values|
    ensures LagrangeSum(s, Times(values, weights), m, x)
         == LagrangeSum(s, Times(values, weights), m - 1, x)
            + (values[m - 1] * weights[m - 1]) * Except(s, m - 1, |weights|, x)
  {
  }

  lemma LagrangeTerm(f: Field, basis: int, weight: int, e: int, value: int)
    requires IsField(f) && Same(f, basis, weight * e)
    ensures Same(f, basis * value, (value * weight) * e)
  {
    SameMul(f, basis, weight * e, value, value);
    assert (weight * e) * value == (value * weight) * e;
  }

  lemma {:induction false} LagrangeDot(f: Field, basis: seq<int>, weights: seq<int>, values: seq<int>, s: int, r: int,
                                       m: nat)
    requires IsField(f) && m <= |basis| == |weights| == |values|
    requires forall i :: 0 <= i < |basis| ==> Same(f, basis[i], weights[i] * Except(s, i, |weights|, r))
    ensures Same(f, Dot(basis[..m], values[..m]), LagrangeSum(s, Times(values, weights), m, r))
  {
    if m > 0 {
      hide *;
      var k := m - 1;
      var e := Except(s, k, |weights|, r);
      LagrangeDot(f, basis, weights, values, s, r, k);
      DotSnoc(basis, values, k);
      LagrangeTerm(f, basis[k], weights[k], e, values[k]);
      LagrangeSumStep(s, values, weights, m, r);
      SameAdd(f, Dot(basis[..k], values[..k]), LagrangeSum(s, Times(values, weights), k, r),
              basis[k] * values[k], (values[k] * weights[k]) * e);
    }
  }
}
