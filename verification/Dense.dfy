/** Dense multilinear polynomials, bound in place one variable at a time. */
module Dense {
  import opened Fields
  import opened Vectors
  import opened Multilinear
  import opened EqTables

  datatype BindingOrder = HighToLow | LowToHigh

  class Polynomial {
    var evals: seq<int>
    var numVars: nat

    ghost predicate Valid()
      reads this
    {
      |evals| == Pow2(numVars)
    }

    constructor (table: seq<int>, ghost n: nat)
      requires |table| == Pow2(n)
      ensures Valid() && evals == table && numVars == n
    {
      evals := table;
      numVars := TrailingZeros(|table|);
      TrailingZerosOfPow2(n);
    }

    method BindHighToLow(scalar: int)
      requires Valid() && 0 < numVars
      modifies this
      ensures Valid() && numVars == old(numVars) - 1
      ensures evals == BindHigh(old(evals), scalar)
    {
      ghost var before := evals;
      var half := |evals| / 2;
      for i := 0 to half
        invariant |evals| == 2 * half && numVars == old(numVars)
        invariant forall k {:trigger evals[k]} :: i <= k < 2 * half ==> evals[k] == before[k]
        invariant forall k {:trigger evals[k]} :: 0 <= k < i ==> evals[k] == BindHigh(before, scalar)[k]
      {
        var lo, hi := evals[i], evals[i + half];
        evals := evals[i := lo + scalar * (hi - lo)];
      }
      evals := evals[..half];
      numVars := numVars - 1;
    }

    method BindLowToHigh(scalar: int)
      requires Valid() && 0 < numVars
      modifies this
      ensures Valid() && numVars == old(numVars) - 1
      ensures evals == BindLow(old(evals), scalar)
    {
      ghost var before := evals;
      var half := |evals| / 2;
      for i := 0 to half
        invariant |evals| == 2 * half && numVars == old(numVars)
        invariant forall k {:trigger evals[k]} :: i <= k < 2 * half ==> evals[k] == before[k]
        invariant forall k {:trigger evals[k]} :: 0 <= k < i ==> evals[k] == BindLow(before, scalar)[k]
      {
        var lo, hi := evals[2 * i], evals[2 * i + 1];
        evals := evals[i := lo + scalar * (hi - lo)];
      }
      evals := evals[..half];
      numVars := numVars - 1;
    }

    /** Binding either end of the variable order evaluates that coordinate. */
    method BindWithOrder(scalar: int, order: BindingOrder)
      requires Valid() && 0 < numVars
      modifies this
      ensures Valid() && numVars == old(numVars) - 1
      ensures order.HighToLow? ==> evals == BindHigh(old(evals), scalar)
      ensures order.LowToHigh? ==> evals == BindLow(old(evals), scalar)
      ensures forall r | |r| == numVars ::
        Mle(evals, r) == Mle(old(evals), if order.HighToLow? then [scalar] + r else r + [scalar])
    {
      ghost var before := evals;
      if order == HighToLow {
        BindHighToLow(scalar);
      } else {
        BindLowToHigh(scalar);
      }
      forall r | |r| == numVars
        ensures Mle(evals, r) == Mle(before, if order.HighToLow? then [scalar] + r else r + [scalar])
      {
        if order.HighToLow? {
          MleBindHigh(before, scalar, r);
        } else {
          MleBindLow(before, scalar, r);
        }
      }
    }

    /** `evaluate`: the table against the eq table of the point. */
    method Evaluate(point: seq<int>) returns (value: int)
      requires Valid() && |point| == numVars
      ensures value == Mle(evals, point)
    {
      var eq := Evaluations(point);
      value := InnerProduct(evals, eq);
      DotIsMle(evals, point);
    }

    /** `evaluate_and_consume`: bind every variable, first to last. */
    method EvaluateAndConsume(point: seq<int>) returns (value: int)
      requires Valid() && |point| == numVars
      modifies this
      ensures value == Mle(old(evals), point)
    {
      for i := 0 to |point|
        invariant Valid() && numVars == |point| - i
        invariant Mle(evals, point[i..]) == Mle(old(evals), point)
      {
        assert point[i..] == [point[i]] + point[i + 1..];
        BindWithOrder(point[i], HighToLow);
      }
      value := evals[0];
    }
  }

  function TrailingZeros(n: nat): nat {
    if n == 0 || n % 2 == 1 then 0 else 1 + TrailingZeros(n / 2)
  }

  lemma {:induction false} TrailingZerosOfPow2(n: nat)
    ensures TrailingZeros(Pow2(n)) == n
  {
    if n > 0 {
      TrailingZerosOfPow2(n - 1);
    }
  }
}

/** Compressed round polynomials: every coefficient but the linear one. */
module Compressed {
  import opened Fields
  import opened Vectors
  import opened Univariate

  function Compress(c: seq<int>): (cc: seq<int>)
    requires 2 <= |c|
    ensures |cc| == |c| - 1
  {
    c[..1] + c[2..]
  }

  /** `h - 2 c0 - c2 - c3 - ..` */
  function LinearTerm(cc: seq<int>, hint: int): int
    requires cc != []
  {
    hint - cc[0] - cc[0] - Sum(cc[1..])
  }

  function Decompressed(cc: seq<int>, hint: int): (c: seq<int>)
    requires cc != []
    ensures |c| == |cc| + 1
  {
    [cc[0], LinearTerm(cc, hint)] + cc[1..]
  }

  /** The value at `x` that the stored coefficients and the hint determine. */
  function HintEval(cc: seq<int>, hint: int, x: int): int
    requires cc != []
  {
    EvalPoly(Decompressed(cc, hint), x)
  }

  /** Compressing keeps everything once `p(0) + p(1)` is known. */
  lemma CompressRoundTrip(c: seq<int>)
    requires 2 <= |c|
    ensures Decompressed(Compress(c), EvalPoly(c, 0) + EvalPoly(c, 1)) == c
  {
    hide *;
    EndpointSum(c);
    LinearTermRecovered(c, EvalPoly(c, 0) + EvalPoly(c, 1));
  }

  lemma LinearTermRecovered(c: seq<int>, hint: int)
    requires 2 <= |c| && hint == c[0] + Sum(c)
    ensures Decompressed(Compress(c), hint) == c
  {
    var cc := Compress(c);
    assert cc[0] == c[0] && cc[1..] == c[2..];
    assert LinearTerm(cc, hint) == c[1] by {
      assert c[2..] == c[1..][1..];
    }
    assert c == [c[0], c[1]] + c[2..];
  }

  /** Any stored coefficients and hint decompress to a polynomial that
      compresses back and whose end values add up to the hint. */
  lemma DecompressRoundTrip(cc: seq<int>, hint: int)
    requires cc != []
    ensures Compress(Decompressed(cc, hint)) == cc
    ensures EvalPoly(Decompressed(cc, hint), 0) + EvalPoly(Decompressed(cc, hint), 1) == hint
  {
    var c := Decompressed(cc, hint);
    EndpointSum(c);
    assert c[1..][1..] == cc[1..];
    assert Sum(c[1..]) == c[1] + Sum(c[1..][1..]);
  }

  lemma {:induction false} EndpointSum(c: seq<int>)
    requires c != []
    ensures EvalPoly(c, 0) + EvalPoly(c, 1) == c[0] + Sum(c)
  {
    SumIsEvalAtOne(c);
    assert 0 * EvalPoly(c[1..], 0) == 0;
  }

  lemma {:induction false} SumIsEvalAtOne(c: seq<int>)
    ensures EvalPoly(c, 1) == Sum(c)
  {
    if c != [] {
      SumIsEvalAtOne(c[1..]);
      assert 1 * EvalPoly(c[1..], 1) == EvalPoly(c[1..], 1);
    }
  }

  /** A hint equal to `p(0) + p(1)` in the field recovers `p` at every point. */
  lemma HintEvalRecovers(f: Field, c: seq<int>, hint: int, x: int)
    requires IsField(f) && 2 <= |c| && Same(f, hint, EvalPoly(c, 0) + EvalPoly(c, 1))
    ensures Same(f, HintEval(Compress(c), hint, x), EvalPoly(c, x))
  {
    var cc, exact := Compress(c), EvalPoly(c, 0) + EvalPoly(c, 1);
    CompressRoundTrip(c);
    HintDifference(cc, hint, exact, x);
    SameDifference(f, hint, exact);
    SameMul(f, x, x, hint - exact, 0);
    SameAdd(f, EvalPoly(c, x), EvalPoly(c, x), x * (hint - exact), x * 0);
  }

  lemma HintDifference(cc: seq<int>, hint: int, exact: int, x: int)
    requires cc != []
    ensures HintEval(cc, hint, x) == HintEval(cc, exact, x) + x * (hint - exact)
  {
    HintEvalUnfold(cc, hint, x);
    HintEvalUnfold(cc, exact, x);
    Spread(x, LinearTerm(cc, hint), LinearTerm(cc, exact), x * EvalPoly(cc[1..], x));
  }

  lemma HintEvalUnfold(cc: seq<int>, hint: int, x: int)
    requires cc != []
    ensures HintEval(cc, hint, x) == cc[0] + x * (LinearTerm(cc, hint) + x * EvalPoly(cc[1..], x))
  {
    var c := Decompressed(cc, hint);
    assert c[0] == cc[0] && c[1..][0] == LinearTerm(cc, hint) && c[1..][1..] == cc[1..];
    assert EvalPoly(c[1..], x) == LinearTerm(cc, hint) + x * EvalPoly(cc[1..], x);
  }

  lemma Spread(x: int, a: int, b: int, t: int)
    ensures x * (a + t) == x * (b + t) + x * (a - b)
  {
  }

  /** `recover_linear_term`. */
  method RecoverLinearTerm(cc: seq<int>, hint: int) returns (linear: int)
    requires cc != []
    ensures linear == LinearTerm(cc, hint)
  {
    linear := hint - cc[0] - cc[0];
    for i := 1 to |cc|
      invariant linear - Sum(cc[i..]) == LinearTerm(cc, hint)
    {
      assert cc[i..][1..] == cc[i + 1..];
      linear := linear - cc[i];
    }
  }

  function Power(x: int, k: nat): int {
    if k == 0 then 1 else Power(x, k - 1) * x
  }

  lemma {:induction false} EvalSnoc(c: seq<int>, d: int, x: int)
    ensures EvalPoly(c + [d], x) == EvalPoly(c, x) + d * Power(x, |c|)
  {
    if c == [] {
      assert c + [d] == [d] && [d][1..] == [];
      assert EvalPoly([d], x) == d + x * EvalPoly([], x);
    } else {
      assert (c + [d])[1..] == c[1..] + [d];
      EvalSnoc(c[1..], d, x);
      PowerTerm(x, EvalPoly(c[1..], x), d, Power(x, |c| - 1));
    }
  }

  lemma PowerTerm(x: int, e: int, d: int, p: int)
    ensures x * (e + d * p) == x * e + d * (p * x)
  {
  }

  lemma LinearEval(c: seq<int>, x: int)
    requires |c| == 2
    ensures EvalPoly(c, x) == c[0] + x * c[1]
  {
    assert c[1..][0] == c[1] && c[1..][1..] == [];
    assert EvalPoly(c[1..], x) == c[1] + x * 0;
  }

  /** `eval_from_hint`: ascending powers, the linear term put back first. */
  method EvalFromHint(cc: seq<int>, hint: int, point: int) returns (sum: int)
    requires cc != []
    ensures sum == HintEval(cc, hint, point)
  {
    var linear := RecoverLinearTerm(cc, hint);
    var power := point;
    sum := cc[0] + point * linear;
    ghost var c := Decompressed(cc, hint);
    assert Power(point, 1) == point;
    LinearEval(c[..2], point);
    for i := 1 to |cc|
      invariant power == Power(point, i)
      invariant sum == EvalPoly(c[..i + 1], point)
    {
      power := power * point;
      assert c[..i + 2] == c[..i + 1] + [cc[i]];
      EvalSnoc(c[..i + 1], cc[i], point);
      sum := sum + cc[i] * power;
    }
    assert c[..|c|] == c;
  }

  /** `decompress`. */
  method Decompress(cc: seq<int>, hint: int) returns (coeffs: seq<int>)
    requires cc != []
    ensures coeffs == Decompressed(cc, hint)
  {
    var linear := RecoverLinearTerm(cc, hint);
    coeffs := [cc[0]];
    coeffs := coeffs + [linear];
    coeffs := coeffs + cc[1..];
  }

  /** `UnivariatePoly::evaluate`, Horner from the top coefficient. */
  method Horner(c: seq<int>, point: int) returns (value: int)
    ensures value == EvalPoly(c, point)
  {
    value := 0;
    for i := |c| downto 0
      invariant value == EvalPoly(c[i..], point)
    {
      assert c[i..][1..] == c[i + 1..];
      assert value * point == point * value;
      value := value * point + c[i];
    }
    assert c[0..] == c;
  }
}
