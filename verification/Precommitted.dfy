/** The two-phase precommitted reduction: rounds that are active bind the
    tables, rounds that are not halve a running scale, and the tables move from
    the cycle phase to the address phase as they are. */
module Precommitted {
  import opened Results
  import opened Fields
  import opened Vectors
  import opened Multilinear
  import opened Univariate
  import opened Dense
  import opened Compressed
  import opened Sumcheck
  import opened Permutation
  import opened OpenSums

  // The summand, bound lowest variable first.

  function Even(t: seq<int>): (h: seq<int>)
    requires |t| % 2 == 0
    ensures |h| == |t| / 2
  {
    seq(|t| / 2, i requires 0 <= i < |t| / 2 => t[2 * i])
  }

  function Odd(t: seq<int>): (h: seq<int>)
    requires |t| % 2 == 0
    ensures |h| == |t| / 2
  {
    seq(|t| / 2, i requires 0 <= i < |t| / 2 => t[2 * i + 1])
  }

  function Slope(t: seq<int>): (d: seq<int>)
    requires |t| % 2 == 0
    ensures |d| == |t| / 2
  {
    VAdd(Odd(t), Scale(-1, Even(t)))
  }

  lemma LowIsLine(t: seq<int>, x: int)
    requires |t| % 2 == 0
    ensures BindLow(t, x) == VAdd(Even(t), Scale(x, Slope(t)))
  {
  }

  /** The sum of the summand with the lowest variable at `x`. */
  function LowSum(v: seq<int>, e: seq<int>, x: int): int
    requires |v| == |e| && |v| % 2 == 0
  {
    Dot(BindLow(v, x), BindLow(e, x))
  }

  lemma {:induction false} DotEvenOdd(v: seq<int>, e: seq<int>)
    requires |v| == |e| && |v| % 2 == 0
    ensures Dot(Even(v), Even(e)) + Dot(Odd(v), Odd(e)) == Dot(v, e)
    decreases |v|
  {
    if v != [] {
      var v', e' := v[2..], e[2..];
      DotEvenOdd(v', e');
      assert Even(v)[1..] == Even(v') && Odd(v)[1..] == Odd(v') && Even(e)[1..] == Even(e') && Odd(e)[1..] == Odd(e');
      assert v[1..][1..] == v' && e[1..][1..] == e';
      assert Dot(v[1..], e[1..]) == v[1] * e[1] + Dot(v', e');
    }
  }

  lemma LowEnds(v: seq<int>, e: seq<int>)
    requires |v| == |e| && |v| % 2 == 0
    ensures LowSum(v, e, 0) + LowSum(v, e, 1) == Dot(v, e)
  {
    assert BindLow(v, 0) == Even(v) && BindLow(e, 0) == Even(e) && BindLow(v, 1) == Odd(v) && BindLow(e, 1) == Odd(e);
    DotEvenOdd(v, e);
  }

  /** Along its line the summand is a quadratic. */
  function LowQuadratic(v: seq<int>, e: seq<int>): (c: seq<int>)
    requires |v| == |e| && |v| % 2 == 0
    ensures |c| == 3
  {
    InnerQuadratic(Even(v), Slope(v), Even(e), Slope(e))
  }

  lemma LowLine(v: seq<int>, e: seq<int>, x: int)
    requires |v| == |e| && |v| % 2 == 0
    ensures EvalPoly(LowQuadratic(v, e), x) == LowSum(v, e, x)
  {
    LowIsLine(v, x);
    LowIsLine(e, x);
    InnerQuadraticEval(Even(v), Slope(v), Even(e), Slope(e), x);
  }

  // The round message.

  /** Coefficients from the values at 0, 1 and 2. */
  function FromThree(e0: int, e1: int, e2: int, twoInv: int): (c: seq<int>)
    ensures |c| == 3
  {
    var c2 := (e0 - e1 - e1 + e2) * twoInv;
    [e0, e1 - e0 - c2, c2]
  }

  lemma FromThreeAt(f: Field, e0: int, e1: int, e2: int, twoInv: int, x: int)
    ensures EvalPoly(FromThree(e0, e1, e2, twoInv), x)
         == e0 + x * (e1 - e0) + (x * x - x) * ((e0 - e1 - e1 + e2) * twoInv)
  {
    var c2 := (e0 - e1 - e1 + e2) * twoInv;
    QuadraticEval(e0, e1 - e0 - c2, c2, x);
    Rearranged(x, e1 - e0, c2);
  }

  lemma Rearranged(x: int, d: int, c: int)
    ensures x * (d - c + x * c) == x * d + (x * x - x) * c
  {
  }

  /** A quadratic is what its three values say, once two is invertible. */
  lemma ThreeValues(f: Field, q: seq<int>, e1: int, twoInv: int, x: int)
    requires IsField(f) && |q| == 3 && Same(f, twoInv * 2, 1) && Same(f, e1, EvalPoly(q, 1))
    ensures Same(f, EvalPoly(FromThree(EvalPoly(q, 0), e1, EvalPoly(q, 2), twoInv), x), EvalPoly(q, x))
  {
    assert q == [q[0], q[1], q[2]];
    QuadraticEval(q[0], q[1], q[2], 0);
    QuadraticEval(q[0], q[1], q[2], 1);
    QuadraticEval(q[0], q[1], q[2], 2);
    QuadraticEval(q[0], q[1], q[2], x);
    assert 0 * (q[1] + 0 * q[2]) == 0;
    FromThreeAt(f, EvalPoly(q, 0), e1, EvalPoly(q, 2), twoInv, x);
    ThreeValuesAlgebra(f, q[0], q[1], q[2], e1, twoInv, x);
  }

  lemma ThreeValuesAlgebra(f: Field, a: int, b: int, c: int, e1: int, twoInv: int, x: int)
    requires IsField(f) && Same(f, twoInv * 2, 1) && Same(f, e1, a + b + c)
    ensures Same(f, a + x * (e1 - a) + (x * x - x) * ((a - e1 - e1 + (a + 2 * (b + 2 * c))) * twoInv),
                 a + x * (b + x * c))
  {
    var d := e1 - (a + b + c);
    SameDifference(f, e1, a + b + c);
    // second difference: 2 c - 2 d, so halved it is c - d
    var h := (a - e1 - e1 + (a + 2 * (b + 2 * c))) * twoInv;
    Halve(f, c - d, twoInv);
    assert h == (2 * (c - d)) * twoInv;
    SameSub(f, c, c, d, 0);
    assert Same(f, h, c);
    SameSub(f, e1, a + b + c, a, a);
    SameMul(f, x, x, e1 - a, b + c);
    SameMul(f, x * x - x, x * x - x, h, c);
    SameAdd(f, x * (e1 - a), x * (b + c), (x * x - x) * h, (x * x - x) * c);
    SameAdd(f, a, a, x * (e1 - a) + (x * x - x) * h, x * (b + c) + (x * x - x) * c);
    LineAndSquare(x, b, c);
  }

  lemma Halve(f: Field, y: int, twoInv: int)
    requires IsField(f) && Same(f, twoInv * 2, 1)
    ensures Same(f, (2 * y) * twoInv, y)
  {
    SameMul(f, twoInv * 2, 1, y, y);
    assert (2 * y) * twoInv == (twoInv * 2) * y && 1 * y == y;
  }

  lemma LineAndSquare(x: int, b: int, c: int)
    ensures x * (b + c) + (x * x - x) * c == x * (b + x * c)
  {
  }

  /** What a round emits: half the claim while inactive, else the values at 0
      and 2 with the one at 1 hinted by the previous claim. */
  function MessageOf(v: seq<int>, e: seq<int>, scale: int, scaleInv: int, twoInv: int, active: bool,
                     previous: int): (m: seq<int>)
    requires |v| == |e| && (active ==> |v| % 2 == 0)
    ensures |m| == if active then 3 else 1
  {
    if active then Scale(scale,
                         FromThree(LowSum(v, e, 0), previous * scaleInv - LowSum(v, e, 0), LowSum(v, e, 2), twoInv))
    else [previous * twoInv]
  }

  lemma ConstantEval(c: int, x: int)
    ensures EvalPoly([c], x) == c
  {
    assert [c][1..] == [] && x * 0 == 0;
  }

  /** Every message, active or not, sums to the previous claim. */
  lemma MessageSum(f: Field, v: seq<int>, e: seq<int>, scale: int, scaleInv: int, twoInv: int, active: bool,
                   previous: int)
    requires IsField(f) && |v| == |e| && (active ==> |v| % 2 == 0) && Same(f, scale * scaleInv, 1)
    requires Same(f, twoInv * 2, 1)
    ensures var m := MessageOf(v, e, scale, scaleInv, twoInv, active, previous);
      Same(f, EvalPoly(m, 0) + EvalPoly(m, 1), previous)
  {
    hide *;
    if active {
      ActiveIs(v, e, scale, scaleInv, twoInv, previous);
      HintedSum(f, LowSum(v, e, 0), LowSum(v, e, 2), scale, scaleInv, twoInv, previous);
    } else {
      IdleSum(f, v, e, scale, scaleInv, twoInv, previous);
    }
  }

  lemma ActiveIs(v: seq<int>, e: seq<int>, scale: int, scaleInv: int, twoInv: int, previous: int)
    requires |v| == |e| && |v| % 2 == 0
    ensures MessageOf(v, e, scale, scaleInv, twoInv, true, previous)
         == Scale(scale, FromThree(LowSum(v, e, 0), previous * scaleInv - LowSum(v, e, 0), LowSum(v, e, 2), twoInv))
  {
  }

  lemma IdleSum(f: Field, v: seq<int>, e: seq<int>, scale: int, scaleInv: int, twoInv: int, previous: int)
    requires IsField(f) && |v| == |e| && Same(f, twoInv * 2, 1)
    ensures var m := MessageOf(v, e, scale, scaleInv, twoInv, false, previous);
      Same(f, EvalPoly(m, 0) + EvalPoly(m, 1), previous)
  {
    ConstantEval(previous * twoInv, 0);
    ConstantEval(previous * twoInv, 1);
    Halve(f, previous, twoInv);
    assert (2 * previous) * twoInv == previous * twoInv + previous * twoInv;
  }

  lemma HintedSum(f: Field, e0: int, e2: int, scale: int, scaleInv: int, twoInv: int, previous: int)
    requires IsField(f) && Same(f, scale * scaleInv, 1)
    ensures var m := Scale(scale, FromThree(e0, previous * scaleInv - e0, e2, twoInv));
      Same(f, EvalPoly(m, 0) + EvalPoly(m, 1), previous)
  {
    var e1 := previous * scaleInv - e0;
    var c := FromThree(e0, e1, e2, twoInv);
    hide EvalPoly, FromThree;
    EvalScale(scale, c, 0);
    EvalScale(scale, c, 1);
    FromThreeAt(f, e0, e1, e2, twoInv, 0);
    FromThreeAt(f, e0, e1, e2, twoInv, 1);
    EndsOfLine(e0, e1, (e0 - e1 - e1 + e2) * twoInv);
    assert EvalPoly(c, 0) == e0 && EvalPoly(c, 1) == e1;
    SameMul(f, scale * scaleInv, 1, previous, previous);
    ScaledEnds(scale, scaleInv, previous, e0);
  }

  lemma EndsOfLine(e0: int, e1: int, c: int)
    ensures e0 + 0 * (e1 - e0) + (0 * 0 - 0) * c == e0
    ensures e0 + 1 * (e1 - e0) + (1 * 1 - 1) * c == e1
  {
  }

  lemma ScaledEnds(scale: int, scaleInv: int, previous: int, e0: int)
    ensures scale * e0 + scale * (previous * scaleInv - e0) == (scale * scaleInv) * previous
    ensures 1 * previous == previous
  {
    assert scale * (previous * scaleInv - e0) == scale * (previous * scaleInv) - scale * e0;
    assert scale * (previous * scaleInv) == (scale * scaleInv) * previous;
  }

  /** The running total after a round's challenge. */
  function TotalAfter(v: seq<int>, e: seq<int>, scale: int, twoInv: int, active: bool, challenge: int): int
    requires |v| == |e| && (active ==> |v| % 2 == 0)
  {
    if active then scale * LowSum(v, e, challenge) else scale * twoInv * Dot(v, e)
  }

  /** With the previous claim on the scaled sum, the message follows the true
      total at every challenge. */
  lemma MessageFollows(f: Field, v: seq<int>, e: seq<int>, scale: int, scaleInv: int, twoInv: int, active: bool,
                       previous: int, x: int)
    requires IsField(f) && |v| == |e| && (active ==> |v| % 2 == 0) && Same(f, scale * scaleInv, 1)
    requires Same(f, twoInv * 2, 1)
    requires Same(f, previous, scale * Dot(v, e))
    ensures Same(f, EvalPoly(MessageOf(v, e, scale, scaleInv, twoInv, active, previous), x),
                 TotalAfter(v, e, scale, twoInv, active, x))
  {
    hide *;
    if active {
      ActiveFollows(f, v, e, scale, scaleInv, twoInv, previous, x);
    } else {
      IdleFollows(f, v, e, scale, scaleInv, twoInv, previous, x);
    }
  }

  lemma ActiveFollows(f: Field, v: seq<int>, e: seq<int>, scale: int, scaleInv: int, twoInv: int, previous: int, x: int)
    requires IsField(f) && |v| == |e| && |v| % 2 == 0 && Same(f, scale * scaleInv, 1) && Same(f, twoInv * 2, 1)
    requires Same(f, previous, scale * Dot(v, e))
    ensures Same(f, EvalPoly(MessageOf(v, e, scale, scaleInv, twoInv, true, previous), x),
                 TotalAfter(v, e, scale, twoInv, true, x))
  {
    hide *;
    var e0, e2 := LowSum(v, e, 0), LowSum(v, e, 2);
    var e1 := previous * scaleInv - e0;
    LowLine(v, e, 0);
    LowLine(v, e, 1);
    LowLine(v, e, 2);
    LowLine(v, e, x);
    LowEnds(v, e);
    HintedValue(f, previous, scale, scaleInv, Dot(v, e), e0, LowSum(v, e, 1));
    ThreeValues(f, LowQuadratic(v, e), e1, twoInv, x);
    var c := FromThree(e0, e1, e2, twoInv);
    EvalScale(scale, c, x);
    SameMul(f, scale, scale, EvalPoly(c, x), LowSum(v, e, x));
    ActiveIs(v, e, scale, scaleInv, twoInv, previous);
    TotalIs(v, e, scale, twoInv, x);
  }

  lemma TotalIs(v: seq<int>, e: seq<int>, scale: int, twoInv: int, x: int)
    requires |v| == |e| && |v| % 2 == 0
    ensures TotalAfter(v, e, scale, twoInv, true, x) == scale * LowSum(v, e, x)
  {
  }

  lemma IdleFollows(f: Field, v: seq<int>, e: seq<int>, scale: int, scaleInv: int, twoInv: int, previous: int, x: int)
    requires IsField(f) && |v| == |e| && Same(f, previous, scale * Dot(v, e))
    ensures Same(f, EvalPoly(MessageOf(v, e, scale, scaleInv, twoInv, false, previous), x),
                 TotalAfter(v, e, scale, twoInv, false, x))
  {
    ConstantEval(previous * twoInv, x);
    SameMul(f, previous, scale * Dot(v, e), twoInv, twoInv);
    SwapHalf(scale, Dot(v, e), twoInv);
  }

  lemma SwapHalf(scale: int, d: int, twoInv: int)
    ensures (scale * d) * twoInv == scale * twoInv * d
  {
  }

  lemma HintedValue(f: Field, previous: int, scale: int, scaleInv: int, total: int, e0: int, e1: int)
    requires IsField(f) && Same(f, scale * scaleInv, 1) && Same(f, previous, scale * total) && e0 + e1 == total
    ensures Same(f, previous * scaleInv - e0, e1)
  {
    SameMul(f, previous, scale * total, scaleInv, scaleInv);
    SameMul(f, scale * scaleInv, 1, total, total);
    assert (scale * total) * scaleInv == (scale * scaleInv) * total && 1 * total == total;
    SameSub(f, previous * scaleInv, total, e0, e0);
  }

  /** Whatever the previous claim, an active message has the bound tables'
      scaled sums at 0 and 2. */
  lemma MessageValues(f: Field, v: seq<int>, e: seq<int>, scale: int, scaleInv: int, twoInv: int, previous: int)
    requires IsField(f) && |v| == |e| && |v| % 2 == 0 && Same(f, twoInv * 2, 1)
    ensures var m := MessageOf(v, e, scale, scaleInv, twoInv, true, previous);
      && Same(f, EvalPoly(m, 0), scale * LowSum(v, e, 0)) && Same(f, EvalPoly(m, 2), scale * LowSum(v, e, 2))
  {
    hide *;
    ActiveIs(v, e, scale, scaleInv, twoInv, previous);
    ScaledValues(f, LowSum(v, e, 0), previous * scaleInv - LowSum(v, e, 0), LowSum(v, e, 2), scale, twoInv);
  }

  lemma ScaledValues(f: Field, e0: int, e1: int, e2: int, scale: int, twoInv: int)
    requires IsField(f) && Same(f, twoInv * 2, 1)
    ensures var m := Scale(scale, FromThree(e0, e1, e2, twoInv));
      Same(f, EvalPoly(m, 0), scale * e0) && Same(f, EvalPoly(m, 2), scale * e2)
  {
    hide *;
    var c := FromThree(e0, e1, e2, twoInv);
    FromThreeAt(f, e0, e1, e2, twoInv, 0);
    FromThreeAt(f, e0, e1, e2, twoInv, 2);
    EvalScale(scale, c, 0);
    EvalScale(scale, c, 2);
    EndsOfLine(e0, e1, (e0 - e1 - e1 + e2) * twoInv);
    ValueAtTwo(f, e0, e1, e2, twoInv);
    SameMul(f, scale, scale, EvalPoly(c, 2), e2);
    SameItself(f, scale * e0);
  }

  lemma SameItself(f: Field, x: int)
    ensures Same(f, x, x)
  {
  }

  lemma ValueAtTwo(f: Field, e0: int, e1: int, e2: int, twoInv: int)
    requires IsField(f) && Same(f, twoInv * 2, 1)
    ensures Same(f, e0 + 2 * (e1 - e0) + (2 * 2 - 2) * ((e0 - e1 - e1 + e2) * twoInv), e2)
  {
    var y := e0 - e1 - e1 + e2;
    Halve(f, y, twoInv);
    assert (2 * 2 - 2) * (y * twoInv) == (2 * y) * twoInv;
    SameAdd(f, e0 + 2 * (e1 - e0), e0 + 2 * (e1 - e0), (2 * y) * twoInv, y);
  }

  /** And only then: an active message that follows the true total at every
      point comes from a previous claim on the scaled sum. A claim padded by a
      factor gives a message that still sums to it, but is not the true polynomial. */
  lemma FollowsOnlyFromTotal(f: Field, v: seq<int>, e: seq<int>, scale: int, scaleInv: int, twoInv: int, previous: int)
    requires IsField(f) && |v| == |e| && |v| % 2 == 0 && Same(f, scale * scaleInv, 1) && Same(f, twoInv * 2, 1)
    ensures (forall x :: Same(f, EvalPoly(MessageOf(v, e, scale, scaleInv, twoInv, true, previous), x),
                              TotalAfter(v, e, scale, twoInv, true, x)))
      <==> Same(f, previous, scale * Dot(v, e))
  {
    var m := MessageOf(v, e, scale, scaleInv, twoInv, true, previous);
    if forall x :: Same(f, EvalPoly(m, x), TotalAfter(v, e, scale, twoInv, true, x)) {
      MessageSum(f, v, e, scale, scaleInv, twoInv, true, previous);
      LowEnds(v, e);
      assert Same(f, EvalPoly(m, 0), scale * LowSum(v, e, 0)) by {
        assert Same(f, EvalPoly(m, 0), TotalAfter(v, e, scale, twoInv, true, 0));
      }
      assert Same(f, EvalPoly(m, 1), scale * LowSum(v, e, 1)) by {
        assert Same(f, EvalPoly(m, 1), TotalAfter(v, e, scale, twoInv, true, 1));
      }
      SameAdd(f, EvalPoly(m, 0), scale * LowSum(v, e, 0), EvalPoly(m, 1), scale * LowSum(v, e, 1));
      Distributed(scale, LowSum(v, e, 0), LowSum(v, e, 1), Dot(v, e));
    }
    if Same(f, previous, scale * Dot(v, e)) {
      forall x ensures Same(f, EvalPoly(m, x), TotalAfter(v, e, scale, twoInv, true, x)) {
        MessageFollows(f, v, e, scale, scaleInv, twoInv, true, previous, x);
      }
    }
  }

  lemma Distributed(c: int, a: int, b: int, total: int)
    requires a + b == total
    ensures c * a + c * b == c * total
  {
  }

  /** The halved scale and the doubled inverse stay inverse to each other. */
  lemma HalvedScale(f: Field, scale: int, scaleInv: int, twoInv: int)
    requires IsField(f) && Same(f, scale * scaleInv, 1) && Same(f, twoInv * 2, 1)
    ensures Same(f, (scale * twoInv) * (scaleInv + scaleInv), 1)
  {
    SameMul(f, scale * scaleInv, 1, twoInv * 2, 1);
    assert (scale * twoInv) * (scaleInv + scaleInv) == (scale * scaleInv) * (twoInv * 2);
  }

  /** A table after one round: bound if the round is active. */
  function BoundRound(active: bool, t: seq<int>, challenge: int): seq<int> {
    if active && |t| % 2 == 0 then BindLow(t, challenge) else t
  }

  // Rounds against a schedule.

  ghost predicate Ascending(rounds: seq<nat>) {
    forall i, j :: 0 <= i < j < |rounds| ==> rounds[i] < rounds[j]
  }

  /** `is_active`, by binary search. */
  method IsActive(rounds: seq<nat>, round: nat) returns (active: bool)
    requires Ascending(rounds)
    ensures active <==> round in rounds
  {
    var lo, hi := 0, |rounds|;
    while lo < hi
      invariant 0 <= lo <= hi <= |rounds|
      invariant forall i :: 0 <= i < lo ==> rounds[i] < round
      invariant forall i :: hi <= i < |rounds| ==> round < rounds[i]
    {
      var mid := (lo + hi) / 2;
      if rounds[mid] == round {
        return true;
      } else if rounds[mid] < round {
        lo := mid + 1;
      } else {
        hi := mid;
      }
    }
    active := false;
  }

  /** The challenges of the active rounds before round `r`. */
  function ActiveChallenges(rounds: seq<nat>, challenges: seq<int>, r: nat): (c: seq<int>)
    requires r <= |challenges|
    ensures |c| <= r
  {
    if r == 0 then []
    else ActiveChallenges(rounds, challenges, r - 1) + if r - 1 in rounds then [challenges[r - 1]] else []
  }

  lemma {:induction false} ActiveMonotone(rounds: seq<nat>, challenges: seq<int>, r: nat, total: nat)
    requires r <= total <= |challenges|
    ensures |ActiveChallenges(rounds, challenges, r)| <= |ActiveChallenges(rounds, challenges, total)|
    decreases total
  {
    if r < total {
      ActiveMonotone(rounds, challenges, r, total - 1);
    }
  }

  /** One more round of a table bound by the active challenges so far. */
  lemma BoundNext(rounds: seq<nat>, challenges: seq<int>, r: nat, t: seq<int>, n: nat)
    requires r < |challenges| && |t| == Pow2(n) && |ActiveChallenges(rounds, challenges, r + 1)| <= n
    ensures |ActiveChallenges(rounds, challenges, r)| <= n
    ensures BoundLow(t, n, ActiveChallenges(rounds, challenges, r + 1))
         == BoundRound(r in rounds, BoundLow(t, n, ActiveChallenges(rounds, challenges, r)), challenges[r])
  {
    var before, after := ActiveChallenges(rounds, challenges, r), ActiveChallenges(rounds, challenges, r + 1);
    if r in rounds {
      assert after[..|after| - 1] == before;
      EvenDouble(Pow2(n - |after|));
    } else {
      assert after == before;
    }
  }

  // The tables.

  /** The values of the tables, the running scale and the variables left. */
  datatype TableState = TableState(value: seq<int>, eq: seq<int>, aux: seq<seq<int>>, scale: int, numVars: nat)

  /** The scaled sum the running claim is about. */
  function TotalOf(st: TableState): int
    requires |st.value| == |st.eq|
  {
    st.scale * Dot(st.value, st.eq)
  }

  /** One round: active, every table is bound; inactive, the scale is halved. */
  function BindState(st: TableState, active: bool, challenge: int, twoInv: int): TableState {
    TableState(BoundRound(active, st.value, challenge), BoundRound(active, st.eq, challenge),
               seq(|st.aux|, i requires 0 <= i < |st.aux| => BoundRound(active, st.aux[i], challenge)),
               if active then st.scale else st.scale * twoInv,
               if active && 0 < st.numVars then st.numVars - 1 else st.numVars)
  }

  lemma TotalMoves(st: TableState, active: bool, challenge: int, twoInv: int)
    requires |st.value| == |st.eq| && (active ==> |st.value| % 2 == 0)
    ensures var next := BindState(st, active, challenge, twoInv);
      |next.value| == |next.eq| && TotalOf(next) == TotalAfter(st.value, st.eq, st.scale, twoInv, active, challenge)
  {
  }

  class PrecommittedTables {
    const value: Polynomial
    const eq: Polynomial
    const aux: seq<Polynomial>
    var scale: int
    var scaleInv: int
    const twoInv: int

    ghost predicate Separate() {
      && value != eq && value !in aux && eq !in aux
      && forall i, j :: 0 <= i < j < |aux| ==> aux[i] != aux[j]
    }

    ghost predicate Valid(f: Field)
      reads this, value, eq, aux
    {
      && Separate() && value.Valid() && eq.Valid() && eq.numVars == value.numVars
      && (forall i :: 0 <= i < |aux| ==> aux[i].Valid() && aux[i].numVars == value.numVars)
      && Same(f, scale * scaleInv, 1) && Same(f, twoInv * 2, 1)
    }

    ghost function State(): TableState
      reads this, value, eq, aux
    {
      TableState(value.evals, eq.evals, seq(|aux|, i requires 0 <= i < |aux| reads this, aux => aux[i].evals), scale,
                 value.numVars)
    }

    constructor (f: Field, v: seq<int>, e: seq<int>, chunks: seq<seq<int>>, ghost n: nat)
      requires IsField(f) && !Same(f, 2, 0) && |v| == |e| == Pow2(n) && forall i :: 0 <= i < |chunks| ==>
        |chunks[i]| == Pow2(n)
      ensures Valid(f) && State() == TableState(v, e, chunks, 1, n) && value.numVars == n && twoInv == f.inv(2)
      ensures fresh(value) && fresh(eq) && forall i :: 0 <= i < |aux| ==> fresh(aux[i])
    {
      var p := new Polynomial(v, n);
      var q := new Polynomial(e, n);
      var polynomials: seq<Polynomial> := [];
      for i := 0 to |chunks|
        invariant |polynomials| == i && fresh(p) && fresh(q) && p != q
        invariant p.Valid() && p.evals == v && p.numVars == n && q.Valid() && q.evals == e && q.numVars == n
        invariant p !in polynomials && q !in polynomials
        invariant forall j :: 0 <= j < i ==>
          && fresh(polynomials[j]) && polynomials[j].Valid()
          && polynomials[j].numVars == n && polynomials[j].evals == chunks[j]
        invariant forall j, k :: 0 <= j < k < i ==> polynomials[j] != polynomials[k]
      {
        var next := new Polynomial(chunks[i], n);
        polynomials := polynomials + [next];
      }
      value, eq := p, q;
      aux := polynomials;
      scale, scaleInv, twoInv := 1, 1, f.inv(2);
      new;
      InverseWorks(f, 2);
      assert 2 * f.inv(2) == f.inv(2) * 2;
    }

    /** `round_message`. */
    method RoundMessage(f: Field, active: bool, previous: int) returns (m: seq<int>)
      requires Valid(f) && (active ==> 0 < value.numVars)
      ensures |value.evals| == |eq.evals| && (active ==> |value.evals| % 2 == 0)
      ensures m == MessageOf(value.evals, eq.evals, scale, scaleInv, twoInv, active, previous)
    {
      if !active {
        return [previous * twoInv];
      }
      var e0, e2 := EvalLow(value.evals, eq.evals);
      var e1 := previous * scaleInv - e0;
      var c2 := (e0 - e1 - e1 + e2) * twoInv;
      var c1 := e1 - e0 - c2;
      m := [e0 * scale, c1 * scale, c2 * scale];
      assert [e0, c1, c2] == FromThree(e0, e1, e2, twoInv);
      ScaledThree(scale, e0, c1, c2);
    }

    /** `bind_round`. */
    method BindRound(f: Field, active: bool, challenge: int)
      requires IsField(f) && Valid(f) && (active ==> 0 < value.numVars)
      modifies this, value, eq, aux
      ensures Valid(f) && State() == BindState(old(State()), active, challenge, twoInv)
    {
      if !active {
        HalvedScale(f, scale, scaleInv, twoInv);
        scale := scale * twoInv;
        scaleInv := scaleInv + scaleInv;
        assert State() == BindState(old(State()), false, challenge, twoInv);
      } else {
        BindTables(f, challenge);
      }
    }

    /** The loop over all tables. */
    method BindTables(f: Field, challenge: int)
      requires IsField(f) && Valid(f) && 0 < value.numVars
      modifies value, eq, aux
      ensures Valid(f) && State() == BindState(old(State()), true, challenge, twoInv)
    {
      value.BindWithOrder(challenge, LowToHigh);
      eq.BindWithOrder(challenge, LowToHigh);
      BindAux(challenge, value.numVars + 1);
      assert State() == BindState(old(State()), true, challenge, twoInv);
    }

    method BindAux(challenge: int, ghost n: nat)
      requires 0 < n && forall i :: 0 <= i < |aux| ==> aux[i].Valid() && aux[i].numVars == n
      requires forall i, j :: 0 <= i < j < |aux| ==> aux[i] != aux[j]
      modifies aux
      ensures forall i :: 0 <= i < |aux| ==> aux[i].Valid() && aux[i].numVars == n - 1
      ensures forall i :: 0 <= i < |aux| ==> aux[i].evals == BoundRound(true, old(aux[i].evals), challenge)
    {
      hide *;
      for i := 0 to |aux|
        invariant forall j :: i <= j < |aux| ==>
          aux[j].evals == old(aux[j].evals) && aux[j].numVars == n && aux[j].Valid()
        invariant forall j :: 0 <= j < i ==> aux[j].Valid() && aux[j].numVars == n - 1
        invariant forall j :: 0 <= j < i ==> aux[j].evals == BoundRound(true, old(aux[j].evals), challenge)
      {
        BindOne(aux[i], challenge);
      }
    }

    static method BindOne(p: Polynomial, challenge: int)
      requires p.Valid() && 0 < p.numVars
      modifies p
      ensures p.Valid() && p.numVars == old(p.numVars) - 1
      ensures p.evals == BoundRound(true, old(p.evals), challenge)
    {
      p.BindWithOrder(challenge, LowToHigh);
    }

    /** `prove_round`: bind the previous round's challenge, then emit. */
    method ProveRound(f: Field, rounds: seq<nat>, bind: Option<int>, round: nat, previous: int) returns (m: seq<int>)
      requires IsField(f) && Valid(f) && Ascending(rounds) && (bind.Some? <==> round >= 1)
      requires (if round >= 1 && round - 1 in rounds then 1 else 0) + (if round in rounds then 1 else 0)
            <= value.numVars
      modifies this, value, eq, aux
      ensures Valid(f) && |value.evals| == |eq.evals| && (round in rounds ==> |value.evals| % 2 == 0)
      ensures State() == if bind.None? then old(State()) else BindState(old(State()), round - 1 in rounds, bind.value,
                                                                        twoInv)
      ensures m == MessageOf(value.evals, eq.evals, scale, scaleInv, twoInv, round in rounds, previous)
    {
      if bind.Some? {
        var wasActive := IsActive(rounds, round - 1);
        BindRound(f, wasActive, bind.value);
      }
      var active := IsActive(rounds, round);
      m := RoundMessage(f, active, previous);
    }

    /** `finish_rounds`. */
    method FinishRounds(f: Field, rounds: seq<nat>, total: nat, bind: int)
      requires IsField(f) && Valid(f) && Ascending(rounds) && 1 <= total && (total - 1 in rounds ==> 0 < value.numVars)
      modifies this, value, eq, aux
      ensures Valid(f) && State() == BindState(old(State()), total - 1 in rounds, bind, twoInv)
    {
      var active := IsActive(rounds, total - 1);
      BindRound(f, active, bind);
    }

    /** `intermediate_claim`. */
    method IntermediateClaim(f: Field) returns (claim: int)
      requires Valid(f)
      ensures claim == TotalOf(State())
    {
      var product := InnerProduct(value.evals, eq.evals);
      claim := product * scale;
      assert product * scale == scale * product;
    }
  }

  lemma ScaledThree(scale: int, a: int, b: int, c: int)
    ensures [a * scale, b * scale, c * scale] == Scale(scale, [a, b, c])
  {
  }

  /** The evaluation loop: the summand at 0 and at 2. */
  method EvalLow(v: seq<int>, e: seq<int>) returns (e0: int, e2: int)
    requires |v| == |e| && |v| % 2 == 0
    ensures e0 == LowSum(v, e, 0) && e2 == LowSum(v, e, 2)
  {
    e0, e2 := 0, 0;
    ghost var v0, w0, v2, w2 := BindLow(v, 0), BindLow(e, 0), BindLow(v, 2), BindLow(e, 2);
    for j := 0 to |v| / 2
      invariant e0 == Dot(v0[..j], w0[..j]) && e2 == Dot(v2[..j], w2[..j])
    {
      DotSnoc(v0, w0, j);
      DotSnoc(v2, w2, j);
      var a0, a1, b0, b1 := v[2 * j], v[2 * j + 1], e[2 * j], e[2 * j + 1];
      e0 := e0 + a0 * b0;
      e2 := e2 + (a1 + a1 - a0) * (b1 + b1 - b0);
    }
    assert v0[..|v0|] == v0 && w0[..|w0|] == w0 && v2[..|v2|] == v2 && w2[..|w2|] == w2;
  }


  // Whole phases.

  /** The state after the first `r` rounds of a phase. */
  function StateAfter(st: TableState, rounds: seq<nat>, challenges: seq<int>, r: nat, twoInv: int): TableState
    requires r <= |challenges|
  {
    if r == 0 then st else BindState(StateAfter(st, rounds, challenges, r - 1, twoInv), r - 1 in rounds,
                                     challenges[r - 1], twoInv)
  }

  ghost predicate Sized(st: TableState) {
    |st.value| == |st.eq| == Pow2(st.numVars) && forall i :: 0 <= i < |st.aux| ==> |st.aux[i]| == Pow2(st.numVars)
  }

  /** The rounds taken together: each table is bound by the active challenges
      in order, and the scale is halved once for every inactive round. */
  lemma {:induction false} RoundsTogether(st: TableState, rounds: seq<nat>, challenges: seq<int>, r: nat, twoInv: int)
    requires r <= |challenges| && Sized(st) && |ActiveChallenges(rounds, challenges, r)| <= st.numVars
    ensures var c := ActiveChallenges(rounds, challenges, r);
      && StateAfter(st, rounds, challenges, r, twoInv) == BoundState(st, c, r - |c|, twoInv)
      && Sized(BoundState(st, c, r - |c|, twoInv))
  {
    var c := ActiveChallenges(rounds, challenges, r);
    if r == 0 {
      assert st.scale * 1 == st.scale;
      assert BoundState(st, c, 0, twoInv).aux == st.aux;
    } else {
      var k := r - 1;
      var before := ActiveChallenges(rounds, challenges, k);
      ActiveMonotone(rounds, challenges, k, r);
      RoundsTogether(st, rounds, challenges, k, twoInv);
      RoundOfBound(st, rounds, challenges, k, twoInv);
    }
  }

  /** A state with every table bound by some challenges and the scale halved some times. */
  function BoundState(st: TableState, c: seq<int>, halvings: nat, twoInv: int): (b: TableState)
    requires Sized(st) && |c| <= st.numVars
    ensures Sized(b)
  {
    TableState(BoundLow(st.value, st.numVars, c), BoundLow(st.eq, st.numVars, c),
               seq(|st.aux|, i requires 0 <= i < |st.aux| => BoundLow(st.aux[i], st.numVars, c)),
               st.scale * Power(twoInv, halvings), st.numVars - |c|)
  }

  lemma RoundOfBound(st: TableState, rounds: seq<nat>, challenges: seq<int>, k: nat, twoInv: int)
    requires k < |challenges| && Sized(st) && |ActiveChallenges(rounds, challenges, k + 1)| <= st.numVars
    ensures var c, d := ActiveChallenges(rounds, challenges, k), ActiveChallenges(rounds, challenges, k + 1);
      && |c| <= st.numVars
      && BindState(BoundState(st, c, k - |c|, twoInv), k in rounds, challenges[k], twoInv)
           == BoundState(st, d, k + 1 - |d|, twoInv)
  {
    var c, d := ActiveChallenges(rounds, challenges, k), ActiveChallenges(rounds, challenges, k + 1);
    BoundNext(rounds, challenges, k, st.value, st.numVars);
    BoundNext(rounds, challenges, k, st.eq, st.numVars);
    ScaleNext(st.scale, twoInv, k - |c|);
    var a, b := BindState(BoundState(st, c, k - |c|, twoInv), k in rounds, challenges[k], twoInv),
                BoundState(st, d, k + 1 - |d|, twoInv);
    hide BoundLow, BoundRound, Power;
    forall i | 0 <= i < |st.aux| ensures a.aux[i] == b.aux[i] {
      BoundNext(rounds, challenges, k, st.aux[i], st.numVars);
    }
  }

  lemma ScaleNext(scale: int, twoInv: int, k: nat)
    ensures scale * Power(twoInv, k) * twoInv == scale * Power(twoInv, k + 1)
  {
  }

  /** Every message sums to the claim before it, and the claim moves to the
      message's value at its round's challenge. */
  ghost predicate RoundsCheck(f: Field, messages: seq<seq<int>>, challenges: seq<int>, claims: seq<int>) {
    && |claims| == |messages| + 1 <= |challenges| + 1
    && forall k :: 0 <= k < |messages| ==> RoundChecks(f, messages[k], challenges[k], claims[k], claims[k + 1])
  }

  ghost predicate RoundChecks(f: Field, m: seq<int>, challenge: int, before: int, after: int) {
    Same(f, EvalPoly(m, 0) + EvalPoly(m, 1), before) && after == EvalPoly(m, challenge)
  }

  /** The claim is on the scaled sum once the pending challenge is bound. */
  ghost predicate Pending(f: Field, st: TableState, active: bool, challenge: int, twoInv: int, claim: int) {
    && |st.value| == |st.eq| && (active ==> |st.value| % 2 == 0)
    && Same(f, claim, TotalAfter(st.value, st.eq, st.scale, twoInv, active, challenge))
  }

  /** Before round `r` the tables have a variable left for every active round still to come. */
  lemma RoomForRounds(st: TableState, rounds: seq<nat>, challenges: seq<int>, r: nat, twoInv: int)
    requires r < |challenges| && Sized(st) && |ActiveChallenges(rounds, challenges, |challenges|)| <= st.numVars
    ensures Sized(StateAfter(st, rounds, challenges, r, twoInv))
    ensures r in rounds ==> 0 < StateAfter(st, rounds, challenges, r, twoInv).numVars
    ensures r > 0 ==> Sized(StateAfter(st, rounds, challenges, r - 1, twoInv))
    ensures r > 0 ==>
      (if r - 1 in rounds then 1 else 0) + (if r in rounds then 1 else 0)
        <= StateAfter(st, rounds, challenges, r - 1, twoInv).numVars
  {
    ActiveMonotone(rounds, challenges, r + 1, |challenges|);
    ActiveMonotone(rounds, challenges, r, |challenges|);
    RoundsTogether(st, rounds, challenges, r, twoInv);
    if r > 0 {
      ActiveMonotone(rounds, challenges, r - 1, |challenges|);
      RoundsTogether(st, rounds, challenges, r - 1, twoInv);
    }
  }

  /** The claim when round `r` starts: the first one, or one that will be on
      the scaled sum once the last challenge is bound. */
  ghost predicate AtRound(f: Field, st: TableState, rounds: seq<nat>, challenges: seq<int>, r: nat, twoInv: int,
                          claim: int, current: int)
    requires r <= |challenges|
  {
    && (r == 0 ==> current == claim)
    && (r > 0 && |st.value| == |st.eq| && Same(f, claim, TotalOf(st)) ==>
         Pending(f, StateAfter(st, rounds, challenges, r - 1, twoInv), r - 1 in rounds, challenges[r - 1], twoInv,
                 current))
  }

  lemma ClaimAtRound(f: Field, st: TableState, rounds: seq<nat>, challenges: seq<int>, r: nat, twoInv: int, claim: int,
                     current: int)
    requires r <= |challenges| && Sized(st) && Same(f, claim, TotalOf(st))
    requires AtRound(f, st, rounds, challenges, r, twoInv, claim, current)
    requires Sized(StateAfter(st, rounds, challenges, r, twoInv))
    ensures Same(f, current, TotalOf(StateAfter(st, rounds, challenges, r, twoInv)))
  {
    if r > 0 {
      TotalMoves(StateAfter(st, rounds, challenges, r - 1, twoInv), r - 1 in rounds, challenges[r - 1], twoInv);
    }
  }

  lemma NextRound(f: Field, st: TableState, rounds: seq<nat>, challenges: seq<int>, r: nat, scaleInv: int, twoInv: int,
                  claim: int, current: int, m: seq<int>)
    requires IsField(f) && r < |challenges| && Sized(st)
    requires AtRound(f, st, rounds, challenges, r, twoInv, claim, current)
    requires Sized(StateAfter(st, rounds, challenges, r, twoInv)) && Same(f, twoInv * 2, 1)
    requires var now := StateAfter(st, rounds, challenges, r, twoInv);
      && (r in rounds ==> |now.value| % 2 == 0) && Same(f, now.scale * scaleInv, 1)
      && m == MessageOf(now.value, now.eq, now.scale, scaleInv, twoInv, r in rounds, current)
    ensures AtRound(f, st, rounds, challenges, r + 1, twoInv, claim, EvalPoly(m, challenges[r]))
    ensures RoundChecks(f, m, challenges[r], current, EvalPoly(m, challenges[r]))
    ensures MessageIs(f, StateAfter(st, rounds, challenges, r, twoInv), r in rounds, m)
  {
    var now := StateAfter(st, rounds, challenges, r, twoInv);
    MessageSum(f, now.value, now.eq, now.scale, scaleInv, twoInv, r in rounds, current);
    if r in rounds {
      MessageValues(f, now.value, now.eq, now.scale, scaleInv, twoInv, current);
    }
    if Same(f, claim, TotalOf(st)) {
      ClaimAtRound(f, st, rounds, challenges, r, twoInv, claim, current);
      MessageFollows(f, now.value, now.eq, now.scale, scaleInv, twoInv, r in rounds, current, challenges[r]);
    }
  }

  /** A message is the scaled sums at 0 and 2 of the tables it is made from,
      and a constant while inactive. */
  ghost predicate MessageIs(f: Field, st: TableState, active: bool, m: seq<int>) {
    if active then (
      && |m| == 3 && |st.value| == |st.eq| && |st.value| % 2 == 0
      && Same(f, EvalPoly(m, 0), st.scale * LowSum(st.value, st.eq, 0))
      && Same(f, EvalPoly(m, 2), st.scale * LowSum(st.value, st.eq, 2)))
    else |m| == 1
  }

  /** One round of the driver: the pending challenge goes in, a message comes
      out, and the claim moves to its value at this round's challenge. */
  method PhaseRound(f: Field, tables: PrecommittedTables, rounds: seq<nat>, challenges: seq<int>, round: nat,
                    current: int, ghost start: TableState, ghost claim: int)
    returns (m: seq<int>, next: int)
    requires IsField(f) && tables.Valid(f) && Sized(start) && Ascending(rounds) && round < |challenges|
    requires |ActiveChallenges(rounds, challenges, |challenges|)| <= start.numVars
    requires tables.State() == StateAfter(start, rounds, challenges, if round == 0 then 0 else round - 1, tables.twoInv)
    requires AtRound(f, start, rounds, challenges, round, tables.twoInv, claim, current)
    modifies tables, tables.value, tables.eq, tables.aux
    ensures tables.Valid(f) && tables.State() == StateAfter(start, rounds, challenges, round, tables.twoInv)
    ensures AtRound(f, start, rounds, challenges, round + 1, tables.twoInv, claim, next)
    ensures RoundChecks(f, m, challenges[round], current, next)
    ensures MessageIs(f, StateAfter(start, rounds, challenges, round, tables.twoInv), round in rounds, m)
  {
    RoomForRounds(start, rounds, challenges, round, tables.twoInv);
    var bind := if round == 0 then None else Some(challenges[round - 1]);
    m := tables.ProveRound(f, rounds, bind, round, current);
    next := Horner(m, challenges[round]);
    NextRound(f, start, rounds, challenges, round, tables.scaleInv, tables.twoInv, claim, current, m);
  }

  ghost predicate MessagesAre(f: Field, start: TableState, rounds: seq<nat>, challenges: seq<int>, twoInv: int,
                              messages: seq<seq<int>>) {
    && |messages| <= |challenges|
    && forall r :: 0 <= r < |messages| ==>
         MessageIs(f, StateAfter(start, rounds, challenges, r, twoInv), r in rounds, messages[r])
  }

  lemma StateStep(st: TableState, rounds: seq<nat>, challenges: seq<int>, r: nat, twoInv: int)
    requires 0 < r <= |challenges|
    ensures StateAfter(st, rounds, challenges, r, twoInv)
         == BindState(StateAfter(st, rounds, challenges, r - 1, twoInv), r - 1 in rounds, challenges[r - 1], twoInv)
  {
  }

  lemma PhaseStarts(f: Field, st: TableState, rounds: seq<nat>, challenges: seq<int>, twoInv: int, claim: int)
    ensures StateAfter(st, rounds, challenges, 0, twoInv) == st
    ensures AtRound(f, st, rounds, challenges, 0, twoInv, claim, claim)
    ensures RoundsCheck(f, [], challenges, [claim]) && MessagesAre(f, st, rounds, challenges, twoInv, [])
  {
  }

  lemma OneMoreMessage(f: Field, st: TableState, rounds: seq<nat>, challenges: seq<int>, twoInv: int,
                       messages: seq<seq<int>>, claims: seq<int>, m: seq<int>, next: int)
    requires RoundsCheck(f, messages, challenges, claims) && |messages| < |challenges|
    requires MessagesAre(f, st, rounds, challenges, twoInv, messages)
    requires RoundChecks(f, m, challenges[|messages|], claims[|messages|], next)
    requires MessageIs(f, StateAfter(st, rounds, challenges, |messages|, twoInv), |messages| in rounds, m)
    ensures RoundsCheck(f, messages + [m], challenges, claims + [next]) && |claims| == |messages| + 1
    ensures MessagesAre(f, st, rounds, challenges, twoInv, messages + [m])
  {
    hide RoundChecks, MessageIs, StateAfter;
  }

  /** Drive one phase: round after round, each challenge answered by the next
      bind, the last one by `finish_rounds`. */
  method RunPhase(f: Field, tables: PrecommittedTables, rounds: seq<nat>, challenges: seq<int>, claim: int)
    returns (final: int, messages: seq<seq<int>>, ghost claims: seq<int>)
    requires IsField(f) && tables.Valid(f) && Sized(tables.State()) && Ascending(rounds)
    requires |ActiveChallenges(rounds, challenges, |challenges|)| <= tables.value.numVars
    modifies tables, tables.value, tables.eq, tables.aux
    ensures tables.Valid(f) && Sized(tables.State())
    ensures tables.State() == StateAfter(old(tables.State()), rounds, challenges, |challenges|, tables.twoInv)
    ensures RoundsCheck(f, messages, challenges, claims) && |messages| == |challenges|
    ensures MessagesAre(f, old(tables.State()), rounds, challenges, tables.twoInv, messages)
    ensures claims[0] == claim && claims[|messages|] == final
    ensures Same(f, claim, TotalOf(old(tables.State()))) ==> Same(f, final, TotalOf(tables.State()))
  {
    hide ActiveChallenges, StateAfter, BindState, BoundState, BindLow, AtRound, RoundChecks, MessageIs, EvalPoly;
    hide TotalOf, RoundsCheck, MessagesAre;
    ghost var start := tables.State();
    PhaseStarts(f, start, rounds, challenges, tables.twoInv, claim);
    var total := |challenges|;
    final, messages, claims := claim, [], [claim];
    for round := 0 to total
      invariant tables.Valid(f)
      invariant tables.State()
           == StateAfter(start, rounds, challenges, if round == 0 then 0 else round - 1, tables.twoInv)
      invariant AtRound(f, start, rounds, challenges, round, tables.twoInv, claim, final)
      invariant RoundsCheck(f, messages, challenges, claims) && |messages| == round && |claims| == round + 1
      invariant claims[0] == claim && claims[round] == final
      invariant MessagesAre(f, start, rounds, challenges, tables.twoInv, messages)
    {
      var m, next := PhaseRound(f, tables, rounds, challenges, round, final, start, claim);
      OneMoreMessage(f, start, rounds, challenges, tables.twoInv, messages, claims, m, next);
      messages, claims := messages + [m], claims + [next];
      final := next;
    }
    if total > 0 {
      RoomForRounds(start, rounds, challenges, total - 1, tables.twoInv);
      tables.FinishRounds(f, rounds, total, challenges[total - 1]);
      StateStep(start, rounds, challenges, total, tables.twoInv);
    }
    RoundsTogether(start, rounds, challenges, total, tables.twoInv);
    if Same(f, claim, TotalOf(start)) {
      ClaimAtRound(f, start, rounds, challenges, total, tables.twoInv, claim, final);
    }
  }

  // The schedule of a table: which rounds of each phase bind one of its variables.

  method InsertAscending(list: seq<nat>, x: nat) returns (r: seq<nat>)
    requires Ascending(list)
    ensures Ascending(r) && forall y :: y in r <==> y in list || y == x
  {
    var at := 0;
    while at < |list| && list[at] < x
      invariant at <= |list| && forall k :: 0 <= k < at ==> list[k] < x
    {
      at := at + 1;
    }
    if at < |list| && list[at] == x {
      return list;
    }
    r := list[..at] + [x] + list[at..];
    forall y | y in list ensures y in r {
      var k :| 0 <= k < |list| && list[k] == y;
      assert r[if k < at then k else k + 1] == y;
    }
    assert r[at] == x;
  }

  /** `active_rounds_from_poly_permutation`: each phase's rounds, ascending and once each. */
  method ActiveRounds(rounds: seq<nat>, limit: nat) returns (cycle: seq<nat>, address: seq<nat>)
    ensures Ascending(cycle) && Ascending(address)
    ensures PhaseRounds(rounds, limit, cycle, address)
  {
    cycle, address := [], [];
    for i := 0 to |rounds|
      invariant Ascending(cycle) && Ascending(address)
      invariant PhaseRounds(rounds[..i], limit, cycle, address)
    {
      var round := rounds[i];
      if round < limit {
        var next := InsertAscending(cycle, round);
        PhaseRoundsNext(rounds, i, limit, cycle, address, next, address);
        cycle := next;
      } else {
        var next := InsertAscending(address, round - limit);
        PhaseRoundsNext(rounds, i, limit, cycle, address, cycle, next);
        address := next;
      }
    }
    assert rounds[..|rounds|] == rounds;
  }

  ghost predicate PhaseRounds(rounds: seq<nat>, limit: nat, cycle: seq<nat>, address: seq<nat>) {
    && (forall r :: r in cycle <==> r in rounds && r < limit)
    && (forall r :: r in address <==> InAddress(rounds, limit, r))
  }

  lemma PhaseRoundsNext(rounds: seq<nat>, i: nat, limit: nat, cycle: seq<nat>, address: seq<nat>, cycle': seq<nat>,
                        address': seq<nat>)
    requires i < |rounds| && PhaseRounds(rounds[..i], limit, cycle, address)
    requires forall y :: y in cycle' <==> y in cycle || (rounds[i] < limit && y == rounds[i])
    requires forall y :: y in address' <==> y in address || (limit <= rounds[i] && y == rounds[i] - limit)
    ensures PhaseRounds(rounds[..i + 1], limit, cycle', address')
  {
    assert rounds[..i + 1] == rounds[..i] + [rounds[i]];
    forall r ensures r in address' <==> InAddress(rounds[..i + 1], limit, r) {
      assert r in address <==> InAddress(rounds[..i], limit, r);
    }
  }

  ghost predicate InAddress(rounds: seq<nat>, limit: nat, r: nat) {
    limit + r in rounds
  }

  lemma {:induction false} CyclePart(rounds: seq<nat>, limit: nat, cycle: seq<nat>, challenges: seq<int>, r: nat)
    requires r <= limit <= |challenges| && forall r :: r in cycle <==> r in rounds && r < limit
    ensures ActiveChallenges(cycle, challenges[..limit], r) == ActiveChallenges(rounds, challenges, r)
  {
    if r > 0 {
      CyclePart(rounds, limit, cycle, challenges, r - 1);
    }
  }

  lemma {:induction false} AddressPart(rounds: seq<nat>, limit: nat, address: seq<nat>, challenges: seq<int>, r: nat)
    requires limit + r <= |challenges| && forall r :: r in address <==> InAddress(rounds, limit, r)
    ensures ActiveChallenges(rounds, challenges, limit + r)
         == ActiveChallenges(rounds, challenges, limit) + ActiveChallenges(address, challenges[limit..], r)
  {
    if r == 0 {
      assert ActiveChallenges(rounds, challenges, limit) + [] == ActiveChallenges(rounds, challenges, limit);
    } else {
      AddressPart(rounds, limit, address, challenges, r - 1);
      assert InAddress(rounds, limit, r - 1) <==> r - 1 in address;
    }
  }

  ghost predicate DistinctRounds(rounds: seq<nat>) {
    forall i, j :: 0 <= i < j < |rounds| ==> rounds[i] != rounds[j]
  }

  /** The active challenges before round `r` are those of the first variables in round order. */
  lemma {:induction false} ActiveInOrder(rounds: seq<nat>, order: seq<nat>, rank: seq<nat>, challenges: seq<int>,
                                         r: nat)
    requires ByRound(rounds, order, rank) && DistinctRounds(rounds) && r <= |challenges|
    ensures var c := ActiveChallenges(rounds, challenges, r);
      && |c| <= |order|
      && (forall k :: 0 <= k < |c| ==> rounds[order[k]] < r && c[k] == challenges[rounds[order[k]]])
      && (forall k :: |c| <= k < |order| ==> r <= rounds[order[k]])
  {
    if r > 0 {
      ActiveInOrder(rounds, order, rank, challenges, r - 1);
      var before := ActiveChallenges(rounds, challenges, r - 1);
      if r - 1 in rounds {
        var i :| 0 <= i < |rounds| && rounds[i] == r - 1;
        NextInOrder(rounds, order, rank, |before|, i);
      }
      forall k | |ActiveChallenges(rounds, challenges, r)| <= k < |order| ensures r <= rounds[order[k]] {
        assert rounds[order[k]] in rounds;
      }
    }
  }

  /** The first variable not yet listed is the one whose round it is. */
  lemma NextInOrder(rounds: seq<nat>, order: seq<nat>, rank: seq<nat>, at: nat, i: nat)
    requires ByRound(rounds, order, rank) && DistinctRounds(rounds) && i < |rounds| && at <= |order|
    requires forall k :: 0 <= k < at ==> rounds[order[k]] < rounds[i]
    requires forall k :: at <= k < |order| ==> rounds[i] <= rounds[order[k]]
    ensures at < |order| && order[at] == i && forall k :: at < k < |order| ==> rounds[i] < rounds[order[k]]
  {
    StrictByRound(rounds, order, rank);
    assert order[rank[i]] == i;
    assert at <= rank[i];
    assert rounds[i] <= rounds[order[at]];
    assert rank[i] == at;
  }

  lemma StrictByRound(rounds: seq<nat>, order: seq<nat>, rank: seq<nat>)
    requires ByRound(rounds, order, rank) && DistinctRounds(rounds)
    ensures forall a, b :: 0 <= a < b < |order| ==> rounds[order[a]] < rounds[order[b]]
  {
    forall a, b | 0 <= a < b < |order| ensures rounds[order[a]] < rounds[order[b]] {
      assert rank[order[a]] == a && rank[order[b]] == b;
      assert order[a] < order[b] || order[b] < order[a];
    }
  }

  /** The opening point: every variable at the challenge of its own round. */
  function OpeningPoint(rounds: seq<nat>, challenges: seq<int>): (point: seq<int>)
    requires forall i :: 0 <= i < |rounds| ==> rounds[i] < |challenges|
    ensures |point| == |rounds|
  {
    seq(|rounds|, i requires 0 <= i < |rounds| => challenges[rounds[i]])
  }

  /** Every variable is bound, each by its own round's challenge. */
  lemma AllInOrder(rounds: seq<nat>, order: seq<nat>, rank: seq<nat>, challenges: seq<int>)
    requires ByRound(rounds, order, rank) && DistinctRounds(rounds) && forall i :: 0 <= i < |rounds| ==>
      rounds[i] < |challenges|
    ensures var c := ActiveChallenges(rounds, challenges, |challenges|);
      && |c| == |rank| && (forall i :: 0 <= i < |rank| ==> rank[i] < |c|)
      && ByRank(c, rank) == OpeningPoint(rounds, challenges)
  {
    ActiveInOrder(rounds, order, rank, challenges, |challenges|);
    var c := ActiveChallenges(rounds, challenges, |challenges|);
    NoneLeft(rounds, order, |c|, |challenges|);
    forall i | 0 <= i < |rank| ensures c[rank[i]] == challenges[rounds[i]] {
      assert order[rank[i]] == i;
    }
  }

  lemma NoneLeft(rounds: seq<nat>, order: seq<nat>, at: nat, total: nat)
    requires at <= |order| && |order| == |rounds| && forall k :: 0 <= k < |order| ==> order[k] < |rounds|
    requires forall k :: at <= k < |order| ==> total <= rounds[order[k]]
    requires forall i :: 0 <= i < |rounds| ==> rounds[i] < total
    ensures at == |order|
  {
    if order != [] {
      assert rounds[order[|order| - 1]] < total;
    }
  }

  /** A table permuted into round order and bound by the active challenges of
      all its rounds is its extension at the opening point. */
  lemma OpensAtPoint(table: seq<int>, rounds: seq<nat>, order: seq<nat>, rank: seq<nat>, challenges: seq<int>)
    requires ByRound(rounds, order, rank) && Inverses(OldToNew(rank), NewToOld(order)) && DistinctRounds(rounds)
    requires |table| == Pow2(|rounds|) && forall i :: 0 <= i < |rounds| ==> rounds[i] < |challenges|
    ensures |ActiveChallenges(rounds, challenges, |challenges|)| == |rounds|
    ensures BoundLow(Permuted(table, OldToNew(rank)), |rounds|, ActiveChallenges(rounds, challenges, |challenges|))
         == [Mle(table, OpeningPoint(rounds, challenges))]
  {
    AllInOrder(rounds, order, rank, challenges);
    PermutedThenBound(table, order, rank, ActiveChallenges(rounds, challenges, |challenges|));
  }

  lemma {:induction false} BoundLowConcat(t: seq<int>, n: nat, a: seq<int>, b: seq<int>)
    requires |t| == Pow2(n) && |a| + |b| <= n
    ensures BoundLow(t, n, a + b) == BoundLow(BoundLow(t, n, a), n - |a|, b)
    decreases |b|
  {
    if b == [] {
      assert a + b == a;
    } else {
      var k := |b| - 1;
      BoundLowConcat(t, n, a, b[..k]);
      assert (a + b)[..|a + b| - 1] == a + b[..k];
    }
  }

  // The reduction from end to end.

  /** The tables a reduction starts from: permuted into round order. */
  function StartState(v: seq<int>, e: seq<int>, chunks: seq<seq<int>>, oldToNew: seq<nat>): (st: TableState)
    requires |v| == |e| == Pow2(|oldToNew|) && (forall i :: 0 <= i < |chunks| ==> |chunks[i]| == Pow2(|oldToNew|))
    requires forall o :: 0 <= o < |oldToNew| ==> oldToNew[o] < |oldToNew|
    ensures Sized(st)
  {
    TableState(Permuted(v, oldToNew), Permuted(e, oldToNew),
               seq(|chunks|, i requires 0 <= i < |chunks| => Permuted(chunks[i], oldToNew)), 1, |oldToNew|)
  }

  /** `permute_tables`: each table into round order. */
  method PermuteTables(rounds: seq<nat>, v: seq<int>, e: seq<int>, chunks: seq<seq<int>>)
    returns (pv: seq<int>, pe: seq<int>, pc: seq<seq<int>>, ghost order: seq<nat>, ghost rank: seq<nat>)
    requires |v| == |e| == Pow2(|rounds|) && forall i :: 0 <= i < |chunks| ==> |chunks[i]| == Pow2(|rounds|)
    ensures ByRound(rounds, order, rank) && Inverses(OldToNew(rank), NewToOld(order))
    ensures TableState(pv, pe, pc, 1, |rounds|) == StartState(v, e, chunks, OldToNew(rank))
  {
    var relabel;
    relabel, order, rank := LsbPermutation(rounds);
    RelabelInverse(order, rank);
    pv := PermuteWith(v, relabel, order, rank);
    pe := PermuteWith(e, relabel, order, rank);
    pc := [];
    for i := 0 to |chunks|
      invariant |pc| == i && forall j :: 0 <= j < i ==> pc[j] == Permuted(chunks[j], OldToNew(rank))
    {
      var next := PermuteWith(chunks[i], relabel, order, rank);
      pc := pc + [next];
    }
  }

  /** The state once every active round of both phases is bound. */
  lemma FinalState(rounds: seq<nat>, order: seq<nat>, rank: seq<nat>, v: seq<int>, e: seq<int>, chunks: seq<seq<int>>,
                   challenges: seq<int>, halvings: nat, twoInv: int)
    requires ByRound(rounds, order, rank) && Inverses(OldToNew(rank), NewToOld(order)) && DistinctRounds(rounds)
    requires |v| == |e| == Pow2(|rounds|) && (forall i :: 0 <= i < |chunks| ==> |chunks[i]| == Pow2(|rounds|))
    requires forall i :: 0 <= i < |rounds| ==> rounds[i] < |challenges|
    ensures var c, point := ActiveChallenges(rounds, challenges, |challenges|), OpeningPoint(rounds, challenges);
      && |c| == |rounds|
      && var st := BoundState(StartState(v, e, chunks, OldToNew(rank)), c, halvings, twoInv);
      && st.value == [Mle(v, point)] && st.eq == [Mle(e, point)] && |st.aux| == |chunks|
      && forall i :: 0 <= i < |chunks| ==> st.aux[i] == [Mle(chunks[i], point)]
  {
    OpensAtPoint(v, rounds, order, rank, challenges);
    OpensAtPoint(e, rounds, order, rank, challenges);
    forall i | 0 <= i < |chunks|
      ensures BoundLow(Permuted(chunks[i], OldToNew(rank)), |rounds|,
                       ActiveChallenges(rounds, challenges, |challenges|))
           == [Mle(chunks[i], OpeningPoint(rounds, challenges))]
    {
      OpensAtPoint(chunks[i], rounds, order, rank, challenges);
    }
  }

  /** The two phases one after the other are one run over all the rounds. */
  lemma PhasesTogether(rounds: seq<nat>, limit: nat, cycle: seq<nat>, address: seq<nat>, st: TableState,
                       challenges: seq<int>, twoInv: int)
    requires limit <= |challenges| && PhaseRounds(rounds, limit, cycle, address) && Sized(st)
    requires |ActiveChallenges(rounds, challenges, |challenges|)| == st.numVars
    ensures |ActiveChallenges(cycle, challenges[..limit], limit)| <= st.numVars
    ensures var middle := StateAfter(st, cycle, challenges[..limit], limit, twoInv);
      && Sized(middle) && |ActiveChallenges(address, challenges[limit..], |challenges| - limit)| == middle.numVars
      && StateAfter(middle, address, challenges[limit..], |challenges| - limit, twoInv)
           == BoundState(st, ActiveChallenges(rounds, challenges, |challenges|), |challenges| - st.numVars, twoInv)
  {
    CyclePart(rounds, limit, cycle, challenges, limit);
    AddressPart(rounds, limit, address, challenges, |challenges| - limit);
    TwoRuns(st, cycle, challenges[..limit], limit, address, challenges[limit..], |challenges| - limit, twoInv);
  }

  lemma TwoRuns(st: TableState, cycle: seq<nat>, before: seq<int>, m: nat, address: seq<nat>, after: seq<int>, n: nat,
                twoInv: int)
    requires Sized(st) && m <= |before| && n <= |after|
    requires |ActiveChallenges(cycle, before, m)| + |ActiveChallenges(address, after, n)| == st.numVars
    ensures var middle, a, b := StateAfter(st, cycle, before, m, twoInv), ActiveChallenges(cycle, before, m),
                                ActiveChallenges(address, after, n);
      && Sized(middle) && |b| == middle.numVars
      && StateAfter(middle, address, after, n, twoInv) == BoundState(st, a + b, m + n - st.numVars, twoInv)
  {
    var a, b := ActiveChallenges(cycle, before, m), ActiveChallenges(address, after, n);
    RoundsTogether(st, cycle, before, m, twoInv);
    var middle := StateAfter(st, cycle, before, m, twoInv);
    assert middle.numVars == st.numVars - |a|;
    hide StateAfter, ActiveChallenges, BindState;
    RoundsTogether(middle, address, after, n, twoInv);
    BoundTwice(st, a, m - |a|, b, n - |b|, twoInv);
  }

  lemma BoundTwice(st: TableState, a: seq<int>, m: nat, b: seq<int>, n: nat, twoInv: int)
    requires Sized(st) && |a| + |b| <= st.numVars
    ensures BoundState(BoundState(st, a, m, twoInv), b, n, twoInv) == BoundState(st, a + b, m + n, twoInv)
  {
    BoundLowConcat(st.value, st.numVars, a, b);
    BoundLowConcat(st.eq, st.numVars, a, b);
    PowerSplit(st.scale, twoInv, m, n);
    var x, y := BoundState(BoundState(st, a, m, twoInv), b, n, twoInv), BoundState(st, a + b, m + n, twoInv);
    hide BoundLow, Power;
    forall i | 0 <= i < |st.aux| ensures x.aux[i] == y.aux[i] {
      BoundLowConcat(st.aux[i], st.numVars, a, b);
    }
  }

  lemma {:induction false} PowerSplit(s: int, x: int, m: nat, n: nat)
    ensures s * Power(x, m) * Power(x, n) == s * Power(x, m + n)
  {
    if n == 0 {
      assert s * Power(x, m) * 1 == s * Power(x, m);
    } else {
      PowerSplit(s, x, m, n - 1);
      Reassociate(s * Power(x, m), Power(x, n - 1), x);
      Reassociate(s, Power(x, m + n - 1), x);
    }
  }

  lemma Reassociate(a: int, b: int, c: int)
    ensures a * b * c == a * (b * c)
  {
  }

  /** What a reduction hands out: the claim staged between the phases, if the
      address phase has rounds of its own, the final openings and the final claim. */
  datatype ReductionResult = ReductionResult(
    intermediate: Option<int>, opening: int, chunkOpenings: seq<int>, finalClaim: int)

  /** Some variable is opened in the address phase. */
  predicate AddressActive(rounds: seq<nat>, limit: nat) {
    exists i :: 0 <= i < |rounds| && limit <= rounds[i]
  }

  /** The rounds the reduction sits through: both phases, or the cycle phase
      alone when it has no address round. */
  function RoundsDriven(rounds: seq<nat>, limit: nat, total: nat): nat {
    if AddressActive(rounds, limit) then total else limit
  }

  /** The openings are the original tables at the opening point. */
  ghost predicate OpensOriginals(rounds: seq<nat>, v: seq<int>, chunks: seq<seq<int>>, challenges: seq<int>,
                                 opening: int, chunkOpenings: seq<int>)
    requires |v| == Pow2(|rounds|) && (forall i :: 0 <= i < |chunks| ==> |chunks[i]| == Pow2(|rounds|))
    requires forall i :: 0 <= i < |rounds| ==> rounds[i] < |challenges|
  {
    var point := OpeningPoint(rounds, challenges);
    && opening == Mle(v, point) && |chunkOpenings| == |chunks|
    && forall i :: 0 <= i < |chunks| ==> chunkOpenings[i] == Mle(chunks[i], point)
  }

  /** The scaled product the final claim should be: one halving for each round
      driven that bound no variable. */
  function ExpectedClaim(rounds: seq<nat>, limit: nat, v: seq<int>, e: seq<int>, challenges: seq<int>, twoInv: int): int
    requires |v| == |e| == Pow2(|rounds|) && |rounds| <= RoundsDriven(rounds, limit, |challenges|)
    requires forall i :: 0 <= i < |rounds| ==> rounds[i] < |challenges|
  {
    var point := OpeningPoint(rounds, challenges);
    Power(twoInv, RoundsDriven(rounds, limit, |challenges|) - |rounds|) * (Mle(v, point) * Mle(e, point))
  }

  /** The fully bound coefficients. */
  method FinalClaims(tables: PrecommittedTables, ghost v: int, ghost e: int, ghost chunks: seq<int>, ghost scale: int)
    returns (opening: int, chunkOpenings: seq<int>)
    requires FullyBound(tables.State(), v, e, chunks, scale)
    ensures opening == v && chunkOpenings == chunks
    ensures TotalOf(tables.State()) == scale * (v * e)
  {
    chunkOpenings := [];
    for i := 0 to |tables.aux|
      invariant chunkOpenings == chunks[..i]
    {
      assert tables.State().aux[i] == [chunks[i]];
      chunkOpenings := chunkOpenings + [tables.aux[i].evals[0]];
    }
    assert tables.State().value == [v];
    opening := tables.value.evals[0];
    assert Dot([v], [e]) == v * e + Dot([], []);
  }

  /** The state a phase must end in for the openings to be read off. */
  ghost predicate FullyBound(st: TableState, v: int, e: int, chunks: seq<int>, scale: int) {
    && st.value == [v] && st.eq == [e] && st.scale == scale && |st.aux| == |chunks|
    && forall i :: 0 <= i < |chunks| ==> st.aux[i] == [chunks[i]]
  }

  function MleAll(chunks: seq<seq<int>>, point: seq<int>): (r: seq<int>)
    requires forall i :: 0 <= i < |chunks| ==> |chunks[i]| == Pow2(|point|)
    ensures |r| == |chunks|
  {
    seq(|chunks|, i requires 0 <= i < |chunks| => Mle(chunks[i], point))
  }

  /** The state the driven phases lead to. */
  ghost function AfterPhases(st: TableState, cycle: seq<nat>, address: seq<nat>, limit: nat, challenges: seq<int>,
                             twoInv: int): TableState
    requires limit <= |challenges|
  {
    var middle := StateAfter(st, cycle, challenges[..limit], limit, twoInv);
    if address == [] then middle else StateAfter(middle, address, challenges[limit..], |challenges| - limit, twoInv)
  }

  /** Where the run of the driven phases ends. */
  lemma RunEnds(rounds: seq<nat>, limit: nat, cycle: seq<nat>, address: seq<nat>, order: seq<nat>, rank: seq<nat>,
                v: seq<int>, e: seq<int>, chunks: seq<seq<int>>, challenges: seq<int>, twoInv: int)
    requires ByRound(rounds, order, rank) && Inverses(OldToNew(rank), NewToOld(order)) && DistinctRounds(rounds)
    requires limit <= |challenges| && PhaseRounds(rounds, limit, cycle, address)
    requires |v| == |e| == Pow2(|rounds|) && (forall i :: 0 <= i < |chunks| ==> |chunks[i]| == Pow2(|rounds|))
    requires forall i :: 0 <= i < |rounds| ==> rounds[i] < |challenges|
    ensures |ActiveChallenges(cycle, challenges[..limit], limit)| <= |rounds|
    ensures |rounds| <= RoundsDriven(rounds, limit, |challenges|) == if address == [] then limit else |challenges|
    ensures address != [] <==> AddressActive(rounds, limit)
    ensures var st, point := StartState(v, e, chunks, OldToNew(rank)), OpeningPoint(rounds, challenges);
      var middle := StateAfter(st, cycle, challenges[..limit], limit, twoInv);
      var scale := Power(twoInv, RoundsDriven(rounds, limit, |challenges|) - |rounds|);
      && Sized(middle) && |ActiveChallenges(address, challenges[limit..], |challenges| - limit)| == middle.numVars
      && FullyBound(AfterPhases(st, cycle, address, limit, challenges, twoInv), Mle(v, point), Mle(e, point),
                    MleAll(chunks, point), scale)
  {
    var st := StartState(v, e, chunks, OldToNew(rank));
    AllInOrder(rounds, order, rank, challenges);
    AddressRounds(rounds, limit, cycle, address);
    PhasesTogether(rounds, limit, cycle, address, st, challenges, twoInv);
    FinalState(rounds, order, rank, v, e, chunks, challenges, |challenges| - |rounds|, twoInv);
    assert 1 * Power(twoInv, |challenges| - |rounds|) == Power(twoInv, |challenges| - |rounds|);
    if address == [] {
      CycleAlone(rounds, limit, cycle, st, challenges, twoInv);
      FinalState(rounds, order, rank, v, e, chunks, challenges, limit - |rounds|, twoInv);
      assert 1 * Power(twoInv, limit - |rounds|) == Power(twoInv, limit - |rounds|);
    }
  }

  lemma AddressRounds(rounds: seq<nat>, limit: nat, cycle: seq<nat>, address: seq<nat>)
    requires PhaseRounds(rounds, limit, cycle, address)
    ensures address != [] <==> AddressActive(rounds, limit)
  {
    if address != [] {
      assert InAddress(rounds, limit, address[0]);
      var i :| 0 <= i < |rounds| && rounds[i] == limit + address[0];
    }
    if i :| 0 <= i < |rounds| && limit <= rounds[i] {
      assert limit + (rounds[i] - limit) == rounds[i];
      assert InAddress(rounds, limit, rounds[i] - limit);
    }
  }

  /** Without address rounds the cycle phase binds every variable. */
  lemma CycleAlone(rounds: seq<nat>, limit: nat, cycle: seq<nat>, st: TableState, challenges: seq<int>, twoInv: int)
    requires limit <= |challenges| && PhaseRounds(rounds, limit, cycle, []) && Sized(st)
    requires |ActiveChallenges(rounds, challenges, |challenges|)| == st.numVars
    ensures st.numVars <= limit
    ensures StateAfter(st, cycle, challenges[..limit], limit, twoInv)
         == BoundState(st, ActiveChallenges(rounds, challenges, |challenges|), limit - st.numVars, twoInv)
  {
    CyclePart(rounds, limit, cycle, challenges, limit);
    AddressPart(rounds, limit, [], challenges, |challenges| - limit);
    NothingActive(challenges[limit..], |challenges| - limit);
    var a := ActiveChallenges(rounds, challenges, limit);
    assert a + [] == a;
    RoundsTogether(st, cycle, challenges[..limit], limit, twoInv);
  }

  lemma {:induction false} NothingActive(challenges: seq<int>, r: nat)
    requires r <= |challenges|
    ensures ActiveChallenges([], challenges, r) == []
  {
    if r > 0 {
      NothingActive(challenges, r - 1);
    }
  }

  // The sum over the variables that are still open.

  /** The first coordinates by rank are fixed. */
  function Ranked(c: seq<int>, rank: seq<nat>): (point: seq<Option<int>>)
    ensures |point| == |rank|
  {
    seq(|rank|, i requires 0 <= i < |rank| => if rank[i] < |c| then Some(c[rank[i]]) else None)
  }

  /** Reordered tables, bound low to high, hold the sum over the open variables
      of the original tables' extensions. */
  lemma {:induction false} BoundDot(v: seq<int>, e: seq<int>, order: seq<nat>, rank: seq<nat>, c: seq<int>)
    requires Inverses(order, rank) && Inverses(OldToNew(rank), NewToOld(order))
    requires |c| <= |rank| && |v| == |e| == Pow2(|rank|)
    ensures Dot(BoundLow(Permuted(v, OldToNew(rank)), |rank|, c), BoundLow(Permuted(e, OldToNew(rank)), |rank|, c))
         == OpenSum(v, e, [], Ranked(c, rank))
    decreases |rank| - |c|
  {
    hide BoundLow, Permuted, OldToNew, NewToOld, OpenSum, Ranked, Dot, Mle, BindLow, Pow2;
    var n, pv, pe, point := |rank|, Permuted(v, OldToNew(rank)), Permuted(e, OldToNew(rank)), Ranked(c, rank);
    if |c| == n {
      PermutedThenBound(v, order, rank, c);
      PermutedThenBound(e, order, rank, c);
      AllRanked(c, rank);
      NothingOpen(v, e, [], point);
      DotOfOne(Mle(v, ByRank(c, rank)), Mle(e, ByRank(c, rank)));
    } else {
      var i := order[|c|];
      assert rank[i] == |c|;
      BoundDot(v, e, order, rank, c + [0]);
      BoundDot(v, e, order, rank, c + [1]);
      RankedNext(order, rank, c, 0);
      RankedNext(order, rank, c, 1);
      SplitAny(v, e, [], point, i);
      BoundNextLow(pv, n, c, 0);
      BoundNextLow(pv, n, c, 1);
      BoundNextLow(pe, n, c, 0);
      BoundNextLow(pe, n, c, 1);
      LowEnds(BoundLow(pv, n, c), BoundLow(pe, n, c));
    }
  }

  lemma AllRanked(c: seq<int>, rank: seq<nat>)
    requires |c| == |rank| && forall i :: 0 <= i < |rank| ==> rank[i] < |c|
    ensures [] + Values(Ranked(c, rank)) == ByRank(c, rank)
    ensures forall i :: 0 <= i < |rank| ==> Ranked(c, rank)[i].Some?
  {
  }

  lemma DotOfOne(a: int, b: int)
    ensures Dot([a], [b]) == a * b
  {
    assert [a][1..] == [] && [b][1..] == [] && Dot([], []) == 0;
  }

  /** One more variable bound fixes the coordinate of that rank. */
  lemma RankedNext(order: seq<nat>, rank: seq<nat>, c: seq<int>, x: int)
    requires Inverses(order, rank) && |c| < |rank|
    ensures order[|c|] < |rank| && Ranked(c + [x], rank) == Ranked(c, rank)[order[|c|] := Some(x)]
    ensures Ranked(c, rank)[order[|c|]] == None
  {
    var next, i := Ranked(c + [x], rank), order[|c|];
    forall j | 0 <= j < |rank| ensures next[j] == Ranked(c, rank)[i := Some(x)][j] {
      assert order[rank[j]] == j;
    }
  }

  lemma BoundNextLow(t: seq<int>, n: nat, c: seq<int>, x: int)
    requires |t| == Pow2(n) && |c| < n
    ensures |BoundLow(t, n, c)| % 2 == 0 && BoundLow(t, n, c + [x]) == BindLow(BoundLow(t, n, c), x)
  {
    hide Pow2;
    BoundLowStep(t, n, c + [x]);
    assert (c + [x])[..|c|] == c;
  }

  lemma BoundLowStep(t: seq<int>, n: nat, c: seq<int>)
    requires |t| == Pow2(n) && 0 < |c| <= n
    ensures var before := BoundLow(t, n, c[..|c| - 1]);
      |before| % 2 == 0 && BoundLow(t, n, c) == BindLow(before, c[|c| - 1])
  {
    EvenDouble(Pow2(n - |c|));
  }

  /** The variables of rounds before `r` at their challenges, the others open. */
  function UpTo(rounds: seq<nat>, r: nat, challenges: seq<int>): (point: seq<Option<int>>)
    requires r <= |challenges|
    ensures |point| == |rounds|
  {
    seq(|rounds|, i requires 0 <= i < |rounds| => if rounds[i] < r then Some(challenges[rounds[i]]) else None)
  }

  /** How many variables rounds before `r` open. */
  function CountBefore(rounds: seq<nat>, r: nat): nat {
    if rounds == [] then 0 else (if rounds[0] < r then 1 else 0) + CountBefore(rounds[1..], r)
  }

  lemma {:induction false} CountNext(rounds: seq<nat>, r: nat)
    requires DistinctRounds(rounds)
    ensures CountBefore(rounds, r + 1) == CountBefore(rounds, r) + if r in rounds then 1 else 0
  {
    if rounds != [] {
      var rest := rounds[1..];
      assert forall i :: 0 <= i < |rest| ==> rest[i] == rounds[i + 1];
      assert r in rounds <==> rounds[0] == r || r in rest;
      CountNext(rest, r);
    }
  }

  lemma {:induction false} NoneBefore(rounds: seq<nat>)
    ensures CountBefore(rounds, 0) == 0
  {
    if rounds != [] {
      NoneBefore(rounds[1..]);
    }
  }

  lemma {:induction false} ActiveCount(rounds: seq<nat>, challenges: seq<int>, r: nat)
    requires r <= |challenges| && DistinctRounds(rounds)
    ensures |ActiveChallenges(rounds, challenges, r)| == CountBefore(rounds, r)
  {
    if r == 0 {
      NoneBefore(rounds);
    } else {
      ActiveCount(rounds, challenges, r - 1);
      CountNext(rounds, r - 1);
    }
  }

  lemma RankedIsUpTo(rounds: seq<nat>, order: seq<nat>, rank: seq<nat>, challenges: seq<int>, r: nat)
    requires ByRound(rounds, order, rank) && DistinctRounds(rounds) && r <= |challenges|
    ensures Ranked(ActiveChallenges(rounds, challenges, r), rank) == UpTo(rounds, r, challenges)
  {
    ActiveInOrder(rounds, order, rank, challenges, r);
    var c := ActiveChallenges(rounds, challenges, r);
    forall i | 0 <= i < |rank| ensures Ranked(c, rank)[i] == UpTo(rounds, r, challenges)[i] {
      assert order[rank[i]] == i;
    }
  }

  lemma RoundSizes(rounds: seq<nat>, order: seq<nat>, rank: seq<nat>)
    requires ByRound(rounds, order, rank)
    ensures |order| == |rank| == |rounds| && Inverses(order, rank) && |OldToNew(rank)| == |rank|
    ensures forall o :: 0 <= o < |OldToNew(rank)| ==> OldToNew(rank)[o] < |OldToNew(rank)|
  {
  }

  lemma StartIs(v: seq<int>, e: seq<int>, chunks: seq<seq<int>>, to: seq<nat>)
    requires |v| == |e| == Pow2(|to|) && (forall i :: 0 <= i < |chunks| ==> |chunks[i]| == Pow2(|to|))
    requires forall o :: 0 <= o < |to| ==> to[o] < |to|
    ensures var st := StartState(v, e, chunks, to);
      st.value == Permuted(v, to) && st.eq == Permuted(e, to) && st.scale == 1 && st.numVars == |to| && Sized(st)
  {
  }

  lemma TotalOfBound(st: TableState, c: seq<int>, halvings: nat, twoInv: int)
    requires Sized(st) && |c| <= st.numVars
    ensures |BoundState(st, c, halvings, twoInv).value| == |BoundState(st, c, halvings, twoInv).eq|
    ensures |st.value| == |st.eq| == Pow2(st.numVars)
    ensures TotalOf(BoundState(st, c, halvings, twoInv))
         == st.scale * Power(twoInv, halvings)
          * Dot(BoundLow(st.value, st.numVars, c), BoundLow(st.eq, st.numVars, c))
  {
  }

  /** After any rounds the tables' total is the halved sum over the open variables. */
  lemma TotalIsOpenSum(rounds: seq<nat>, order: seq<nat>, rank: seq<nat>, v: seq<int>, e: seq<int>,
                       chunks: seq<seq<int>>, challenges: seq<int>, r: nat, twoInv: int)
    requires ByRound(rounds, order, rank) && Inverses(OldToNew(rank), NewToOld(order)) && DistinctRounds(rounds)
    requires |v| == |e| == Pow2(|rounds|) && (forall i :: 0 <= i < |chunks| ==> |chunks[i]| == Pow2(|rounds|))
    requires r <= |challenges|
    ensures var c := ActiveChallenges(rounds, challenges, r);
      && |c| == CountBefore(rounds, r) <= r && |c| <= |rounds|
      && TotalOf(BoundState(StartState(v, e, chunks, OldToNew(rank)), c, r - |c|, twoInv))
           == Power(twoInv, r - CountBefore(rounds, r)) * OpenSum(v, e, [], UpTo(rounds, r, challenges))
  {
    hide *;
    var c, to := ActiveChallenges(rounds, challenges, r), OldToNew(rank);
    RoundSizes(rounds, order, rank);
    ActiveCount(rounds, challenges, r);
    ActiveInOrder(rounds, order, rank, challenges, r);
    BoundDot(v, e, order, rank, c);
    RankedIsUpTo(rounds, order, rank, challenges, r);
    StartIs(v, e, chunks, to);
    TotalOfBound(StartState(v, e, chunks, to), c, r - |c|, twoInv);
    assert 1 * Power(twoInv, r - |c|) == Power(twoInv, r - |c|);
  }

  /** The cycle messages are made from the tables as they are bound, and so are
      the address messages, from where the cycle phase left the tables. */
  ghost predicate PhaseMessages(f: Field, st: TableState, cycle: seq<nat>, address: seq<nat>, limit: nat,
                                challenges: seq<int>, twoInv: int, messages: seq<seq<int>>)
    requires limit <= |challenges|
  {
    && limit <= |messages| && MessagesAre(f, st, cycle, challenges[..limit], twoInv, messages[..limit])
    && MessagesAre(f, StateAfter(st, cycle, challenges[..limit], limit, twoInv), address, challenges[limit..], twoInv,
                   messages[limit..])
  }

  /** The cycle phase, the claim staged for the address phase, and the address
      phase on the same tables; the cycle phase alone if no address round is active. */
  method RunPhases(f: Field, tables: PrecommittedTables, cycle: seq<nat>, address: seq<nat>, limit: nat,
                   challenges: seq<int>, claim: int)
    returns (staged: Option<int>, final: int, messages: seq<seq<int>>, ghost claims: seq<int>)
    requires IsField(f) && tables.Valid(f) && Sized(tables.State()) && Ascending(cycle) && Ascending(address)
    requires limit <= |challenges|
    requires |ActiveChallenges(cycle, challenges[..limit], limit)| <= tables.value.numVars
    requires |ActiveChallenges(address, challenges[limit..], |challenges| - limit)|
          <= StateAfter(tables.State(), cycle, challenges[..limit], limit, tables.twoInv).numVars
    modifies tables, tables.value, tables.eq, tables.aux
    ensures tables.Valid(f) && Sized(tables.State())
    ensures tables.State() == AfterPhases(old(tables.State()), cycle, address, limit, challenges, tables.twoInv)
    ensures |messages| == (if address == [] then limit else |challenges|)
    ensures RoundsCheck(f, messages, challenges, claims) && claims[0] == claim && claims[|messages|] == final
    ensures staged.Some? <==> address != []
    ensures Sized(StateAfter(old(tables.State()), cycle, challenges[..limit], limit, tables.twoInv))
    ensures staged.Some? ==>
      staged.value == TotalOf(StateAfter(old(tables.State()), cycle, challenges[..limit], limit, tables.twoInv))
    ensures PhaseMessages(f, old(tables.State()), cycle, address, limit, challenges, tables.twoInv, messages)
    ensures Same(f, claim, TotalOf(old(tables.State()))) ==> Same(f, final, TotalOf(tables.State()))
    ensures Same(f, claim, TotalOf(old(tables.State()))) && staged.Some? ==> Same(f, staged.value, claims[limit])
  {
    hide StateAfter, ActiveChallenges, BindState, BoundState, Dot, BindLow, MessageIs;
    final, messages, claims := RunPhase(f, tables, cycle, challenges[..limit], claim);
    staged := None;
    if |address| > 0 {
      var intermediate := tables.IntermediateClaim(f);
      staged := Some(intermediate);
      ghost var before, cycleMessages := claims, messages;
      var more;
      ghost var after;
      final, more, after := RunPhase(f, tables, address, challenges[limit..], final);
      messages, claims := messages + more, claims + after[1..];
      assert messages[..limit] == cycleMessages && messages[limit..] == more;
      JoinedChecks(f, cycleMessages, more, challenges, limit, before, after);
    } else {
      FewerChallenges(f, messages, challenges, limit, claims);
      assert messages[..limit] == messages && messages[limit..] == [];
    }
  }

  lemma FewerChallenges(f: Field, messages: seq<seq<int>>, challenges: seq<int>, limit: nat, claims: seq<int>)
    requires limit <= |challenges| && RoundsCheck(f, messages, challenges[..limit], claims)
    ensures RoundsCheck(f, messages, challenges, claims)
  {
    forall k | 0 <= k < |messages| ensures RoundChecks(f, messages[k], challenges[k], claims[k], claims[k + 1]) {
      assert RoundChecks(f, messages[k], challenges[..limit][k], claims[k], claims[k + 1]);
    }
  }

  /** The sum of the summand does not see the reordering of the tables. */
  lemma SumOfSummand(v: seq<int>, e: seq<int>, chunks: seq<seq<int>>, oldToNew: seq<nat>, newToOld: seq<nat>)
    requires |v| == |e| == Pow2(|oldToNew|) && (forall i :: 0 <= i < |chunks| ==> |chunks[i]| == Pow2(|oldToNew|))
    requires Inverses(oldToNew, newToOld)
    ensures TotalOf(StartState(v, e, chunks, oldToNew)) == Dot(v, e)
  {
    DotPermuted(v, e, oldToNew, newToOld);
  }

  /** The bound coefficients are the openings, and their scaled product the
      claim to expect. */
  lemma OpenedRight(rounds: seq<nat>, limit: nat, v: seq<int>, e: seq<int>, chunks: seq<seq<int>>, challenges: seq<int>,
                    twoInv: int)
    requires |v| == |e| == Pow2(|rounds|) && (forall i :: 0 <= i < |chunks| ==> |chunks[i]| == Pow2(|rounds|))
    requires (forall i :: 0 <= i < |rounds| ==> rounds[i] < |challenges|)
    requires |rounds| <= RoundsDriven(rounds, limit, |challenges|)
    ensures var point := OpeningPoint(rounds, challenges);
      && OpensOriginals(rounds, v, chunks, challenges, Mle(v, point), MleAll(chunks, point))
      && Power(twoInv, RoundsDriven(rounds, limit, |challenges|) - |rounds|) * (Mle(v, point) * Mle(e, point))
      == ExpectedClaim(rounds, limit, v, e, challenges, twoInv)
  {
  }

  /** What a round's message says of the original tables, whatever the claim:
      in the round that opens a variable, the halved sums over the other open
      variables with that one at 0 and at 2; a constant in any other round. */
  ghost predicate MessageShows(f: Field, rounds: seq<nat>, v: seq<int>, e: seq<int>, challenges: seq<int>, twoInv: int,
                               r: nat, m: seq<int>)
    requires |v| == |e| == Pow2(|rounds|) && r <= |challenges|
  {
    if r in rounds then (
      && |m| == 3 && CountBefore(rounds, r) <= r
      && forall i :: 0 <= i < |rounds| && rounds[i] == r ==>
           var scale, point := Power(twoInv, r - CountBefore(rounds, r)), UpTo(rounds, r, challenges);
           && Same(f, EvalPoly(m, 0), scale * OpenSum(v, e, [], point[i := Some(0)]))
           && Same(f, EvalPoly(m, 2), scale * OpenSum(v, e, [], point[i := Some(2)])))
    else |m| == 1
  }

  lemma ShowsActive(f: Field, rounds: seq<nat>, v: seq<int>, e: seq<int>, challenges: seq<int>, twoInv: int, r: nat,
                    i: nat, m: seq<int>)
    requires |v| == |e| == Pow2(|rounds|) && r <= |challenges| && DistinctRounds(rounds)
    requires i < |rounds| && rounds[i] == r && CountBefore(rounds, r) <= r && |m| == 3
    requires var scale, point := Power(twoInv, r - CountBefore(rounds, r)), UpTo(rounds, r, challenges);
      && Same(f, EvalPoly(m, 0), scale * OpenSum(v, e, [], point[i := Some(0)]))
      && Same(f, EvalPoly(m, 2), scale * OpenSum(v, e, [], point[i := Some(2)]))
    ensures MessageShows(f, rounds, v, e, challenges, twoInv, r, m)
  {
    hide Power, UpTo, OpenSum, EvalPoly, Same, CountBefore, Pow2;
  }

  lemma ShowsIdle(f: Field, rounds: seq<nat>, v: seq<int>, e: seq<int>, challenges: seq<int>, twoInv: int, r: nat,
                  st: TableState, m: seq<int>)
    requires |v| == |e| == Pow2(|rounds|) && r <= |challenges| && r !in rounds && MessageIs(f, st, false, m)
    ensures MessageShows(f, rounds, v, e, challenges, twoInv, r, m)
  {
  }

  lemma ActiveMessage(f: Field, st: TableState, c: seq<int>, halvings: nat, twoInv: int, m: seq<int>)
    requires Sized(st) && |c| < st.numVars && st.scale == 1
    requires MessageIs(f, BoundState(st, c, halvings, twoInv), true, m)
    ensures |st.value| == |st.eq| == Pow2(st.numVars) && |m| == 3
    ensures var a, b := BoundLow(st.value, st.numVars, c), BoundLow(st.eq, st.numVars, c);
      && |a| == |b| && |a| % 2 == 0
      && Same(f, EvalPoly(m, 0), Power(twoInv, halvings) * LowSum(a, b, 0))
      && Same(f, EvalPoly(m, 2), Power(twoInv, halvings) * LowSum(a, b, 2))
  {
    hide BoundLow, LowSum, EvalPoly, Same, Power;
    assert 1 * Power(twoInv, halvings) == Power(twoInv, halvings);
  }

  /** The whole run's state after `r` rounds, in one list of rounds. */
  lemma MessageOfRun(f: Field, rounds: seq<nat>, order: seq<nat>, rank: seq<nat>, v: seq<int>, e: seq<int>,
                     chunks: seq<seq<int>>, challenges: seq<int>, r: nat, twoInv: int, m: seq<int>)
    requires ByRound(rounds, order, rank) && Inverses(OldToNew(rank), NewToOld(order)) && DistinctRounds(rounds)
    requires |v| == |e| == Pow2(|rounds|) && (forall i :: 0 <= i < |chunks| ==> |chunks[i]| == Pow2(|rounds|))
    requires r < |challenges| && |ActiveChallenges(rounds, challenges, r)| <= |rounds|
    requires var c := ActiveChallenges(rounds, challenges, r);
      MessageIs(f, BoundState(StartState(v, e, chunks, OldToNew(rank)), c, r - |c|, twoInv), r in rounds, m)
    ensures MessageShows(f, rounds, v, e, challenges, twoInv, r, m)
  {
    hide *;
    var c, to := ActiveChallenges(rounds, challenges, r), OldToNew(rank);
    RoundSizes(rounds, order, rank);
    ActiveCount(rounds, challenges, r);
    RankedIsUpTo(rounds, order, rank, challenges, r);
    StartIs(v, e, chunks, to);
    if r in rounds {
      var i :| 0 <= i < |rounds| && rounds[i] == r;
      ActiveInOrder(rounds, order, rank, challenges, r);
      NextInOrder(rounds, order, rank, |c|, i);
      LowIsOpen(v, e, order, rank, c, 0);
      LowIsOpen(v, e, order, rank, c, 2);
      ActiveMessage(f, StartState(v, e, chunks, to), c, r - |c|, twoInv, m);
      ShowsActive(f, rounds, v, e, challenges, twoInv, r, i, m);
    } else {
      ShowsIdle(f, rounds, v, e, challenges, twoInv, r, BoundState(StartState(v, e, chunks, to), c, r - |c|, twoInv),
                m);
    }
  }

  lemma LowIsOpen(v: seq<int>, e: seq<int>, order: seq<nat>, rank: seq<nat>, c: seq<int>, x: int)
    requires Inverses(order, rank) && Inverses(OldToNew(rank), NewToOld(order))
    requires |c| < |rank| && |v| == |e| == Pow2(|rank|)
    ensures var a := BoundLow(Permuted(v, OldToNew(rank)), |rank|, c);
      var b := BoundLow(Permuted(e, OldToNew(rank)), |rank|, c);
      && |a| == |b| && |a| % 2 == 0 && order[|c|] < |rank|
      && LowSum(a, b, x) == OpenSum(v, e, [], Ranked(c, rank)[order[|c|] := Some(x)])
  {
    hide BoundLow, Permuted, OldToNew, NewToOld, OpenSum, Ranked, Dot, BindLow, Pow2;
    BoundDot(v, e, order, rank, c + [x]);
    RankedNext(order, rank, c, x);
    BoundNextLow(Permuted(v, OldToNew(rank)), |rank|, c, x);
    BoundNextLow(Permuted(e, OldToNew(rank)), |rank|, c, x);
  }

  lemma BoundedMessages(f: Field, st: TableState, cycle: seq<nat>, address: seq<nat>, limit: nat, challenges: seq<int>,
                        twoInv: int, messages: seq<seq<int>>)
    requires limit <= |challenges| && PhaseMessages(f, st, cycle, address, limit, challenges, twoInv, messages)
    ensures |messages| <= |challenges|
  {
  }

  /** Every message of both phases. */
  lemma MessagesShow(f: Field, rounds: seq<nat>, limit: nat, cycle: seq<nat>, address: seq<nat>, order: seq<nat>,
                     rank: seq<nat>, v: seq<int>, e: seq<int>, chunks: seq<seq<int>>, challenges: seq<int>,
                     twoInv: int, messages: seq<seq<int>>)
    requires ByRound(rounds, order, rank) && Inverses(OldToNew(rank), NewToOld(order)) && DistinctRounds(rounds)
    requires |v| == |e| == Pow2(|rounds|) && (forall i :: 0 <= i < |chunks| ==> |chunks[i]| == Pow2(|rounds|))
    requires limit <= |challenges| && PhaseRounds(rounds, limit, cycle, address)
    requires var st := StartState(v, e, chunks, OldToNew(rank));
      PhaseMessages(f, st, cycle, address, limit, challenges, twoInv, messages)
    ensures |messages| <= |challenges|
    ensures forall r :: 0 <= r < |messages| ==> MessageShows(f, rounds, v, e, challenges, twoInv, r, messages[r])
  {
    hide *;
    RoundSizes(rounds, order, rank);
    BoundedMessages(f, StartState(v, e, chunks, OldToNew(rank)), cycle, address, limit, challenges, twoInv, messages);
    forall r | 0 <= r < |messages| ensures MessageShows(f, rounds, v, e, challenges, twoInv, r, messages[r]) {
      RunMessage(f, rounds, limit, cycle, address, order, rank, v, e, chunks, challenges, twoInv, messages, r);
    }
  }

  lemma RunMessage(f: Field, rounds: seq<nat>, limit: nat, cycle: seq<nat>, address: seq<nat>, order: seq<nat>,
                   rank: seq<nat>, v: seq<int>, e: seq<int>, chunks: seq<seq<int>>, challenges: seq<int>,
                   twoInv: int, messages: seq<seq<int>>, r: nat)
    requires ByRound(rounds, order, rank) && Inverses(OldToNew(rank), NewToOld(order)) && DistinctRounds(rounds)
    requires |v| == |e| == Pow2(|rounds|) && (forall i :: 0 <= i < |chunks| ==> |chunks[i]| == Pow2(|rounds|))
    requires limit <= |challenges| && PhaseRounds(rounds, limit, cycle, address) && r < |messages| <= |challenges|
    requires var st := StartState(v, e, chunks, OldToNew(rank));
      PhaseMessages(f, st, cycle, address, limit, challenges, twoInv, messages)
    ensures MessageShows(f, rounds, v, e, challenges, twoInv, r, messages[r])
  {
    hide *;
    RoundSizes(rounds, order, rank);
    var st := StartState(v, e, chunks, OldToNew(rank));
    StartIs(v, e, chunks, OldToNew(rank));
    ActiveInOrder(rounds, order, rank, challenges, r);
    if r < limit {
      CycleActive(rounds, limit, cycle, address, challenges, r);
      RoundsTogether(st, cycle, challenges[..limit], r, twoInv);
      CycleMessage(f, st, cycle, address, limit, challenges, twoInv, messages, r);
    } else {
      AddressActiveAt(rounds, limit, cycle, address, challenges, r - limit);
      TwoRunsTo(st, cycle, challenges[..limit], limit, address, challenges[limit..], r - limit, twoInv);
      AddressMessage(f, st, cycle, address, limit, challenges, twoInv, messages, r - limit);
      assert limit + (r - limit) == r;
    }
    MessageOfRun(f, rounds, order, rank, v, e, chunks, challenges, r, twoInv, messages[r]);
  }

  lemma CycleMessage(f: Field, st: TableState, cycle: seq<nat>, address: seq<nat>, limit: nat, challenges: seq<int>,
                     twoInv: int, messages: seq<seq<int>>, r: nat)
    requires limit <= |challenges| && r < limit && r < |messages|
    requires PhaseMessages(f, st, cycle, address, limit, challenges, twoInv, messages)
    ensures MessageIs(f, StateAfter(st, cycle, challenges[..limit], r, twoInv), r in cycle, messages[r])
  {
    hide MessageIs, StateAfter;
    assert messages[..limit][r] == messages[r];
  }

  lemma AddressMessage(f: Field, st: TableState, cycle: seq<nat>, address: seq<nat>, limit: nat, challenges: seq<int>,
                       twoInv: int, messages: seq<seq<int>>, q: nat)
    requires limit + q < |messages| <= |challenges|
    requires PhaseMessages(f, st, cycle, address, limit, challenges, twoInv, messages)
    ensures MessageIs(f, StateAfter(StateAfter(st, cycle, challenges[..limit], limit, twoInv), address,
                                    challenges[limit..], q, twoInv), q in address, messages[limit + q])
  {
    hide MessageIs, StateAfter;
    assert messages[limit..][q] == messages[limit + q];
  }

  lemma TwoRunsTo(st: TableState, cycle: seq<nat>, before: seq<int>, m: nat, address: seq<nat>, after: seq<int>, n: nat,
                  twoInv: int)
    requires Sized(st) && m <= |before| && n <= |after|
    requires |ActiveChallenges(cycle, before, m)| + |ActiveChallenges(address, after, n)| <= st.numVars
    ensures var middle, a, b := StateAfter(st, cycle, before, m, twoInv), ActiveChallenges(cycle, before, m),
                                ActiveChallenges(address, after, n);
      StateAfter(middle, address, after, n, twoInv) == BoundState(st, a + b, m + n - |a + b|, twoInv)
  {
    var a, b := ActiveChallenges(cycle, before, m), ActiveChallenges(address, after, n);
    RoundsTogether(st, cycle, before, m, twoInv);
    var middle := StateAfter(st, cycle, before, m, twoInv);
    assert middle.numVars == st.numVars - |a|;
    hide StateAfter, ActiveChallenges, BindState;
    RoundsTogether(middle, address, after, n, twoInv);
    BoundTwice(st, a, m - |a|, b, n - |b|, twoInv);
  }

  lemma CycleActive(rounds: seq<nat>, limit: nat, cycle: seq<nat>, address: seq<nat>, challenges: seq<int>, r: nat)
    requires r <= limit <= |challenges| && PhaseRounds(rounds, limit, cycle, address)
    ensures ActiveChallenges(cycle, challenges[..limit], r) == ActiveChallenges(rounds, challenges, r)
    ensures r < limit ==> (r in cycle <==> r in rounds)
  {
    CyclePart(rounds, limit, cycle, challenges, r);
  }

  lemma AddressActiveAt(rounds: seq<nat>, limit: nat, cycle: seq<nat>, address: seq<nat>, challenges: seq<int>, q: nat)
    requires limit + q <= |challenges| && PhaseRounds(rounds, limit, cycle, address)
    ensures ActiveChallenges(rounds, challenges, limit + q)
         == ActiveChallenges(cycle, challenges[..limit], limit) + ActiveChallenges(address, challenges[limit..], q)
    ensures q in address <==> limit + q in rounds
  {
    CyclePart(rounds, limit, cycle, challenges, limit);
    AddressPart(rounds, limit, address, challenges, q);
    assert InAddress(rounds, limit, q) <==> q in address;
  }

  /** The staged claim, from the tables alone. */
  lemma StagedIs(rounds: seq<nat>, limit: nat, cycle: seq<nat>, address: seq<nat>, order: seq<nat>, rank: seq<nat>,
                 v: seq<int>, e: seq<int>, chunks: seq<seq<int>>, challenges: seq<int>, twoInv: int)
    requires ByRound(rounds, order, rank) && Inverses(OldToNew(rank), NewToOld(order)) && DistinctRounds(rounds)
    requires |v| == |e| == Pow2(|rounds|) && (forall i :: 0 <= i < |chunks| ==> |chunks[i]| == Pow2(|rounds|))
    requires limit <= |challenges| && PhaseRounds(rounds, limit, cycle, address)
    ensures CountBefore(rounds, limit) <= limit
    ensures var st := StartState(v, e, chunks, OldToNew(rank));
      var middle := StateAfter(st, cycle, challenges[..limit], limit, twoInv);
      && |middle.value| == |middle.eq|
      && TotalOf(middle) == Power(twoInv, limit - CountBefore(rounds, limit))
                            * OpenSum(v, e, [], UpTo(rounds, limit, challenges))
  {
    hide *;
    RoundSizes(rounds, order, rank);
    var st, c := StartState(v, e, chunks, OldToNew(rank)), ActiveChallenges(rounds, challenges, limit);
    StartIs(v, e, chunks, OldToNew(rank));
    CycleActive(rounds, limit, cycle, address, challenges, limit);
    TotalIsOpenSum(rounds, order, rank, v, e, chunks, challenges, limit, twoInv);
    RoundsTogether(st, cycle, challenges[..limit], limit, twoInv);
    TotalOfBound(st, c, limit - |c|, twoInv);
  }

  /** A reduction over both phases. Whatever the schedule, the final openings
      are the original tables at the opening point; a claim that starts on the
      sum of the summand is the staged claim between the phases and ends on the
      scaled product of the two openings; and every message sums to the claim
      it was given. */
  method RunReduction(f: Field, rounds: seq<nat>, limit: nat, v: seq<int>, e: seq<int>, chunks: seq<seq<int>>,
                      challenges: seq<int>, claim: int)
    returns (r: ReductionResult, messages: seq<seq<int>>, ghost claims: seq<int>)
    requires IsField(f) && !Same(f, 2, 0) && DistinctRounds(rounds) && limit <= |challenges|
    requires |v| == |e| == Pow2(|rounds|) && (forall i :: 0 <= i < |chunks| ==> |chunks[i]| == Pow2(|rounds|))
    requires forall i :: 0 <= i < |rounds| ==> rounds[i] < |challenges|
    ensures OpensOriginals(rounds, v, chunks, challenges, r.opening, r.chunkOpenings)
    ensures r.intermediate.Some? <==> AddressActive(rounds, limit)
    ensures |rounds| <= RoundsDriven(rounds, limit, |challenges|) == |messages|
    ensures RoundsCheck(f, messages, challenges, claims) && claims[0] == claim && claims[|messages|] == r.finalClaim
    ensures forall k :: 0 <= k < |messages| ==> MessageShows(f, rounds, v, e, challenges, f.inv(2), k, messages[k])
    ensures CountBefore(rounds, limit) <= limit
    ensures r.intermediate.Some? ==>
      r.intermediate.value == Power(f.inv(2), limit - CountBefore(rounds, limit))
                            * OpenSum(v, e, [], UpTo(rounds, limit, challenges))
    ensures Same(f, claim, Dot(v, e)) ==>
      Same(f, r.finalClaim, ExpectedClaim(rounds, limit, v, e, challenges, f.inv(2)))
    ensures Same(f, claim, Dot(v, e)) && r.intermediate.Some? ==> Same(f, r.intermediate.value, claims[limit])
  {
    hide *;
    var pv, pe, pc, order, rank := PermuteTables(rounds, v, e, chunks);
    RoundSizes(rounds, order, rank);
    StartIs(v, e, chunks, OldToNew(rank));
    var tables := new PrecommittedTables(f, pv, pe, pc, |rounds|);
    var cycle, address := ActiveRounds(rounds, limit);
    SumOfSummand(v, e, chunks, OldToNew(rank), NewToOld(order));
    RunEnds(rounds, limit, cycle, address, order, rank, v, e, chunks, challenges, tables.twoInv);
    OpenedRight(rounds, limit, v, e, chunks, challenges, tables.twoInv);
    ghost var point, scale := OpeningPoint(rounds, challenges),
                              Power(tables.twoInv, RoundsDriven(rounds, limit, |challenges|) - |rounds|);
    StagedIs(rounds, limit, cycle, address, order, rank, v, e, chunks, challenges, tables.twoInv);
    var staged, final;
    staged, final, messages, claims := RunPhases(f, tables, cycle, address, limit, challenges, claim);
    MessagesShow(f, rounds, limit, cycle, address, order, rank, v, e, chunks, challenges, tables.twoInv, messages);
    var opening, chunkOpenings := FinalClaims(tables, Mle(v, point), Mle(e, point), MleAll(chunks, point), scale);
    r := ReductionResult(staged, opening, chunkOpenings, final);
  }

  lemma JoinedChecks(f: Field, a: seq<seq<int>>, b: seq<seq<int>>, challenges: seq<int>, limit: nat, before: seq<int>,
                     after: seq<int>)
    requires limit <= |challenges| && |a| == limit && RoundsCheck(f, a, challenges[..limit], before)
    requires RoundsCheck(f, b, challenges[limit..], after)
    requires before[|a|] == after[0]
    ensures RoundsCheck(f, a + b, challenges, before + after[1..])
    ensures (before + after[1..])[0] == before[0] && (before + after[1..])[|a + b|] == after[|b|]
    ensures (before + after[1..])[limit] == after[0]
  {
    var m, c := a + b, before + after[1..];
    forall k | 0 <= k < |m| ensures RoundChecks(f, m[k], challenges[k], c[k], c[k + 1]) {
      if k < limit {
        assert RoundChecks(f, a[k], challenges[..limit][k], before[k], before[k + 1]);
      } else {
        assert RoundChecks(f, b[k - limit], challenges[limit..][k - limit], after[k - limit], after[k - limit + 1]);
      }
    }
  }
}
