/** The two folded-R1CS sumchecks: provers that bind tables in place, and the
    replay of their compressed rounds by the verifier. */
module Sumcheck {
  import opened Results
  import opened Fields
  import opened Vectors
  import opened Multilinear
  import opened EqTables
  import opened R1cs
  import opened Univariate
  import opened Interpolation
  import opened Dense
  import opened Compressed
  import opened Transcripts

  // The verifier's side.

  datatype Replay = Replay(point: seq<int>, value: int, log: seq<Item>)

  datatype SumcheckError =
    | WrongNumberOfRounds(rounds: nat, got: nat)
    | DegreeBoundExceeded(degree: nat, max: nat)
    | CompressedPolynomialTooShort(round: nat)
    | RoundClaimMismatch(expected: int, actual: int)

  ghost predicate NonemptyRounds(rounds: seq<seq<int>>) {
    forall i :: 0 <= i < |rounds| ==> rounds[i] != []
  }

  /** Absorb each round, draw its challenge, and move the claim to the round
      polynomial's value there, the linear term recovered from the claim. */
  function ReplayRounds(f: Field, oracle: Oracle, name: string, rounds: seq<seq<int>>, claim: int,
                        log: seq<Item>): (r: Replay)
    requires NonemptyRounds(rounds)
    ensures |r.point| == |rounds|
  {
    if rounds == [] then Replay([], claim, log)
    else
      var n := |rounds| - 1;
      var before := ReplayRounds(f, oracle, name, rounds[..n], claim, log);
      var absorbed := before.log + ScalarItems(f, name, rounds[n]);
      var challenge := oracle(absorbed);
      Replay(before.point + [challenge], HintEval(rounds[n], before.value, challenge), absorbed + [Squeeze])
  }

  ghost predicate AcceptableRounds(rounds: seq<seq<int>>, numVars: nat, degree: nat) {
    |rounds| == numVars && forall i :: 0 <= i < |rounds| ==> 0 < |rounds[i]| <= degree
  }

  /** `verify_compressed`. */
  method VerifyCompressed(f: Field, name: string, rounds: seq<seq<int>>, numVars: nat, degree: nat, claim: int,
                          t: Transcript)
    returns (r: Result<(seq<int>, int), SumcheckError>)
    modifies t
    ensures r.Ok? <==> AcceptableRounds(rounds, numVars, degree)
    ensures r.Ok? ==> var replay := ReplayRounds(f, t.oracle, name, rounds, claim, old(t.log));
      r.value == (replay.point, replay.value) && t.log == replay.log
  {
    if |rounds| != numVars {
      return Err(WrongNumberOfRounds(numVars, |rounds|));
    }
    var running, challenges := claim, [];
    for i := 0 to |rounds|
      invariant AcceptableRounds(rounds[..i], i, degree)
      invariant ReplayRounds(f, t.oracle, name, rounds[..i], claim, old(t.log)) == Replay(challenges, running, t.log)
    {
      var coeffs := rounds[i];
      if |coeffs| > degree {
        return Err(DegreeBoundExceeded(|coeffs|, degree));
      }
      if coeffs == [] {
        return Err(CompressedPolynomialTooShort(i));
      }
      t.Append(ScalarItems(f, name, coeffs));
      var challenge := t.Challenge();
      running := EvalFromHint(coeffs, running, challenge);
      challenges := challenges + [challenge];
      assert rounds[..i + 1][..i] == rounds[..i] && rounds[..i + 1][i] == coeffs;
    }
    assert rounds[..|rounds|] == rounds;
    r := Ok((challenges, running));
  }

  // Tables bound variable by variable, first variable first.

  function BoundBy(t: seq<int>, n: nat, point: seq<int>): (b: seq<int>)
    requires |t| == Pow2(n) && |point| <= n
    ensures |b| == Pow2(n - |point|)
    decreases |point|
  {
    if point == [] then t
    else var k := |point| - 1; BindHigh(BoundBy(t, n, point[..k]), point[k])
  }

  lemma {:induction false} BoundByMle(t: seq<int>, n: nat, point: seq<int>, rest: seq<int>)
    requires |t| == Pow2(n) && |point| + |rest| == n
    ensures Mle(BoundBy(t, n, point), rest) == Mle(t, point + rest)
    decreases |point|
  {
    if point == [] {
      assert point + rest == rest;
    } else {
      var k := |point| - 1;
      MleBindHigh(BoundBy(t, n, point[..k]), point[k], rest);
      BoundByMle(t, n, point[..k], [point[k]] + rest);
      assert point[..k] + ([point[k]] + rest) == point + rest;
    }
  }

  /** Bound by a whole point, a table is the single value of its extension. */
  lemma FullyBound(t: seq<int>, n: nat, point: seq<int>)
    requires |t| == Pow2(n) && |point| == n
    ensures BoundBy(t, n, point) == [Mle(t, point)]
  {
    BoundByMle(t, n, point, []);
    assert point + [] == point;
  }

  // The outer summand: eq (az bz - u cz - e), a cubic in each variable.

  datatype OuterTables = OuterTables(eq: seq<int>, az: seq<int>, bz: seq<int>, cz: seq<int>, e: seq<int>)

  ghost predicate OuterSized(t: OuterTables, len: nat) {
    |t.eq| == |t.az| == |t.bz| == |t.cz| == |t.e| == len
  }

  function OuterTerm(u: int, eq: int, az: int, bz: int, cz: int, e: int): int {
    eq * (az * bz - u * cz - e)
  }

  /** The sum of the summand over the hypercube of the tables. */
  function OuterSum(u: int, t: OuterTables): int
    requires OuterSized(t, |t.eq|)
    decreases |t.eq|
  {
    if t.eq == [] then 0
    else FirstTerm(u, t) + OuterSum(u, OuterTail(t))
  }

  function OuterTail(t: OuterTables): OuterTables
    requires OuterSized(t, |t.eq|) && t.eq != []
  {
    OuterTables(t.eq[1..], t.az[1..], t.bz[1..], t.cz[1..], t.e[1..])
  }

  function OuterLo(t: OuterTables): (h: OuterTables)
    requires OuterSized(t, |t.eq|)
    ensures OuterSized(h, |t.eq| / 2)
  {
    var h := |t.eq| / 2;
    OuterTables(t.eq[..h], t.az[..h], t.bz[..h], t.cz[..h], t.e[..h])
  }

  function OuterHi(t: OuterTables): (h: OuterTables)
    requires OuterSized(t, |t.eq|)
    ensures OuterSized(h, |t.eq| - |t.eq| / 2)
  {
    var h := |t.eq| / 2;
    OuterTables(t.eq[h..], t.az[h..], t.bz[h..], t.cz[h..], t.e[h..])
  }

  function OuterLerp(lo: OuterTables, hi: OuterTables, x: int): (t: OuterTables)
    requires OuterSized(lo, |lo.eq|) && OuterSized(hi, |lo.eq|)
    ensures OuterSized(t, |lo.eq|)
  {
    OuterTables(Lerp(lo.eq, hi.eq, x), Lerp(lo.az, hi.az, x), Lerp(lo.bz, hi.bz, x), Lerp(lo.cz, hi.cz, x),
                Lerp(lo.e, hi.e, x))
  }

  /** All five tables with the first variable bound. */
  function OuterBind(t: OuterTables, x: int): (b: OuterTables)
    requires OuterSized(t, |t.eq|) && |t.eq| % 2 == 0
    ensures OuterSized(b, |t.eq| / 2)
  {
    OuterTables(BindHigh(t.eq, x), BindHigh(t.az, x), BindHigh(t.bz, x), BindHigh(t.cz, x), BindHigh(t.e, x))
  }

  lemma {:induction false} OuterSumConcat(u: int, t: OuterTables, k: nat)
    requires OuterSized(t, |t.eq|) && k <= |t.eq|
    ensures OuterSum(u, t)
         == OuterSum(u, OuterTables(t.eq[..k], t.az[..k], t.bz[..k], t.cz[..k], t.e[..k]))
            + OuterSum(u, OuterTables(t.eq[k..], t.az[k..], t.bz[k..], t.cz[k..], t.e[k..]))
    decreases k
  {
    if k == 0 {
      assert t.eq[0..] == t.eq && t.az[0..] == t.az && t.bz[0..] == t.bz && t.cz[0..] == t.cz && t.e[0..] == t.e;
    } else {
      OuterSumConcat(u, OuterTail(t), k - 1);
      PrefixRest(t.eq, k);
      PrefixRest(t.az, k);
      PrefixRest(t.bz, k);
      PrefixRest(t.cz, k);
      PrefixRest(t.e, k);
    }
  }

  lemma PrefixRest(s: seq<int>, k: nat)
    requires 0 < k <= |s|
    ensures s[..k][1..] == s[1..][..k - 1] && s[k..] == s[1..][k - 1..] && s[..k][0] == s[0]
  {
  }

  /** The coefficients of one summand along a line. */
  function TermCubic(u: int, eq: int, deq: int, a: int, da: int, b: int, db: int, c: int, dc: int, e: int,
                     de: int): seq<int> {
    var k0 := a * b - u * c - e;
    var k1 := a * db + da * b - u * dc - de;
    var k2 := da * db;
    [eq * k0, eq * k1 + deq * k0, eq * k2 + deq * k1, deq * k2]
  }

  lemma TermCubicEval(u: int, eq: int, deq: int, a: int, da: int, b: int, db: int, c: int, dc: int, e: int, de: int,
                      x: int)
    ensures EvalPoly(TermCubic(u, eq, deq, a, da, b, db, c, dc, e, de), x)
         == OuterTerm(u, eq + x * deq, a + x * da, b + x * db, c + x * dc, e + x * de)
  {
    var k0, k1, k2 := a * b - u * c - e, a * db + da * b - u * dc - de, da * db;
    CubicEval(eq * k0, eq * k1 + deq * k0, eq * k2 + deq * k1, deq * k2, x);
    SummandAlongLine(u, a, da, b, db, c, dc, e, de, x);
    CubicProduct(eq, deq, k0, k1, k2, x);
  }

  lemma SummandAlongLine(u: int, a: int, da: int, b: int, db: int, c: int, dc: int, e: int, de: int, x: int)
    ensures (a + x * da) * (b + x * db) - u * (c + x * dc) - (e + x * de)
         == (a * b - u * c - e) + x * (a * db + da * b - u * dc - de) + x * x * (da * db)
  {
    assert (a + x * da) * (b + x * db) == a * b + x * (a * db + da * b) + x * x * (da * db);
  }

  lemma CubicProduct(eq: int, deq: int, k0: int, k1: int, k2: int, x: int)
    ensures (eq + x * deq) * (k0 + x * k1 + x * x * k2)
         == eq * k0 + x * (eq * k1 + deq * k0 + x * (eq * k2 + deq * k1 + x * (deq * k2)))
  {
  }

  lemma CubicEval(c0: int, c1: int, c2: int, c3: int, x: int)
    ensures EvalPoly([c0, c1, c2, c3], x) == c0 + x * (c1 + x * (c2 + x * c3))
  {
    var c := [c0, c1, c2, c3];
    assert c[1..] == [c1, c2, c3] && [c1, c2, c3][1..] == [c2, c3] && [c2, c3][1..] == [c3] && [c3][1..] == [];
    assert EvalPoly([c3], x) == c3 + x * EvalPoly([], x);
    assert EvalPoly([c2, c3], x) == c2 + x * c3;
    assert EvalPoly([c1, c2, c3], x) == c1 + x * (c2 + x * c3);
  }

  function FirstCubic(u: int, lo: OuterTables, hi: OuterTables): (c: seq<int>)
    requires OuterSized(lo, |lo.eq|) && OuterSized(hi, |lo.eq|) && lo.eq != []
    ensures |c| == 4
  {
    TermCubic(u, lo.eq[0], hi.eq[0] - lo.eq[0], lo.az[0], hi.az[0] - lo.az[0], lo.bz[0], hi.bz[0] - lo.bz[0],
              lo.cz[0], hi.cz[0] - lo.cz[0], lo.e[0], hi.e[0] - lo.e[0])
  }

  function FirstTerm(u: int, t: OuterTables): int
    requires OuterSized(t, |t.eq|) && t.eq != []
  {
    OuterTerm(u, t.eq[0], t.az[0], t.bz[0], t.cz[0], t.e[0])
  }

  lemma FirstCubicEval(u: int, lo: OuterTables, hi: OuterTables, x: int)
    requires OuterSized(lo, |lo.eq|) && OuterSized(hi, |lo.eq|) && lo.eq != []
    ensures EvalPoly(FirstCubic(u, lo, hi), x) == FirstTerm(u, OuterLerp(lo, hi, x))
  {
    TermCubicEval(u, lo.eq[0], hi.eq[0] - lo.eq[0], lo.az[0], hi.az[0] - lo.az[0], lo.bz[0], hi.bz[0] - lo.bz[0],
                  lo.cz[0], hi.cz[0] - lo.cz[0], lo.e[0], hi.e[0] - lo.e[0], x);
  }

  /** The round polynomial: a cubic along the line through the two halves. */
  function OuterCubic(u: int, lo: OuterTables, hi: OuterTables): (c: seq<int>)
    requires OuterSized(lo, |lo.eq|) && OuterSized(hi, |lo.eq|)
    ensures |c| == 4
    decreases |lo.eq|
  {
    if lo.eq == [] then Zeros(4)
    else VAdd(FirstCubic(u, lo, hi), OuterCubic(u, OuterTail(lo), OuterTail(hi)))
  }

  lemma {:induction false} OuterCubicEval(u: int, lo: OuterTables, hi: OuterTables, x: int)
    requires OuterSized(lo, |lo.eq|) && OuterSized(hi, |lo.eq|)
    ensures EvalPoly(OuterCubic(u, lo, hi), x) == OuterSum(u, OuterLerp(lo, hi, x))
    decreases |lo.eq|
  {
    if lo.eq == [] {
      EvalZeros(Zeros(4), x);
    } else {
      OuterCubicEval(u, OuterTail(lo), OuterTail(hi), x);
      EvalAdd(FirstCubic(u, lo, hi), OuterCubic(u, OuterTail(lo), OuterTail(hi)), x);
      FirstCubicEval(u, lo, hi, x);
      LerpTail(lo, hi, x);
    }
  }

  lemma LerpTail(lo: OuterTables, hi: OuterTables, x: int)
    requires OuterSized(lo, |lo.eq|) && OuterSized(hi, |lo.eq|) && lo.eq != []
    ensures OuterTail(OuterLerp(lo, hi, x)) == OuterLerp(OuterTail(lo), OuterTail(hi), x)
  {
    hide Lerp;
    LerpRest(lo.eq, hi.eq, x);
    LerpRest(lo.az, hi.az, x);
    LerpRest(lo.bz, hi.bz, x);
    LerpRest(lo.cz, hi.cz, x);
    LerpRest(lo.e, hi.e, x);
  }

  lemma LerpRest(a: seq<int>, b: seq<int>, x: int)
    requires |a| == |b| && a != []
    ensures Lerp(a, b, x)[1..] == Lerp(a[1..], b[1..], x)
  {
  }

  /** Along its line the summand's sum is a cubic whose end values add up to
      the sum over the whole hypercube. */
  lemma OuterRound(u: int, t: OuterTables, x: int)
    requires OuterSized(t, |t.eq|) && |t.eq| % 2 == 0
    ensures var g := OuterCubic(u, OuterLo(t), OuterHi(t));
      EvalPoly(g, x) == OuterSum(u, OuterBind(t, x)) && EvalPoly(g, 0) + EvalPoly(g, 1) == OuterSum(u, t)
  {
    OuterCubicEval(u, OuterLo(t), OuterHi(t), x);
    OuterCubicEval(u, OuterLo(t), OuterHi(t), 0);
    OuterCubicEval(u, OuterLo(t), OuterHi(t), 1);
    LerpEnds(OuterLo(t), OuterHi(t));
    OuterSumConcat(u, t, |t.eq| / 2);
  }

  lemma LerpEnds(lo: OuterTables, hi: OuterTables)
    requires OuterSized(lo, |lo.eq|) && OuterSized(hi, |lo.eq|)
    ensures OuterLerp(lo, hi, 0) == lo && OuterLerp(lo, hi, 1) == hi
  {
  }

  // The outer prover.

  function Drop(t: OuterTables, i: nat): (d: OuterTables)
    requires OuterSized(t, |t.eq|) && i <= |t.eq|
    ensures OuterSized(d, |t.eq| - i)
  {
    OuterTables(t.eq[i..], t.az[i..], t.bz[i..], t.cz[i..], t.e[i..])
  }

  /** `acc` is the sum of the first `i` summands. */
  ghost predicate PartialSum(u: int, t: OuterTables, i: nat, acc: int) {
    OuterSized(t, |t.eq|) && i <= |t.eq| && acc + OuterSum(u, Drop(t, i)) == OuterSum(u, t)
  }

  /** The summand at index `i`, the first variable at `x`. */
  function LineTerm(u: int, t: OuterTables, i: nat, x: int): int
    requires OuterSized(t, |t.eq|) && i < |t.eq| / 2
  {
    var h := |t.eq| / 2;
    OuterTerm(u, t.eq[i] + x * (t.eq[i + h] - t.eq[i]), t.az[i] + x * (t.az[i + h] - t.az[i]),
              t.bz[i] + x * (t.bz[i + h] - t.bz[i]), t.cz[i] + x * (t.cz[i + h] - t.cz[i]),
              t.e[i] + x * (t.e[i + h] - t.e[i]))
  }

  lemma PartialStep(u: int, t: OuterTables, x: int, i: nat, acc: int)
    requires OuterSized(t, |t.eq|) && |t.eq| % 2 == 0 && i < |t.eq| / 2 && PartialSum(u, OuterBind(t, x), i, acc)
    ensures PartialSum(u, OuterBind(t, x), i + 1, acc + LineTerm(u, t, i, x))
  {
    var b := OuterBind(t, x);
    assert OuterTail(Drop(b, i)) == Drop(b, i + 1);
    assert FirstTerm(u, Drop(b, i)) == LineTerm(u, t, i, x);
  }

  /** The sums of the summand with the first variable at 0, 1, 2 and 3. */
  function OuterEvals(u: int, t: OuterTables): (evals: seq<int>)
    requires OuterSized(t, |t.eq|) && |t.eq| % 2 == 0
    ensures |evals| == 4 && forall k {:trigger evals[k]} :: 0 <= k < 4 ==> evals[k] == OuterSum(u, OuterBind(t, k))
  {
    [OuterSum(u, OuterBind(t, 0)), OuterSum(u, OuterBind(t, 1)), OuterSum(u, OuterBind(t, 2)),
     OuterSum(u, OuterBind(t, 3))]
  }

  lemma PartialAdvance(u: int, t: OuterTables, x: int, b: OuterTables, i: nat, acc: int, term: int)
    requires OuterSized(t, |t.eq|) && |t.eq| % 2 == 0 && i < |t.eq| / 2
    requires b == OuterBind(t, x) && PartialSum(u, b, i, acc) && term == LineTerm(u, t, i, x)
    ensures PartialSum(u, b, i + 1, acc + term)
  {
    PartialStep(u, t, x, i, acc);
  }

  lemma PartialDone(u: int, b: OuterTables, acc: int)
    requires OuterSized(b, |b.eq|) && PartialSum(u, b, |b.eq|, acc)
    ensures acc == OuterSum(u, b)
  {
  }

  /** The evaluation loop of one round: the summand at 0, 1, 2 and 3. */
  method EvalRound(u: int, t: OuterTables) returns (evals: seq<int>)
    requires OuterSized(t, |t.eq|) && |t.eq| % 2 == 0
    ensures evals == OuterEvals(u, t)
  {
    ghost var b0, b1, b2, b3 := OuterBind(t, 0), OuterBind(t, 1), OuterBind(t, 2), OuterBind(t, 3);
    var half := |t.az| / 2;
    var e0, e1, e2, e3 := 0, 0, 0, 0;
    for i := 0 to half
      invariant PartialSum(u, b0, i, e0)
      invariant PartialSum(u, b1, i, e1)
      invariant PartialSum(u, b2, i, e2)
      invariant PartialSum(u, b3, i, e3)
    {
      var t0, t1, t2, t3 := LineTerms(u, t, i);
      PartialAdvance(u, t, 0, b0, i, e0, t0);
      PartialAdvance(u, t, 1, b1, i, e1, t1);
      PartialAdvance(u, t, 2, b2, i, e2, t2);
      PartialAdvance(u, t, 3, b3, i, e3, t3);
      e0, e1, e2, e3 := e0 + t0, e1 + t1, e2 + t2, e3 + t3;
    }
    PartialDone(u, b0, e0);
    PartialDone(u, b1, e1);
    PartialDone(u, b2, e2);
    PartialDone(u, b3, e3);
    evals := [e0, e1, e2, e3];
  }

  function Pair(t: seq<int>, i: nat): (int, int)
    requires i < |t| / 2
  {
    (t[i], t[i + |t| / 2])
  }

  /** One index of the evaluation loop: the values at 2 and 3 are reached by
      adding the slope. */
  method LineTerms(u: int, t: OuterTables, i: nat) returns (t0: int, t1: int, t2: int, t3: int)
    requires OuterSized(t, |t.eq|) && i < |t.eq| / 2
    ensures t0 == LineTerm(u, t, i, 0) && t1 == LineTerm(u, t, i, 1)
    ensures t2 == LineTerm(u, t, i, 2) && t3 == LineTerm(u, t, i, 3)
  {
    var (q0, q1) := Pair(t.eq, i);
    var (a0, a1) := Pair(t.az, i);
    var (b0, b1) := Pair(t.bz, i);
    var (c0, c1) := Pair(t.cz, i);
    var (d0, d1) := Pair(t.e, i);
    var dq, da, db, dc, dd := q1 - q0, a1 - a0, b1 - b0, c1 - c0, d1 - d0;
    t0 := OuterTerm(u, q0, a0, b0, c0, d0);
    t1 := OuterTerm(u, q1, a1, b1, c1, d1);
    var q2, a2, b2, c2, d2 := q0 + dq + dq, a0 + da + da, b0 + db + db, c0 + dc + dc, d0 + dd + dd;
    t2 := OuterTerm(u, q2, a2, b2, c2, d2);
    t3 := OuterTerm(u, q2 + dq, a2 + da, b2 + db, c2 + dc, d2 + dd);
  }

  /** An interpolant of a line's values has the line's end sum and follows it everywhere. */
  lemma InterpolantFollowsLine(f: Field, g: seq<int>, coeffs: seq<int>, evals: seq<int>)
    requires IsField(f) && NodesDistinct(f, |evals|) && 0 < |evals|
    requires Interpolates(f, g, 0, evals) && Interpolates(f, coeffs, 0, evals)
    ensures Same(f, coeffs[0] + Sum(coeffs), EvalPoly(g, 0) + EvalPoly(g, 1))
    ensures forall x :: Same(f, EvalPoly(coeffs, x), EvalPoly(g, x))
  {
    forall x ensures Same(f, EvalPoly(coeffs, x), EvalPoly(g, x)) {
      InterpolantsAgree(f, coeffs, g, 0, evals, x);
    }
    EndpointSum(coeffs);
    SameAdd(f, EvalPoly(coeffs, 0), EvalPoly(g, 0), EvalPoly(coeffs, 1), EvalPoly(g, 1));
  }

  /** A round polynomial is right for the tables when its end values add up to
      their sum and its value at `x` is the sum with `x` bound. */
  ghost predicate OuterRoundRight(f: Field, u: int, t: OuterTables, coeffs: seq<int>)
    requires OuterSized(t, |t.eq|) && |t.eq| % 2 == 0
  {
    && |coeffs| == 4 && Same(f, coeffs[0] + Sum(coeffs), OuterSum(u, t))
    && forall x :: Same(f, EvalPoly(coeffs, x), OuterSum(u, OuterBind(t, x)))
  }

  lemma OuterRoundPolynomial(f: Field, u: int, t: OuterTables, coeffs: seq<int>)
    requires IsField(f) && NodesDistinct(f, 4) && OuterSized(t, |t.eq|) && |t.eq| % 2 == 0
    requires Interpolates(f, coeffs, 0, OuterEvals(u, t))
    ensures OuterRoundRight(f, u, t, coeffs)
  {
    var g, evals := OuterCubic(u, OuterLo(t), OuterHi(t)), OuterEvals(u, t);
    forall x ensures EvalPoly(g, x) == OuterSum(u, OuterBind(t, x)) { OuterRound(u, t, x); }
    assert Interpolates(f, g, 0, evals) by {
      forall k | 0 <= k < 4 ensures AtNode(g, 0, k) == evals[k] { }
    }
    OuterRound(u, t, 0);
    InterpolantFollowsLine(f, g, coeffs, evals);
    forall x ensures Same(f, EvalPoly(coeffs, x), OuterSum(u, OuterBind(t, x))) {
      assert Same(f, EvalPoly(coeffs, x), EvalPoly(g, x));
    }
  }

  /** One round's polynomial, after the check against the running sum. */
  method OuterRoundMessage(f: Field, u: int, bound: OuterTables, running: int)
    returns (r: Result<seq<int>, SumcheckError>)
    requires IsField(f) && NodesDistinct(f, 4) && OuterSized(bound, |bound.eq|) && |bound.eq| % 2 == 0
    ensures r.Ok? <==> Same(f, OuterSum(u, bound), running)
    ensures r.Ok? ==> OuterRoundRight(f, u, bound, r.value)
  {
    var evals := EvalRound(u, bound);
    var coeffs := InterpolateToCoeffs(f, 0, evals);
    OuterRoundPolynomial(f, u, bound, coeffs);
    var roundSum := coeffs[0] + Sum(coeffs);
    if Same(f, roundSum, running) {
      r := Ok(coeffs);
    } else {
      r := Err(RoundClaimMismatch(running, roundSum));
    }
  }

  /** A compressed round moves every claim that equals `before` to `after`. */
  ghost predicate MovesClaim(f: Field, compressed: seq<int>, before: int, challenge: int, after: int) {
    compressed != [] && forall v :: Same(f, v, before) ==> Same(f, HintEval(compressed, v, challenge), after)
  }

  lemma RoundMovesClaim(f: Field, coeffs: seq<int>, running: int, challenge: int)
    requires IsField(f) && 2 <= |coeffs| && Same(f, coeffs[0] + Sum(coeffs), running)
    ensures MovesClaim(f, Compress(coeffs), running, challenge, EvalPoly(coeffs, challenge))
  {
    hide EvalPoly, Sum, Compress, HintEval;
    EndpointSum(coeffs);
    forall v | Same(f, v, running) ensures Same(f, HintEval(Compress(coeffs), v, challenge),
                                                EvalPoly(coeffs, challenge)) {
      HintEvalRecovers(f, coeffs, v, challenge);
    }
  }

  lemma ReplaySnoc(f: Field, oracle: Oracle, name: string, rounds: seq<seq<int>>, claim: int, log: seq<Item>,
                   compressed: seq<int>)
    requires NonemptyRounds(rounds) && compressed != []
    ensures NonemptyRounds(rounds + [compressed])
    ensures var before := ReplayRounds(f, oracle, name, rounds, claim, log);
      var absorbed := before.log + ScalarItems(f, name, compressed);
      var challenge := oracle(absorbed);
      ReplayRounds(f, oracle, name, rounds + [compressed], claim, log)
        == Replay(before.point + [challenge], HintEval(compressed, before.value, challenge), absorbed + [Squeeze])
  {
    var next := rounds + [compressed];
    assert next[..|next| - 1] == rounds && next[|next| - 1] == compressed;
  }

  datatype SumcheckTrace = SumcheckTrace(rounds: seq<seq<int>>, point: seq<int>)

  const OUTER_LABEL := "sumcheck_poly"
  const INNER_LABEL := "inner_sumcheck_poly"

  function OuterBoundBy(t: OuterTables, n: nat, point: seq<int>): (b: OuterTables)
    requires OuterSized(t, Pow2(n)) && |point| <= n
    ensures OuterSized(b, Pow2(n - |point|))
  {
    OuterTables(BoundBy(t.eq, n, point), BoundBy(t.az, n, point), BoundBy(t.bz, n, point), BoundBy(t.cz, n, point),
                BoundBy(t.e, n, point))
  }

  /** The summand at a point: the tables' extensions in place of the tables. */
  function OuterAt(u: int, t: OuterTables, point: seq<int>): int
    requires OuterSized(t, Pow2(|point|))
  {
    OuterTerm(u, Mle(t.eq, point), Mle(t.az, point), Mle(t.bz, point), Mle(t.cz, point), Mle(t.e, point))
  }

  lemma OuterFullyBound(u: int, t: OuterTables, point: seq<int>)
    requires OuterSized(t, Pow2(|point|))
    ensures OuterSum(u, OuterBoundBy(t, |point|, point)) == OuterAt(u, t, point)
  {
    var n := |point|;
    FullyBound(t.eq, n, point);
    FullyBound(t.az, n, point);
    FullyBound(t.bz, n, point);
    FullyBound(t.cz, n, point);
    FullyBound(t.e, n, point);
    var b := OuterBoundBy(t, n, point);
    assert OuterTail(b).eq == [];
    assert OuterSum(u, OuterTail(b)) == 0;
  }

  lemma OuterBoundStep(t: OuterTables, n: nat, point: seq<int>, x: int)
    requires OuterSized(t, Pow2(n)) && |point| < n
    ensures OuterBind(OuterBoundBy(t, n, point), x) == OuterBoundBy(t, n, point + [x])
  {
    assert (point + [x])[..|point|] == point;
  }

  /** The tables the outer sumcheck starts from. */
  function OuterStart(m: ConstraintMatrices, u: int, wit: seq<int>, errors: seq<int>, tau: seq<int>): (t: OuterTables)
    requires ValidMatrices(m) && m.numVars <= |wit| + 1 && |m.a| <= |errors| == Pow2(|tau|)
    ensures OuterSized(t, |errors|)
  {
    var z, pad := ZVector(u, wit), Zeros(|errors| - |m.a|);
    OuterTables(EqTable(tau), Product(m.a, z) + pad, Product(m.b, z) + pad, Product(m.c, z) + pad, errors)
  }

  /** The five polynomials the outer prover binds in place. */
  class OuterProver {
    const eq: Polynomial
    const az: Polynomial
    const bz: Polynomial
    const cz: Polynomial
    const e: Polynomial
    ghost const start: OuterTables
    ghost const n: nat
    ghost var point: seq<int>

    ghost predicate Valid()
      reads this, eq, az, bz, cz, e
    {
      && eq !in {az, bz, cz, e} && az !in {bz, cz, e} && bz !in {cz, e} && cz != e
      && eq.Valid() && az.Valid() && bz.Valid() && cz.Valid() && e.Valid()
      && |point| <= n && eq.numVars == az.numVars == bz.numVars == cz.numVars == e.numVars == n - |point|
      && OuterSized(start, Pow2(n)) && Tables() == OuterBoundBy(start, n, point)
    }

    ghost function Tables(): OuterTables
      reads eq, az, bz, cz, e
    {
      OuterTables(eq.evals, az.evals, bz.evals, cz.evals, e.evals)
    }

    constructor (t: OuterTables, ghost n: nat)
      requires OuterSized(t, Pow2(n))
      ensures Valid() && start == t && this.n == n && point == []
      ensures fresh(eq) && fresh(az) && fresh(bz) && fresh(cz) && fresh(e)
    {
      eq := new Polynomial(t.eq, n);
      az := new Polynomial(t.az, n);
      bz := new Polynomial(t.bz, n);
      cz := new Polynomial(t.cz, n);
      e := new Polynomial(t.e, n);
      start, this.n, point := t, n, [];
    }

    method Bind(challenge: int)
      requires Valid() && |point| < n
      modifies this, eq, az, bz, cz, e
      ensures Valid() && point == old(point) + [challenge]
    {
      OuterBoundStep(start, n, point, challenge);
      az.BindWithOrder(challenge, HighToLow);
      bz.BindWithOrder(challenge, HighToLow);
      cz.BindWithOrder(challenge, HighToLow);
      e.BindWithOrder(challenge, HighToLow);
      eq.BindWithOrder(challenge, HighToLow);
      point := point + [challenge];
    }

    /** One round: message, check, challenge, bind. */
    method Round(f: Field, u: int, running: int, t: Transcript) returns (r: Result<(seq<int>, int, int), SumcheckError>)
      requires IsField(f) && NodesDistinct(f, 4) && Valid() && |point| < n
      modifies this, eq, az, bz, cz, e, t
      ensures r.Ok? <==> Same(f, OuterSum(u, OuterBoundBy(start, n, old(point))), running)
      ensures r.Ok? ==> var (compressed, challenge, next) := r.value;
        && |compressed| == 3 && challenge == t.oracle(old(t.log) + ScalarItems(f, OUTER_LABEL, compressed))
        && t.log == old(t.log) + ScalarItems(f, OUTER_LABEL, compressed) + [Squeeze]
        && Valid() && point == old(point) + [challenge]
        && MovesClaim(f, compressed, running, challenge, next)
        && Same(f, next, OuterSum(u, OuterBoundBy(start, n, point)))
    {
      hide OuterSum, OuterBoundBy, EvalPoly;
      var bound := OuterTables(eq.evals, az.evals, bz.evals, cz.evals, e.evals);
      var message := OuterRoundMessage(f, u, bound, running);
      if message.Err? {
        return Err(message.error);
      }
      var coeffs := message.value;
      var compressed := Compress(coeffs);
      t.Append(ScalarItems(f, OUTER_LABEL, compressed));
      var challenge := t.Challenge();
      var next := Horner(coeffs, challenge);
      RoundMovesClaim(f, coeffs, running, challenge);
      OuterBoundStep(start, n, point, challenge);
      Bind(challenge);
      r := Ok((compressed, challenge, next));
    }
  }

  lemma AcceptableSnoc(rounds: seq<seq<int>>, compressed: seq<int>, degree: nat)
    requires AcceptableRounds(rounds, |rounds|, degree) && 0 < |compressed| <= degree
    ensures AcceptableRounds(rounds + [compressed], |rounds| + 1, degree)
  {
  }

  /** A successful outer run: the verifier's replay of the compressed rounds
      draws the same point and transcript, and ends on the summand of the
      tables' extensions at that point. */
  ghost predicate OuterRun(f: Field, oracle: Oracle, u: int, start: OuterTables, numVars: nat,
                           before: seq<Item>, trace: SumcheckTrace, after: seq<Item>)
    requires OuterSized(start, Pow2(numVars))
  {
    && AcceptableRounds(trace.rounds, numVars, 3)
    && var replay := ReplayRounds(f, oracle, OUTER_LABEL, trace.rounds, 0, before);
    && replay.point == trace.point && replay.log == after
    && (Same(f, OuterSum(u, start), 0) ==> Same(f, replay.value, OuterAt(u, start, trace.point)))
  }

  /** The rounds of the outer prover, from given tables. It fails exactly when
      the whole sum is not zero, which it finds out in the first round. */
  method ProveOuterRounds(f: Field, u: int, start: OuterTables, numVars: nat, t: Transcript)
    returns (r: Result<SumcheckTrace, SumcheckError>)
    requires IsField(f) && NodesDistinct(f, 4) && OuterSized(start, Pow2(numVars))
    modifies t
    ensures r.Ok? <==> numVars == 0 || Same(f, OuterSum(u, start), 0)
    ensures r.Ok? ==> OuterRun(f, t.oracle, u, start, numVars, old(t.log), r.value, t.log)
  {
    var prover := new OuterProver(start, numVars);
    var running, rounds, point := 0, [], [];
    ghost var value, log := 0, t.log;
    for round := 0 to numVars
      invariant prover.Valid() && prover.start == start && prover.n == numVars && prover.point == point
      invariant |point| == round
      invariant fresh(prover) && fresh(prover.eq) && fresh(prover.az) && fresh(prover.bz) && fresh(prover.cz)
      invariant fresh(prover.e)
      invariant AcceptableRounds(rounds, round, 3)
      invariant ReplayRounds(f, t.oracle, OUTER_LABEL, rounds, 0, log) == Replay(point, value, t.log)
      invariant Same(f, value, running)
      invariant round == 0 ==> running == 0
      invariant round > 0 ==>
        Same(f, OuterSum(u, start), 0) && Same(f, running, OuterSum(u, OuterBoundBy(start, numVars, point)))
    {
      var outcome := prover.Round(f, u, running, t);
      if outcome.Err? {
        return Err(outcome.error);
      }
      var (compressed, challenge, next) := outcome.value;
      ReplaySnoc(f, t.oracle, OUTER_LABEL, rounds, 0, log, compressed);
      AcceptableSnoc(rounds, compressed, 3);
      value := HintEval(compressed, value, challenge);
      running, rounds, point := next, rounds + [compressed], point + [challenge];
    }
    OuterFullyBound(u, start, point);
    r := Ok(SumcheckTrace(rounds, point));
  }

  /** `prove_outer_sumcheck`. */
  method ProveOuterSumcheck(f: Field, m: ConstraintMatrices, u: int, wit: seq<int>, errors: seq<int>, tau: seq<int>,
                            t: Transcript)
    returns (r: Result<SumcheckTrace, SumcheckError>)
    requires IsField(f) && NodesDistinct(f, 4)
    requires ValidMatrices(m) && m.numVars <= |wit| + 1 && |m.a| <= |errors| == Pow2(|tau|)
    modifies t
    ensures r.Ok? <==> tau == [] || Same(f, OuterSum(u, OuterStart(m, u, wit, errors, tau)), 0)
    ensures r.Ok? ==> OuterRun(f, t.oracle, u, OuterStart(m, u, wit, errors, tau), |tau|, old(t.log), r.value, t.log)
  {
    var z, pad := ZVector(u, wit), Zeros(|errors| - |m.a|);
    var eq := Evals(tau, 1);
    assert eq == EqTable(tau) by {
      assert forall i {:trigger eq[i]} :: 0 <= i < |eq| ==> eq[i] == 1 * EqTable(tau)[i];
    }
    var tables := OuterTables(eq, Product(m.a, z) + pad, Product(m.b, z) + pad, Product(m.c, z) + pad, errors);
    assert tables == OuterStart(m, u, wit, errors, tau);
    r := ProveOuterRounds(f, u, tables, |tau|, t);
  }

  // The inner prover: the column form against the witness, a quadratic in each variable.

  function InnerQuadratic(l: seq<int>, dl: seq<int>, w: seq<int>, dw: seq<int>): (c: seq<int>)
    requires |l| == |dl| == |w| == |dw|
    ensures |c| == 3
  {
    [Dot(l, w), Dot(l, dw) + Dot(dl, w), Dot(dl, dw)]
  }

  lemma InnerQuadraticEval(l: seq<int>, dl: seq<int>, w: seq<int>, dw: seq<int>, x: int)
    requires |l| == |dl| == |w| == |dw|
    ensures EvalPoly(InnerQuadratic(l, dl, w, dw), x) == Dot(VAdd(l, Scale(x, dl)), VAdd(w, Scale(x, dw)))
  {
    var m, n := VAdd(l, Scale(x, dl)), VAdd(w, Scale(x, dw));
    DotAdd(l, Scale(x, dl), n);
    DotScale(x, dl, n);
    DotAddRight(l, w, Scale(x, dw));
    DotScaleRight(x, l, dw);
    DotAddRight(dl, w, Scale(x, dw));
    DotScaleRight(x, dl, dw);
    QuadraticEval(Dot(l, w), Dot(l, dw) + Dot(dl, w), Dot(dl, dw), x);
    QuadraticAlgebra(Dot(l, w), Dot(l, dw), Dot(dl, w), Dot(dl, dw), x);
  }

  lemma QuadraticAlgebra(a: int, b: int, c: int, d: int, x: int)
    ensures a + x * b + x * (c + x * d) == a + x * (b + c + x * d)
  {
  }

  lemma QuadraticEval(c0: int, c1: int, c2: int, x: int)
    ensures EvalPoly([c0, c1, c2], x) == c0 + x * (c1 + x * c2)
  {
    var c := [c0, c1, c2];
    assert c[1..] == [c1, c2] && [c1, c2][1..] == [c2] && [c2][1..] == [];
    assert EvalPoly([c2], x) == c2 + x * EvalPoly([], x);
    assert EvalPoly([c1, c2], x) == c1 + x * c2;
  }

  lemma DotAddRight(a: seq<int>, b: seq<int>, c: seq<int>)
    requires |a| == |b| == |c|
    ensures Dot(a, VAdd(b, c)) == Dot(a, b) + Dot(a, c)
  {
    DotSymmetric(a, VAdd(b, c));
    DotAdd(b, c, a);
    DotSymmetric(a, b);
    DotSymmetric(a, c);
  }

  /** The sum of the inner summand with the first variable at `x`. */
  function InnerBound(l: seq<int>, w: seq<int>, x: int): int
    requires |l| == |w| && |l| % 2 == 0
  {
    Dot(BindHigh(l, x), BindHigh(w, x))
  }

  function Delta(t: seq<int>): (d: seq<int>)
    requires |t| % 2 == 0
    ensures |d| == |t| / 2
  {
    VAdd(t[|t| / 2..], Scale(-1, t[..|t| / 2]))
  }

  lemma BindIsLine(t: seq<int>, x: int)
    requires |t| % 2 == 0
    ensures BindHigh(t, x) == VAdd(t[..|t| / 2], Scale(x, Delta(t)))
  {
  }

  /** The inner round polynomial: along its line, and at its ends. */
  lemma InnerRound(l: seq<int>, w: seq<int>, x: int)
    requires |l| == |w| && |l| % 2 == 0
    ensures var h := |l| / 2; var g := InnerQuadratic(l[..h], Delta(l), w[..h], Delta(w));
      EvalPoly(g, x) == InnerBound(l, w, x) && EvalPoly(g, 0) + EvalPoly(g, 1) == Dot(l, w)
  {
    var h := |l| / 2;
    InnerLine(l, w, x);
    InnerLine(l, w, 0);
    InnerLine(l, w, 1);
    assert BindHigh(l, 0) == l[..h] && BindHigh(w, 0) == w[..h] && BindHigh(l, 1) == l[h..] && BindHigh(w, 1) == w[h..];
    assert l == l[..h] + l[h..] && w == w[..h] + w[h..];
    DotConcat(l[..h], l[h..], w[..h], w[h..]);
  }

  lemma InnerLine(l: seq<int>, w: seq<int>, x: int)
    requires |l| == |w| && |l| % 2 == 0
    ensures EvalPoly(InnerQuadratic(l[..|l| / 2], Delta(l), w[..|l| / 2], Delta(w)), x) == InnerBound(l, w, x)
  {
    BindIsLine(l, x);
    BindIsLine(w, x);
    InnerQuadraticEval(l[..|l| / 2], Delta(l), w[..|l| / 2], Delta(w), x);
  }

  ghost predicate InnerRoundRight(f: Field, l: seq<int>, w: seq<int>, coeffs: seq<int>)
    requires |l| == |w| && |l| % 2 == 0
  {
    && |coeffs| == 3 && Same(f, coeffs[0] + Sum(coeffs), Dot(l, w))
    && forall x :: Same(f, EvalPoly(coeffs, x), InnerBound(l, w, x))
  }

  function InnerEvals(l: seq<int>, w: seq<int>): (evals: seq<int>)
    requires |l| == |w| && |l| % 2 == 0
    ensures |evals| == 3 && forall k {:trigger evals[k]} :: 0 <= k < 3 ==> evals[k] == InnerBound(l, w, k)
  {
    [InnerBound(l, w, 0), InnerBound(l, w, 1), InnerBound(l, w, 2)]
  }

  lemma InnerRoundPolynomial(f: Field, l: seq<int>, w: seq<int>, coeffs: seq<int>)
    requires IsField(f) && NodesDistinct(f, 3) && |l| == |w| && |l| % 2 == 0
    requires Interpolates(f, coeffs, 0, InnerEvals(l, w))
    ensures InnerRoundRight(f, l, w, coeffs)
  {
    var h, evals := |l| / 2, InnerEvals(l, w);
    var g := InnerQuadratic(l[..h], Delta(l), w[..h], Delta(w));
    forall x ensures EvalPoly(g, x) == InnerBound(l, w, x) { InnerRound(l, w, x); }
    assert Interpolates(f, g, 0, evals) by {
      forall k | 0 <= k < 3 ensures AtNode(g, 0, k) == evals[k] { }
    }
    InnerRound(l, w, 0);
    InterpolantFollowsLine(f, g, coeffs, evals);
    forall x ensures Same(f, EvalPoly(coeffs, x), InnerBound(l, w, x)) {
      assert Same(f, EvalPoly(coeffs, x), EvalPoly(g, x));
    }
  }

  lemma DotNone(a: seq<int>, b: seq<int>)
    ensures Dot(a[..0], b[..0]) == 0
  {
  }

  /** The pair of a slot, on the three nodes. */
  lemma BoundPair(t: seq<int>, i: nat)
    requires |t| % 2 == 0 && i < |t| / 2
    ensures var (lo, hi) := Pair(t, i);
      BindHigh(t, 0)[i] == lo && BindHigh(t, 1)[i] == hi && BindHigh(t, 2)[i] == lo + (hi - lo) + (hi - lo)
  {
  }

  /** The evaluation loop of one inner round. */
  method EvalInnerRound(l: seq<int>, w: seq<int>) returns (evals: seq<int>)
    requires |l| == |w| && |l| % 2 == 0
    ensures evals == InnerEvals(l, w)
  {
    hide Dot, BindHigh;
    var half, e0, e1, e2 := |l| / 2, 0, 0, 0;
    ghost var l0, l1, l2 := BindHigh(l, 0), BindHigh(l, 1), BindHigh(l, 2);
    ghost var w0, w1, w2 := BindHigh(w, 0), BindHigh(w, 1), BindHigh(w, 2);
    DotNone(l0, w0);
    DotNone(l1, w1);
    DotNone(l2, w2);
    for i := 0 to half
      invariant e0 == Dot(l0[..i], w0[..i]) && e1 == Dot(l1[..i], w1[..i]) && e2 == Dot(l2[..i], w2[..i])
    {
      var (lLo, lHi) := Pair(l, i);
      var (wLo, wHi) := Pair(w, i);
      var lDelta, wDelta := lHi - lLo, wHi - wLo;
      DotSnoc(l0, w0, i);
      DotSnoc(l1, w1, i);
      DotSnoc(l2, w2, i);
      BoundPair(l, i);
      BoundPair(w, i);
      e0 := e0 + lLo * wLo;
      e1 := e1 + lHi * wHi;
      e2 := e2 + (lLo + lDelta + lDelta) * (wLo + wDelta + wDelta);
    }
    assert l0[..half] == l0 && l1[..half] == l1 && l2[..half] == l2;
    assert w0[..half] == w0 && w1[..half] == w1 && w2[..half] == w2;
    evals := [e0, e1, e2];
  }

  method InnerRoundMessage(f: Field, l: seq<int>, w: seq<int>, running: int)
    returns (r: Result<seq<int>, SumcheckError>)
    requires IsField(f) && NodesDistinct(f, 3) && |l| == |w| && |l| % 2 == 0
    ensures r.Ok? <==> Same(f, Dot(l, w), running)
    ensures r.Ok? ==> InnerRoundRight(f, l, w, r.value)
  {
    var evals := EvalInnerRound(l, w);
    var coeffs := InterpolateToCoeffs(f, 0, evals);
    InnerRoundPolynomial(f, l, w, coeffs);
    var roundSum := coeffs[0] + Sum(coeffs);
    if Same(f, roundSum, running) {
      r := Ok(coeffs);
    } else {
      r := Err(RoundClaimMismatch(running, roundSum));
    }
  }

  lemma InnerBoundStep(l: seq<int>, n: nat, point: seq<int>, x: int)
    requires |l| == Pow2(n) && |point| < n
    ensures BindHigh(BoundBy(l, n, point), x) == BoundBy(l, n, point + [x])
  {
    assert (point + [x])[..|point|] == point;
  }

  /** A successful inner run: the replay ends on the product of the two extensions. */
  ghost predicate InnerRun(f: Field, oracle: Oracle, l: seq<int>, w: seq<int>, numVars: nat, claim: int,
                           before: seq<Item>, trace: SumcheckTrace, after: seq<Item>)
    requires |l| == |w| == Pow2(numVars)
  {
    && AcceptableRounds(trace.rounds, numVars, 2)
    && var replay := ReplayRounds(f, oracle, INNER_LABEL, trace.rounds, claim, before);
    && replay.point == trace.point && replay.log == after
    && (Same(f, claim, Dot(l, w)) ==> Same(f, replay.value, Mle(l, trace.point) * Mle(w, trace.point)))
  }

  /** One inner round: message, check, challenge, bind. */
  method InnerProverRound(f: Field, form: Polynomial, values: Polynomial, running: int, t: Transcript)
    returns (r: Result<(seq<int>, int, int), SumcheckError>)
    requires IsField(f) && NodesDistinct(f, 3) && form != values
    requires form.Valid() && values.Valid() && 0 < form.numVars == values.numVars
    modifies form, values, t
    ensures r.Ok? <==> Same(f, Dot(old(form.evals), old(values.evals)), running)
    ensures r.Ok? ==> var (compressed, challenge, next) := r.value;
      && |compressed| == 2 && challenge == t.oracle(old(t.log) + ScalarItems(f, INNER_LABEL, compressed))
      && t.log == old(t.log) + ScalarItems(f, INNER_LABEL, compressed) + [Squeeze]
      && form.Valid() && values.Valid() && form.numVars == values.numVars == old(form.numVars) - 1
      && form.evals == BindHigh(old(form.evals), challenge) && values.evals == BindHigh(old(values.evals), challenge)
      && MovesClaim(f, compressed, running, challenge, next)
      && Same(f, next, Dot(form.evals, values.evals))
  {
    ghost var l, w := form.evals, values.evals;
    assert |l| == 2 * Pow2(form.numVars - 1);
    var message := InnerRoundMessage(f, form.evals, values.evals, running);
    if message.Err? {
      return Err(message.error);
    }
    var coeffs := message.value;
    var compressed := Compress(coeffs);
    t.Append(ScalarItems(f, INNER_LABEL, compressed));
    var challenge := t.Challenge();
    RoundMovesClaim(f, coeffs, running, challenge);
    var next := Horner(coeffs, challenge);
    assert Same(f, next, InnerBound(l, w, challenge));
    form.BindWithOrder(challenge, HighToLow);
    values.BindWithOrder(challenge, HighToLow);
    r := Ok((compressed, challenge, next));
  }

  /** The rounds of the inner prover. They fail exactly when the claim is not
      the inner product, which the first round finds out. */
  method ProveInnerRounds(f: Field, l: seq<int>, w: seq<int>, numVars: nat, claim: int, t: Transcript)
    returns (r: Result<SumcheckTrace, SumcheckError>)
    requires IsField(f) && NodesDistinct(f, 3) && |l| == |w| == Pow2(numVars)
    modifies t
    ensures r.Ok? <==> numVars == 0 || Same(f, Dot(l, w), claim)
    ensures r.Ok? ==> InnerRun(f, t.oracle, l, w, numVars, claim, old(t.log), r.value, t.log)
  {
    var form := new Polynomial(l, numVars);
    var values := new Polynomial(w, numVars);
    var running, rounds, point := claim, [], [];
    ghost var value, log := claim, t.log;
    for round := 0 to numVars
      invariant form.Valid() && values.Valid() && form != values && fresh(form) && fresh(values)
      invariant |point| == round && form.numVars == values.numVars == numVars - round
      invariant form.evals == BoundBy(l, numVars, point) && values.evals == BoundBy(w, numVars, point)
      invariant AcceptableRounds(rounds, round, 2)
      invariant ReplayRounds(f, t.oracle, INNER_LABEL, rounds, claim, log) == Replay(point, value, t.log)
      invariant Same(f, value, running)
      invariant round == 0 ==> running == claim
      invariant round > 0 ==> Same(f, Dot(l, w), claim) && Same(f, running, Dot(form.evals, values.evals))
    {
      var outcome := InnerProverRound(f, form, values, running, t);
      if outcome.Err? {
        return Err(outcome.error);
      }
      var (compressed, challenge, next) := outcome.value;
      ReplaySnoc(f, t.oracle, INNER_LABEL, rounds, claim, log, compressed);
      AcceptableSnoc(rounds, compressed, 2);
      InnerBoundStep(l, numVars, point, challenge);
      InnerBoundStep(w, numVars, point, challenge);
      value := HintEval(compressed, value, challenge);
      running, rounds, point := next, rounds + [compressed], point + [challenge];
    }
    FullyBound(l, numVars, point);
    FullyBound(w, numVars, point);
    assert Dot([Mle(l, point)], [Mle(w, point)]) == Mle(l, point) * Mle(w, point) + Dot([], []);
    r := Ok(SumcheckTrace(rounds, point));
  }
}
