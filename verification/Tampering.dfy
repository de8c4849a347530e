/** An accepted proof with one thing moved: exactly when it is still accepted. */
module Tampering {
  import opened Results
  import opened Fields
  import opened Vectors
  import opened Multilinear
  import opened Univariate
  import opened R1cs
  import opened RowCommitment
  import opened Compressed
  import opened Transcripts
  import opened Sumcheck
  import opened Protocol
  import opened Verifier
  import opened Rejection

  // Moving one coefficient of one round.

  function MovedRound(cc: seq<int>, j: nat, d: int): (m: seq<int>)
    requires j < |cc|
    ensures |m| == |cc|
  {
    cc[j := cc[j] + d]
  }

  function Moved(rounds: seq<seq<int>>, k: nat, j: nat, d: int): (m: seq<seq<int>>)
    requires k < |rounds| && j < |rounds[k]|
    ensures |m| == |rounds|
  {
    rounds[k := MovedRound(rounds[k], j, d)]
  }

  /** How a stored coefficient acts on the round's value at `x`, the linear term making up for it. */
  function Weight(j: nat, x: int): int {
    if j == 0 then 1 - 2 * x else Power(x, j + 1) - x
  }

  lemma {:induction false} SumMoved(cc: seq<int>, j: nat, d: int)
    requires j < |cc|
    ensures Sum(MovedRound(cc, j, d)) == Sum(cc) + d
  {
    var m := MovedRound(cc, j, d);
    if j == 0 {
      assert m[1..] == cc[1..];
    } else {
      assert m[1..] == MovedRound(cc[1..], j - 1, d);
      SumMoved(cc[1..], j - 1, d);
    }
  }

  lemma {:induction false} EvalMoved(cc: seq<int>, j: nat, d: int, x: int)
    requires j < |cc|
    ensures EvalPoly(MovedRound(cc, j, d), x) == EvalPoly(cc, x) + d * Power(x, j)
  {
    var m := MovedRound(cc, j, d);
    if j == 0 {
      assert m[1..] == cc[1..] && d * 1 == d;
    } else {
      assert m[1..] == MovedRound(cc[1..], j - 1, d);
      EvalMoved(cc[1..], j - 1, d, x);
      Distribute(x, EvalPoly(cc[1..], x), d, Power(x, j - 1));
    }
  }

  lemma Distribute(x: int, e: int, d: int, p: int)
    ensures x * (e + d * p) == x * e + d * (p * x)
  {
  }

  /** The round's value moves by the coefficient's move times its weight. */
  lemma HintEvalMoved(cc: seq<int>, hint: int, x: int, j: nat, d: int)
    requires j < |cc|
    ensures HintEval(MovedRound(cc, j, d), hint, x) == HintEval(cc, hint, x) + d * Weight(j, x)
  {
    hide HintEval;
    var m := MovedRound(cc, j, d);
    HintEvalUnfold(cc, hint, x);
    HintEvalUnfold(m, hint, x);
    var l, e := LinearTerm(cc, hint), EvalPoly(cc[1..], x);
    if j == 0 {
      assert m[1..] == cc[1..];
      ConstantMoved(cc[0], x, l, e, d);
    } else {
      assert m[1..] == MovedRound(cc[1..], j - 1, d);
      SumMoved(cc[1..], j - 1, d);
      EvalMoved(cc[1..], j - 1, d, x);
      HigherMoved(cc[0], x, l, e, d, Power(x, j - 1));
      assert Power(x, j + 1) == Power(x, j - 1) * x * x;
    }
  }

  lemma ConstantMoved(c: int, x: int, l: int, e: int, d: int)
    ensures c + d + x * (l - d - d + x * e) == c + x * (l + x * e) + d * (1 - 2 * x)
  {
  }

  lemma HigherMoved(c: int, x: int, l: int, e: int, d: int, p: int)
    ensures c + x * (l - d + x * (e + d * p)) == c + x * (l + x * e) + d * (p * x * x - x)
  {
    assert x * (l - d + x * (e + d * p)) == x * (l + x * e) + x * (x * (d * p)) - x * d;
    assert x * (x * (d * p)) == d * (p * x * x);
    assert d * (p * x * x - x) == d * (p * x * x) - d * x;
  }

  /** The rounds replayed with every challenge the same. */
  function ValueAt(rounds: seq<seq<int>>, claim: int, x: int): int
    requires NonemptyRounds(rounds)
  {
    if rounds == [] then claim
    else HintEval(rounds[|rounds| - 1], ValueAt(rounds[..|rounds| - 1], claim, x), x)
  }

  lemma {:induction false} ConstantValue(f: Field, oracle: Oracle, name: string, rounds: seq<seq<int>>, claim: int,
                                         log: seq<Item>, base: seq<Item>, v: int)
    requires NonemptyRounds(rounds) && base <= log && ConstantFrom(oracle, base, v)
    ensures ReplayRounds(f, oracle, name, rounds, claim, log).value == ValueAt(rounds, claim, v)
  {
    hide ScalarItems;
    if rounds != [] {
      var n := |rounds| - 1;
      ConstantValue(f, oracle, name, rounds[..n], claim, log, base, v);
      ConstantReplay(f, oracle, name, rounds[..n], claim, log, base, v);
      var before := ReplayRounds(f, oracle, name, rounds[..n], claim, log);
      Extends(base, before.log, ScalarItems(f, name, rounds[n]));
    }
  }

  /** A move in round `k` reaches the end through the rounds after it. */
  lemma {:induction false} ValueMoved(rounds: seq<seq<int>>, claim: int, x: int, k: nat, j: nat, d: int)
    requires NonemptyRounds(rounds) && k < |rounds| && j < |rounds[k]|
    ensures NonemptyRounds(Moved(rounds, k, j, d))
    ensures ValueAt(Moved(rounds, k, j, d), claim, x)
         == ValueAt(rounds, claim, x) + d * Weight(j, x) * Power(x, |rounds| - 1 - k)
  {
    hide HintEval, Weight;
    var n, m := |rounds| - 1, Moved(rounds, k, j, d);
    if k == n {
      assert m[..n] == rounds[..n];
      HintEvalMoved(rounds[n], ValueAt(rounds[..n], claim, x), x, j, d);
      assert d * Weight(j, x) * 1 == d * Weight(j, x);
    } else {
      assert m[..n] == Moved(rounds[..n], k, j, d) && m[n] == rounds[n];
      ValueMoved(rounds[..n], claim, x, k, j, d);
      HintDifference(rounds[n], ValueAt(m[..n], claim, x), ValueAt(rounds[..n], claim, x), x);
      Carried(x, d * Weight(j, x), Power(x, n - 1 - k));
    }
  }

  lemma Carried(x: int, w: int, p: int)
    ensures x * (w * p) == w * (p * x)
  {
  }

  lemma MovedAcceptable(rounds: seq<seq<int>>, numVars: nat, degree: nat, k: nat, j: nat, d: int)
    requires AcceptableRounds(rounds, numVars, degree) && k < |rounds| && j < |rounds[k]|
    ensures AcceptableRounds(Moved(rounds, k, j, d), numVars, degree)
  {
  }

  // The same proof with something else in it.

  /** Where the sumchecks of an accepted proof start. */
  function SpartanOf(f: Field, setup: Setup, oracle: Oracle, p: BlindFoldProtocol, proof: Proof,
                     log: seq<Item>): seq<Item>
    requires ValidMatrices(p.r1cs) && 1 <= Capacity(setup) && Accepts(f, setup, oracle, p, proof, log)
  {
    AcceptedLogIs(f, setup, oracle, p, proof, log);
    SpartanLog(f, p, SlotsOf(p), proof, log)
  }

  function InstanceOf(f: Field, setup: Setup, oracle: Oracle, p: BlindFoldProtocol, proof: Proof,
                      log: seq<Item>): RelaxedInstance
    requires ValidMatrices(p.r1cs) && 1 <= Capacity(setup) && Accepts(f, setup, oracle, p, proof, log)
  {
    FoldedInstance(p, proof.commitments, oracle(FoldLog(f, p, proof.commitments, log))).value
  }

  ghost predicate SameHead(x: Proof, y: Proof) {
    && x.commitments == y.commitments && x.evalOutputs == y.evalOutputs && x.evalBlindings == y.evalBlindings
    && x.outputOpenings == y.outputOpenings && x.blindingOpenings == y.blindingOpenings
  }

  /** Before the sumchecks only the commitments, the scalars and the slots' openings are looked at. */
  lemma HeadShared(f: Field, setup: Setup, oracle: Oracle, p: BlindFoldProtocol, x: Proof, y: Proof, log: seq<Item>)
    requires ValidMatrices(p.r1cs) && 1 <= Capacity(setup) && Accepts(f, setup, oracle, p, x, log) && SameHead(x, y)
    ensures var i, spartan := InstanceOf(f, setup, oracle, p, x, log), SpartanOf(f, setup, oracle, p, x, log);
      && OuterAccepted(f, setup, oracle, p, i, x, spartan)
      && InnerAccepted(f, setup, oracle, p, i, OuterReplay(f, oracle, p, x, spartan).point, x,
                       OuterLogAfter(f, oracle, p, x, spartan))
      && (Accepts(f, setup, oracle, p, y, log) <==>
            && OuterAccepted(f, setup, oracle, p, i, y, spartan)
            && InnerAccepted(f, setup, oracle, p, i, OuterReplay(f, oracle, p, y, spartan).point, y,
                             OuterLogAfter(f, oracle, p, y, spartan)))
  {
    hide FoldedInstance, SlotAccepted, InnerAccepted, EvalCommitmentsOpen, FinalOpeningCoordinates;
    hide FoldLog, InstancesAssemble, OuterReplay, OuterLogAfter, Slots, Count;
  }

  lemma OuterSwap(f: Field, setup: Setup, oracle: Oracle, p: BlindFoldProtocol, folded: RelaxedInstance, x: Proof,
                  y: Proof, log: seq<Item>)
    requires y == x.(outerRounds := y.outerRounds) && OuterAccepted(f, setup, oracle, p, folded, x, log)
    requires IsField(f) && AcceptableRounds(y.outerRounds, GridVars(p.dimensions.error), 3)
    requires OuterReplay(f, oracle, p, x, log).point == OuterReplay(f, oracle, p, y, log).point
    ensures OuterAccepted(f, setup, oracle, p, folded, y, log)
       <==> Same(f, OuterReplay(f, oracle, p, y, log).value, OuterReplay(f, oracle, p, x, log).value)
  {
    hide VerifiedRows, OuterReplay, EqMle, GridVars, OuterTau, OuterTerm;
  }

  lemma InnerSwap(f: Field, setup: Setup, oracle: Oracle, p: BlindFoldProtocol, folded: RelaxedInstance, rx: seq<int>,
                  x: Proof, before: seq<Item>, ry: seq<int>, y: Proof, after: seq<Item>)
    requires ValidMatrices(p.r1cs) && InnerAccepted(f, setup, oracle, p, folded, rx, x, before)
    requires x.rowOpening == y.rowOpening && rx == ry && Challenges(oracle, before, 3) == Challenges(oracle, after, 3)
    requires AcceptableRounds(y.innerRounds, GridVars(p.dimensions.grid), 2)
    requires InnerReplay(f, oracle, p, folded.u, rx, x, before).point
          == InnerReplay(f, oracle, p, folded.u, ry, y, after).point
    ensures InnerAccepted(f, setup, oracle, p, folded, ry, y, after)
       <==> Same(f, InnerReplay(f, oracle, p, folded.u, ry, y, after).value,
                 InnerReplay(f, oracle, p, folded.u, rx, x, before).value)
  {
    hide VerifiedRows, InnerReplay, FormAt, GridVars, Challenges;
  }

  lemma {:induction false} ConstantChallenges(oracle: Oracle, base: seq<Item>, log: seq<Item>, v: int, n: nat)
    requires base <= log && ConstantFrom(oracle, base, v)
    ensures Challenges(oracle, log, n) == seq(n, _ => v)
  {
    if n > 0 {
      ConstantChallenges(oracle, base, log, v, n - 1);
      SqueezedExtends(base, log, n - 1);
    }
  }

  lemma ConstantPoint(a: seq<int>, b: seq<int>, v: int)
    requires |a| == |b| && (forall i :: 0 <= i < |a| ==> a[i] == v) && (forall i :: 0 <= i < |b| ==> b[i] == v)
    ensures a == b
  {
  }

  /** The outer replay under a constant challenge. */
  lemma ConstantOuter(f: Field, oracle: Oracle, p: BlindFoldProtocol, proof: Proof, base: seq<Item>, v: int)
    requires AcceptableRounds(proof.outerRounds, GridVars(p.dimensions.error), 3) && ConstantFrom(oracle, base, v)
    ensures NonemptyRounds(proof.outerRounds)
    ensures var r := OuterReplay(f, oracle, p, proof, base);
      && r.point == seq(GridVars(p.dimensions.error), _ => v) && r.value == ValueAt(proof.outerRounds, 0, v)
      && base <= r.log && base <= OuterLogAfter(f, oracle, p, proof, base)
  {
    hide ScalarItems, OpeningItems, ReplayRounds, ValueAt, ConstantFrom;
    var log := Squeezed(base, GridVars(p.dimensions.error));
    SqueezedExtends(base, base, GridVars(p.dimensions.error));
    ConstantReplay(f, oracle, OUTER_LABEL, proof.outerRounds, 0, log, base, v);
    ConstantValue(f, oracle, OUTER_LABEL, proof.outerRounds, 0, log, base, v);
    var outer := OuterReplay(f, oracle, p, proof, base).log;
    Extends(base, outer, ScalarItems(f, "bf_az_bz_cz", [proof.az, proof.bz, proof.cz]));
    Extends(base, outer + ScalarItems(f, "bf_az_bz_cz", [proof.az, proof.bz, proof.cz]),
            OpeningItems(f, "bf_error_opening", "bf_error_blind", proof.errorOpening));
  }

  /** And the inner one. */
  lemma ConstantInner(f: Field, oracle: Oracle, p: BlindFoldProtocol, u: int, rx: seq<int>, proof: Proof,
                      log: seq<Item>, base: seq<Item>, v: int)
    requires ValidMatrices(p.r1cs) && |p.r1cs.a| <= Pow2(|rx|) && base <= log && ConstantFrom(oracle, base, v)
    requires AcceptableRounds(proof.innerRounds, GridVars(p.dimensions.grid), 2)
    ensures NonemptyRounds(proof.innerRounds) && Challenges(oracle, log, 3) == seq(3, _ => v)
    ensures var r := InnerReplay(f, oracle, p, u, rx, proof, log);
      && r.point == seq(GridVars(p.dimensions.grid), _ => v)
      && r.value == ValueAt(proof.innerRounds, InnerClaimOf(p.r1cs, rx, u, proof, seq(3, _ => v)), v)
  {
    hide ReplayRounds, ValueAt, InnerClaimOf, ConstantFrom, Challenges;
    ConstantChallenges(oracle, base, log, v, 3);
    SqueezedExtends(base, log, 3);
    var claim := InnerClaimOf(p.r1cs, rx, u, proof, Challenges(oracle, log, 3));
    ConstantReplay(f, oracle, INNER_LABEL, proof.innerRounds, claim, Squeezed(log, 3), base, v);
    ConstantValue(f, oracle, INNER_LABEL, proof.innerRounds, claim, Squeezed(log, 3), base, v);
  }

  lemma Moves(f: Field, x: int, y: int, d: int)
    requires IsField(f) && y == x + d
    ensures Same(f, y, x) <==> Same(f, d, 0)
  {
    if Same(f, y, x) {
      SameSub(f, y, x, x, x);
    }
    if Same(f, d, 0) {
      SameAdd(f, x, x, d, 0);
    }
  }

  /** Any coefficient of any inner round moved, under a challenge function that
      is constant once the sumchecks start: the proof is still accepted exactly
      when the move, weighted by the coefficient's place, vanishes. */
  lemma InnerRoundMoved(f: Field, setup: Setup, oracle: Oracle, p: BlindFoldProtocol, proof: Proof, log: seq<Item>,
                        v: int, k: nat, j: nat, d: int)
    requires IsField(f) && ValidMatrices(p.r1cs) && 1 <= Capacity(setup) && Accepts(f, setup, oracle, p, proof, log)
    requires ConstantFrom(oracle, SpartanOf(f, setup, oracle, p, proof, log), v)
    requires k < |proof.innerRounds| && j < |proof.innerRounds[k]|
    ensures Accepts(f, setup, oracle, p, proof.(innerRounds := Moved(proof.innerRounds, k, j, d)), log)
       <==> Same(f, d * Weight(j, v) * Power(v, |proof.innerRounds| - 1 - k), 0)
  {
    hide *;
    var moved := proof.(innerRounds := Moved(proof.innerRounds, k, j, d));
    var i, base := InstanceOf(f, setup, oracle, p, proof, log), SpartanOf(f, setup, oracle, p, proof, log);
    AcceptedLogIs(f, setup, oracle, p, proof, log);
    SameHeads(proof, moved);
    HeadShared(f, setup, oracle, p, proof, moved, log);
    MovedAcceptable(proof.innerRounds, GridVars(p.dimensions.grid), 2, k, j, d);
    InnerChange(f, oracle, p, proof, moved, base);
    var rx, after := OuterReplay(f, oracle, p, proof, base).point, OuterLogAfter(f, oracle, p, proof, base);
    ConstantOuter(f, oracle, p, proof, base, v);
    ConstantInner(f, oracle, p, i.u, rx, proof, after, base, v);
    ConstantInner(f, oracle, p, i.u, rx, moved, after, base, v);
    InnerSwap(f, setup, oracle, p, i, rx, proof, after, rx, moved, after);
    OuterIgnoresInner(f, setup, oracle, p, i, proof, moved, base);
    SameClaim(p, rx, i.u, proof, moved, seq(3, _ => v));
    var claim := InnerClaimOf(p.r1cs, rx, i.u, proof, seq(3, _ => v));
    ValueMoved(proof.innerRounds, claim, v, k, j, d);
    Moves(f, ValueAt(proof.innerRounds, claim, v), ValueAt(moved.innerRounds, claim, v),
          d * Weight(j, v) * Power(v, |proof.innerRounds| - 1 - k));
  }

  lemma SameHeads(x: Proof, y: Proof)
    requires y == x.(outerRounds := y.outerRounds, az := y.az, bz := y.bz, cz := y.cz, innerRounds := y.innerRounds,
                     rowOpening := y.rowOpening, errorOpening := y.errorOpening)
    ensures SameHead(x, y)
  {
  }

  lemma InnerChange(f: Field, oracle: Oracle, p: BlindFoldProtocol, x: Proof, y: Proof, log: seq<Item>)
    requires AcceptableRounds(x.outerRounds, GridVars(p.dimensions.error), 3)
    requires y == x.(innerRounds := y.innerRounds, rowOpening := y.rowOpening)
    ensures OuterReplay(f, oracle, p, x, log) == OuterReplay(f, oracle, p, y, log)
    ensures OuterLogAfter(f, oracle, p, x, log) == OuterLogAfter(f, oracle, p, y, log)
  {
  }

  lemma OuterIgnoresInner(f: Field, setup: Setup, oracle: Oracle, p: BlindFoldProtocol, folded: RelaxedInstance,
                          x: Proof, y: Proof, log: seq<Item>)
    requires y == x.(innerRounds := y.innerRounds, rowOpening := y.rowOpening)
    ensures OuterAccepted(f, setup, oracle, p, folded, x, log) <==> OuterAccepted(f, setup, oracle, p, folded, y, log)
  {
    hide VerifiedRows, ReplayRounds, EqMle, GridVars, OuterTau, OuterTerm;
  }

  lemma SameClaim(p: BlindFoldProtocol, rx: seq<int>, u: int, x: Proof, y: Proof, abc: seq<int>)
    requires ValidMatrices(p.r1cs) && |p.r1cs.a| <= Pow2(|rx|) && |abc| == 3
    requires x.az == y.az && x.bz == y.bz && x.cz == y.cz
    ensures InnerClaimOf(p.r1cs, rx, u, x, abc) == InnerClaimOf(p.r1cs, rx, u, y, abc)
  {
  }

  /** The same for the outer rounds. */
  lemma OuterRoundMoved(f: Field, setup: Setup, oracle: Oracle, p: BlindFoldProtocol, proof: Proof, log: seq<Item>,
                        v: int, k: nat, j: nat, d: int)
    requires IsField(f) && ValidMatrices(p.r1cs) && 1 <= Capacity(setup) && Accepts(f, setup, oracle, p, proof, log)
    requires ConstantFrom(oracle, SpartanOf(f, setup, oracle, p, proof, log), v)
    requires k < |proof.outerRounds| && j < |proof.outerRounds[k]|
    ensures Accepts(f, setup, oracle, p, proof.(outerRounds := Moved(proof.outerRounds, k, j, d)), log)
       <==> Same(f, d * Weight(j, v) * Power(v, |proof.outerRounds| - 1 - k), 0)
  {
    hide *;
    var moved := proof.(outerRounds := Moved(proof.outerRounds, k, j, d));
    var i, base := InstanceOf(f, setup, oracle, p, proof, log), SpartanOf(f, setup, oracle, p, proof, log);
    AcceptedLogIs(f, setup, oracle, p, proof, log);
    SameHeads(proof, moved);
    HeadShared(f, setup, oracle, p, proof, moved, log);
    MovedAcceptable(proof.outerRounds, GridVars(p.dimensions.error), 3, k, j, d);
    var rx, before := OuterReplay(f, oracle, p, proof, base).point, OuterLogAfter(f, oracle, p, proof, base);
    var ry, after := OuterReplay(f, oracle, p, moved, base).point, OuterLogAfter(f, oracle, p, moved, base);
    ConstantOuter(f, oracle, p, proof, base, v);
    ConstantOuter(f, oracle, p, moved, base, v);
    ConstantInner(f, oracle, p, i.u, rx, proof, before, base, v);
    ConstantInner(f, oracle, p, i.u, ry, moved, after, base, v);
    SameClaim(p, rx, i.u, proof, moved, seq(3, _ => v));
    InnerSwap(f, setup, oracle, p, i, rx, proof, before, ry, moved, after);
    OuterSwap(f, setup, oracle, p, i, proof, moved, base);
    ValueMoved(proof.outerRounds, 0, v, k, j, d);
    Moves(f, ValueAt(proof.outerRounds, 0, v), ValueAt(moved.outerRounds, 0, v),
          d * Weight(j, v) * Power(v, |proof.outerRounds| - 1 - k));
    SameReflexive(f, InnerReplay(f, oracle, p, i.u, rx, proof, before).value);
  }

  lemma SameReflexive(f: Field, x: int)
    ensures Same(f, x, x)
  {
  }

  /** The claimed products are checked before they are absorbed: another three
      are accepted only if the summand does not tell them from the first. */
  lemma ProductsMoved(f: Field, setup: Setup, oracle: Oracle, p: BlindFoldProtocol, proof: Proof, log: seq<Item>,
                      az: int, bz: int, cz: int)
    requires IsField(f) && ValidMatrices(p.r1cs) && 1 <= Capacity(setup) && Accepts(f, setup, oracle, p, proof, log)
    requires Accepts(f, setup, oracle, p, proof.(az := az, bz := bz, cz := cz), log)
    ensures AcceptableRounds(proof.outerRounds, GridVars(p.dimensions.error), 3)
    ensures var i, base := InstanceOf(f, setup, oracle, p, proof, log), SpartanOf(f, setup, oracle, p, proof, log);
      var tau := Challenges(oracle, base, GridVars(p.dimensions.error));
      var eq := EqMle(tau, OuterReplay(f, oracle, p, proof, base).point);
      Same(f, eq * (proof.az * proof.bz - i.u * proof.cz), eq * (az * bz - i.u * cz))
  {
    hide *;
    var moved := proof.(az := az, bz := bz, cz := cz);
    var i, base := InstanceOf(f, setup, oracle, p, proof, log), SpartanOf(f, setup, oracle, p, proof, log);
    AcceptedLogIs(f, setup, oracle, p, proof, log);
    SameHeads(proof, moved);
    HeadShared(f, setup, oracle, p, proof, moved, log);
    OuterValue(f, setup, oracle, p, i, proof, moved, base);
  }

  lemma OuterValue(f: Field, setup: Setup, oracle: Oracle, p: BlindFoldProtocol, folded: RelaxedInstance, x: Proof,
                   y: Proof, log: seq<Item>)
    requires IsField(f) && y == x.(az := y.az, bz := y.bz, cz := y.cz)
    requires OuterAccepted(f, setup, oracle, p, folded, x, log) && OuterAccepted(f, setup, oracle, p, folded, y, log)
    ensures AcceptableRounds(x.outerRounds, GridVars(p.dimensions.error), 3)
    ensures var tau := Challenges(oracle, log, GridVars(p.dimensions.error));
      var eq := EqMle(tau, OuterReplay(f, oracle, p, x, log).point);
      Same(f, eq * (x.az * x.bz - folded.u * x.cz), eq * (y.az * y.bz - folded.u * y.cz))
  {
    hide VerifiedRows, ReplayRounds, EqMle;
    var d, replay := p.dimensions.error, OuterReplay(f, oracle, p, x, log);
    var k := Log2(d.rowCount);
    var e := VerifiedRows(f, setup, folded.errors, replay.point[..k], replay.point[k..], x.errorOpening).value;
    TermDifference(f, EqMle(OuterTau(oracle, p, log), replay.point), x.az * x.bz - folded.u * x.cz,
                   y.az * y.bz - folded.u * y.cz, e);
  }

  lemma TermDifference(f: Field, eq: int, a: int, b: int, e: int)
    requires IsField(f) && Same(f, eq * (a - e), eq * (b - e))
    ensures Same(f, eq * a, eq * b)
  {
    SameAdd(f, eq * (a - e), eq * (b - e), eq * e, eq * e);
    assert eq * (a - e) + eq * e == eq * a && eq * (b - e) + eq * e == eq * b;
  }

  /** The blinding of the opened witness row moved: still accepted exactly when
      the commitment does not see it. */
  lemma BlindingMoved(f: Field, setup: Setup, oracle: Oracle, p: BlindFoldProtocol, proof: Proof, log: seq<Item>,
                      d: int)
    requires IsField(f) && ValidMatrices(p.r1cs) && 1 <= Capacity(setup) && Accepts(f, setup, oracle, p, proof, log)
    ensures var o := proof.rowOpening;
      Accepts(f, setup, oracle, p,
              proof.(rowOpening := Opening(o.combinedVector, o.combinedBlinding + d)), log)
      <==> Same(f, d * setup.blindingGenerator, 0)
  {
    hide *;
    var o := proof.rowOpening;
    var moved := proof.(rowOpening := Opening(o.combinedVector, o.combinedBlinding + d));
    var i, base := InstanceOf(f, setup, oracle, p, proof, log), SpartanOf(f, setup, oracle, p, proof, log);
    AcceptedLogIs(f, setup, oracle, p, proof, log);
    SameHeads(proof, moved);
    HeadShared(f, setup, oracle, p, proof, moved, log);
    InnerChange(f, oracle, p, proof, moved, base);
    OuterIgnoresInner(f, setup, oracle, p, i, proof, moved, base);
    InnerBlinding(f, setup, oracle, p, i, OuterReplay(f, oracle, p, proof, base).point, proof, moved,
                  OuterLogAfter(f, oracle, p, proof, base), d);
  }

  lemma InnerBlinding(f: Field, setup: Setup, oracle: Oracle, p: BlindFoldProtocol, folded: RelaxedInstance,
                      rx: seq<int>, x: Proof, y: Proof, log: seq<Item>, d: int)
    requires IsField(f) && ValidMatrices(p.r1cs) && InnerAccepted(f, setup, oracle, p, folded, rx, x, log)
    requires y == x.(rowOpening := Opening(x.rowOpening.combinedVector, x.rowOpening.combinedBlinding + d))
    ensures InnerAccepted(f, setup, oracle, p, folded, rx, y, log) <==> Same(f, d * setup.blindingGenerator, 0)
  {
    hide *;
    InnerUnfolds(f, setup, oracle, p, folded, rx, x, log);
    InnerUnfolds(f, setup, oracle, p, folded, rx, y, log);
    InnerIgnoresOpening(f, oracle, p, folded.u, rx, x, y, log);
    var k, point := Log2(p.dimensions.grid.rowCount), InnerReplay(f, oracle, p, folded.u, rx, x, log).point;
    OpenedBlinding(f, setup, folded.rows, point[..k], point[k..], x.rowOpening, d);
  }

  lemma InnerIgnoresOpening(f: Field, oracle: Oracle, p: BlindFoldProtocol, u: int, rx: seq<int>, x: Proof, y: Proof,
                            log: seq<Item>)
    requires ValidMatrices(p.r1cs) && |p.r1cs.a| <= Pow2(|rx|) && y == x.(rowOpening := y.rowOpening)
    requires AcceptableRounds(x.innerRounds, GridVars(p.dimensions.grid), 2)
    ensures InnerReplay(f, oracle, p, u, rx, x, log) == InnerReplay(f, oracle, p, u, rx, y, log)
  {
  }

  /** The inner checks, around the opening. */
  lemma InnerUnfolds(f: Field, setup: Setup, oracle: Oracle, p: BlindFoldProtocol, folded: RelaxedInstance,
                     rx: seq<int>, proof: Proof, log: seq<Item>)
    requires ValidMatrices(p.r1cs)
    ensures InnerAccepted(f, setup, oracle, p, folded, rx, proof, log) <==>
      && |p.r1cs.a| <= Pow2(|rx|) && Log2(p.dimensions.grid.rowCount) <= GridVars(p.dimensions.grid)
      && SplitDims(p.dimensions.grid) && AcceptableRounds(proof.innerRounds, GridVars(p.dimensions.grid), 2)
      && var replay, k := InnerReplay(f, oracle, p, folded.u, rx, proof, log), Log2(p.dimensions.grid.rowCount);
         var w := VerifiedRows(f, setup, folded.rows, replay.point[..k], replay.point[k..], proof.rowOpening);
         w.Ok? && Same(f, replay.value, FormAt(p.r1cs, rx, replay.point, Challenges(oracle, log, 3)) * w.value)
  {
    hide VerifiedRows, InnerReplay, FormAt, Challenges;
  }

  /** The blinding of the opened error row moved, whatever answers after it:
      accepted only when the commitment does not see it. */
  lemma ErrorBlindingMoved(f: Field, setup: Setup, oracle: Oracle, p: BlindFoldProtocol, proof: Proof, log: seq<Item>,
                           d: int)
    requires IsField(f) && ValidMatrices(p.r1cs) && 1 <= Capacity(setup) && Accepts(f, setup, oracle, p, proof, log)
    requires var o := proof.errorOpening;
      Accepts(f, setup, oracle, p, proof.(errorOpening := Opening(o.combinedVector, o.combinedBlinding + d)), log)
    ensures Same(f, d * setup.blindingGenerator, 0)
  {
    hide *;
    var o := proof.errorOpening;
    var moved := proof.(errorOpening := Opening(o.combinedVector, o.combinedBlinding + d));
    var i, base := InstanceOf(f, setup, oracle, p, proof, log), SpartanOf(f, setup, oracle, p, proof, log);
    AcceptedLogIs(f, setup, oracle, p, proof, log);
    SameHeads(proof, moved);
    HeadShared(f, setup, oracle, p, proof, moved, log);
    OuterBlinding(f, setup, oracle, p, i, proof, moved, base, d);
  }

  lemma OuterBlinding(f: Field, setup: Setup, oracle: Oracle, p: BlindFoldProtocol, folded: RelaxedInstance, x: Proof,
                      y: Proof, log: seq<Item>, d: int)
    requires IsField(f)
    requires y == x.(errorOpening := Opening(x.errorOpening.combinedVector, x.errorOpening.combinedBlinding + d))
    requires OuterAccepted(f, setup, oracle, p, folded, x, log) && OuterAccepted(f, setup, oracle, p, folded, y, log)
    ensures Same(f, d * setup.blindingGenerator, 0)
  {
    hide VerifiedRows, ReplayRounds, EqMle, OuterTerm;
    var k, point := Log2(p.dimensions.error.rowCount), OuterReplay(f, oracle, p, x, log).point;
    OpenedBlinding(f, setup, folded.errors, point[..k], point[k..], x.errorOpening, d);
  }

  lemma OpenedBlinding(f: Field, setup: Setup, commitments: seq<int>, rowPoint: seq<int>, entryPoint: seq<int>,
                       o: Opening, d: int)
    requires IsField(f) && VerifiedRows(f, setup, commitments, rowPoint, entryPoint, o).Ok?
    ensures var moved := Opening(o.combinedVector, o.combinedBlinding + d);
      var v := VerifiedRows(f, setup, commitments, rowPoint, entryPoint, moved);
      && (v.Ok? <==> Same(f, d * setup.blindingGenerator, 0))
      && (v.Ok? ==> v.value == VerifiedRows(f, setup, commitments, rowPoint, entryPoint, o).value)
  {
    hide Dot, EqTable, Mle, IsPow2;
    var h, b := setup.blindingGenerator, o.combinedBlinding;
    var c := Commit(setup, o.combinedVector, b);
    assert (b + d) * h == b * h + d * h;
    Moves(f, c, Commit(setup, o.combinedVector, b + d), d * h);
  }

  /** The last inner round's constant coefficient moved by anything, with a
      challenge that is not one half: rejected. */
  lemma LastConstantMoved(f: Field, setup: Setup, oracle: Oracle, p: BlindFoldProtocol, proof: Proof, log: seq<Item>,
                          v: int, d: int)
    requires IsField(f) && ValidMatrices(p.r1cs) && 1 <= Capacity(setup) && Accepts(f, setup, oracle, p, proof, log)
    requires ConstantFrom(oracle, SpartanOf(f, setup, oracle, p, proof, log), v)
    requires !Same(f, d, 0) && !Same(f, 2 * v, 1)
    ensures var n := |proof.innerRounds|;
      && 0 < n && proof.innerRounds[n - 1] != []
      && !Accepts(f, setup, oracle, p, proof.(innerRounds := Moved(proof.innerRounds, n - 1, 0, d)), log)
  {
    hide *;
    var n := |proof.innerRounds|;
    AcceptedRounds(f, setup, oracle, p, proof, log);
    LastRound(proof.innerRounds);
    InnerRoundMoved(f, setup, oracle, p, proof, log, v, n - 1, 0, d);
    LastWeight(f, d, v);
  }

  lemma LastRound(rounds: seq<seq<int>>)
    requires 0 < |rounds| && forall i :: 0 <= i < |rounds| ==> 1 <= |rounds[i]| <= 2
    ensures 0 < |rounds[|rounds| - 1]|
  {
  }

  lemma LastWeight(f: Field, d: int, v: int)
    requires IsField(f) && !Same(f, d, 0) && !Same(f, 2 * v, 1)
    ensures !Same(f, d * Weight(0, v) * Power(v, 0), 0)
  {
    if Same(f, 1 - 2 * v, 0) {
      SameAdd(f, 1 - 2 * v, 0, 2 * v, 2 * v);
    }
    NonzeroProduct(f, d, 1 - 2 * v);
    assert d * (1 - 2 * v) * 1 == d * (1 - 2 * v);
  }

  /** Acceptance asks for one round a variable, with one to three stored
      coefficients in the outer rounds and one or two in the inner ones. */
  lemma AcceptedRounds(f: Field, setup: Setup, oracle: Oracle, p: BlindFoldProtocol, proof: Proof, log: seq<Item>)
    requires ValidMatrices(p.r1cs) && 1 <= Capacity(setup) && Accepts(f, setup, oracle, p, proof, log)
    ensures |proof.innerRounds| == Log2(p.dimensions.grid.rowCount) + Log2(p.dimensions.grid.rowLen) > 0
    ensures |proof.outerRounds| == Log2(p.dimensions.error.rowCount) + Log2(p.dimensions.error.rowLen) > 0
    ensures forall i :: 0 <= i < |proof.innerRounds| ==> 1 <= |proof.innerRounds[i]| <= 2
    ensures forall i :: 0 <= i < |proof.outerRounds| ==> 1 <= |proof.outerRounds[i]| <= 3
  {
    hide BindingsAccepted, EvalCommitmentsOpen;
  }
}
