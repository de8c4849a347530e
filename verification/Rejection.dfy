/** Where completeness stops: with two final openings the verifier absorbs the
    openings in another order than the prover, and an honest proof is rejected
    under some challenge function. */
module Rejection {
  import opened Results
  import opened Fields
  import opened Vectors
  import opened Multilinear
  import opened Matrices
  import opened Univariate
  import opened R1cs
  import opened RowCommitment
  import opened Transcripts
  import opened Sumcheck
  import opened Protocol
  import opened Verifier
  import opened Prover

  // Runs on a challenge function that is constant from some log on.

  ghost predicate ConstantFrom(oracle: Oracle, base: seq<Item>, v: int) {
    forall items :: base <= items ==> oracle(items) == v
  }

  lemma Extends(a: seq<Item>, b: seq<Item>, c: seq<Item>)
    requires a <= b
    ensures a <= b + c
  {
  }

  lemma {:induction false} SqueezedExtends(base: seq<Item>, log: seq<Item>, n: nat)
    requires base <= log
    ensures base <= Squeezed(log, n)
  {
    if n > 0 {
      SqueezedExtends(base, log, n - 1);
    }
  }

  /** Every challenge of a replay is the constant. */
  lemma {:induction false} ConstantReplay(f: Field, oracle: Oracle, name: string, rounds: seq<seq<int>>, claim: int,
                                          log: seq<Item>, base: seq<Item>, v: int)
    requires NonemptyRounds(rounds) && base <= log && ConstantFrom(oracle, base, v)
    ensures var r := ReplayRounds(f, oracle, name, rounds, claim, log);
      base <= r.log && forall i :: 0 <= i < |r.point| ==> r.point[i] == v
  {
    if rounds != [] {
      var n := |rounds| - 1;
      ConstantReplay(f, oracle, name, rounds[..n], claim, log, base, v);
      var before := ReplayRounds(f, oracle, name, rounds[..n], claim, log);
      Extends(base, before.log, ScalarItems(f, name, rounds[n]));
    }
  }

  /** Once constant, the inner point is the constant in every coordinate. */
  lemma ConstantInnerPoint(f: Field, oracle: Oracle, p: BlindFoldProtocol, u: int, rx: seq<int>, proof: Proof,
                           before: seq<Item>, base: seq<Item>, v: int)
    requires ValidMatrices(p.r1cs) && |p.r1cs.a| <= Pow2(|rx|)
    requires AcceptableRounds(proof.outerRounds, GridVars(p.dimensions.error), 3)
    requires AcceptableRounds(proof.innerRounds, GridVars(p.dimensions.grid), 2)
    requires base <= before && ConstantFrom(oracle, base, v)
    ensures var point := InnerReplay(f, oracle, p, u, rx, proof, OuterLogAfter(f, oracle, p, proof, before)).point;
      forall i :: 0 <= i < |point| ==> point[i] == v
  {
    var vars := GridVars(p.dimensions.error);
    SqueezedExtends(base, before, vars);
    ConstantReplay(f, oracle, OUTER_LABEL, proof.outerRounds, 0, Squeezed(before, vars), base, v);
    var outer := OuterReplay(f, oracle, p, proof, before).log;
    var claims, opening := ScalarItems(f, "bf_az_bz_cz", [proof.az, proof.bz, proof.cz]),
                           OpeningItems(f, "bf_error_opening", "bf_error_blind", proof.errorOpening);
    Extends(base, outer, claims);
    Extends(base, outer + claims, opening);
    var log := outer + claims + opening;
    SqueezedExtends(base, log, 3);
    ConstantReplay(f, oracle, INNER_LABEL, proof.innerRounds,
                   InnerClaimOf(p.r1cs, rx, u, proof, Challenges(oracle, log, 3)),
                   Squeezed(log, 3), base, v);
  }

  // The corner of a grid an all-zeros or all-ones point names.

  lemma {:induction false} ZeroBits(point: seq<int>)
    requires forall i :: 0 <= i < |point| ==> point[i] == 0
    ensures point == Bits(0, |point|)
    decreases |point|
  {
    if point != [] {
      ZeroBits(point[1..]);
      assert point == [0] + point[1..];
    }
  }

  lemma {:induction false} OneBits(point: seq<int>)
    requires forall i :: 0 <= i < |point| ==> point[i] == 1
    ensures point == Bits(Pow2(|point|) - 1, |point|)
    decreases |point|
  {
    if point != [] {
      OneBits(point[1..]);
      assert point == [1] + point[1..];
    }
  }

  /** At a vertex the check compares one row's commitment with the opening. */
  lemma VertexChecks(f: Field, setup: Setup, commitments: seq<int>, rows: seq<seq<int>>, blindings: seq<int>, len: nat,
                     index: nat, n: nat, entryPoint: seq<int>, opening: Opening)
    requires Opens(f, setup, commitments, rows, blindings, len) && |rows| == Pow2(n) && index < |rows|
    requires VerifiedRows(f, setup, commitments, Bits(index, n), entryPoint, opening).Ok?
    ensures |opening.combinedVector| <= Capacity(setup)
    ensures Same(f, Commit(setup, rows[index], blindings[index]),
                 Commit(setup, opening.combinedVector, opening.combinedBlinding))
  {
    var point := Bits(index, n);
    DotSymmetric(EqTable(point), commitments);
    DotIsMle(commitments, point);
    MleAtVertex(commitments, index, n);
  }

  // Two logs of one length, told apart by what was absorbed.

  lemma SameKindLength(f: Field, kind: Kind, ops: seq<Opening>)
    requires ops != []
    ensures |SameKindItems(f, kind, ops)| == |SlotItems(f, kind, ops[0])| + |SameKindItems(f, kind, ops[1..])|
  {
  }

  /** The two orders absorb equally many items. */
  lemma {:induction false} OrdersSameLength(f: Field, slots: seq<Slot>, outputs: seq<Opening>, blindings: seq<Opening>)
    requires Count(slots, Output) == |outputs| && Count(slots, Blinding) == |blindings|
    ensures |InSlotOrder(f, slots, Aligned(slots, outputs, blindings))| == |GroupedItems(f, outputs, blindings)|
  {
    if slots != [] {
      var tail, ops := slots[1..], Aligned(slots, outputs, blindings);
      if slots[0].kind == Output {
        OrdersSameLength(f, tail, outputs[1..], blindings);
        assert ops[1..] == Aligned(tail, outputs[1..], blindings);
        SameKindLength(f, Output, outputs);
      } else {
        OrdersSameLength(f, tail, outputs, blindings[1..]);
        assert ops[1..] == Aligned(tail, outputs, blindings[1..]);
        SameKindLength(f, Blinding, blindings);
      }
    }
  }

  /** One for the logs that start as the verifier's, zero for all others. */
  function Telling(base: seq<Item>): Oracle {
    items => if base <= items then 1 else 0
  }

  lemma TellingApart(shared: seq<Item>, a: seq<Item>, b: seq<Item>)
    requires |a| == |b| && a != b && a != []
    ensures ConstantFrom(Telling(shared + b), shared + b, 1) && ConstantFrom(Telling(shared + b), shared + a, 0)
    ensures forall early :: |early| <= |shared| ==> Telling(shared + b)(early) == 0
  {
    forall items | shared + a <= items ensures Telling(shared + b)(items) == 0 {
      if shared + b <= items {
        assert shared + a == items[..|shared| + |a|] == shared + b;
        CancelHead(shared, a, b);
      }
    }
  }

  // The challenge function, from what the prover holds.

  function OutputsOf(p: BlindFoldProtocol, w: BlindFoldWitness): (ops: seq<Opening>)
    requires WellFormed(p) && WitnessShaped(p, w)
    ensures |ops| == Count(SlotsOf(p), Output)
  {
    SlotOpenings(SlotsOf(p), Output, w.rows, w.blindings)
  }

  function BlindingsOf(p: BlindFoldProtocol, w: BlindFoldWitness): (ops: seq<Opening>)
    requires WellFormed(p) && WitnessShaped(p, w)
    ensures |ops| == Count(SlotsOf(p), Blinding)
  {
    SlotOpenings(SlotsOf(p), Blinding, w.rows, w.blindings)
  }

  /** What the verifier absorbs of the openings, and what the prover does, if
      the folding challenge is zero. */
  function VerifierOrder(f: Field, p: BlindFoldProtocol, w: BlindFoldWitness): seq<Item>
    requires WellFormed(p) && WitnessShaped(p, w)
  {
    InSlotOrder(f, SlotsOf(p), Aligned(SlotsOf(p), OutputsOf(p, w), BlindingsOf(p, w)))
  }

  function ProverOrder(f: Field, p: BlindFoldProtocol, w: BlindFoldWitness): seq<Item>
    requires WellFormed(p) && WitnessShaped(p, w)
  {
    GroupedItems(f, OutputsOf(p, w), BlindingsOf(p, w))
  }

  /** Everything up to the folding challenge. */
  function SharedLog(f: Field, setup: Setup, p: BlindFoldProtocol, w: BlindFoldWitness, r: Randomness, mask: Mask,
                     log: seq<Item>): seq<Item>
    requires Ready(setup, p, w, r, mask)
  {
    Assembles(setup, p, w, r, mask);
    FoldLog(f, p, CommitmentsOf(setup, p, w, r, mask), log) + [Squeeze]
  }

  function TellingOracle(f: Field, setup: Setup, p: BlindFoldProtocol, w: BlindFoldWitness, r: Randomness, mask: Mask,
                         log: seq<Item>): Oracle
    requires Ready(setup, p, w, r, mask)
  {
    Telling(SharedLog(f, setup, p, w, r, mask, log) + VerifierOrder(f, p, w))
  }

  lemma OracleTells(f: Field, setup: Setup, p: BlindFoldProtocol, w: BlindFoldWitness, r: Randomness, mask: Mask,
                    log: seq<Item>)
    requires Ready(setup, p, w, r, mask) && !OutputsFirst(SlotsOf(p))
    ensures var oracle, shared := TellingOracle(f, setup, p, w, r, mask, log), SharedLog(f, setup, p, w, r, mask, log);
      && ConstantFrom(oracle, shared + VerifierOrder(f, p, w), 1)
      && ConstantFrom(oracle, shared + ProverOrder(f, p, w), 0)
      && InstancesAssemble(p, CommitmentsOf(setup, p, w, r, mask))
      && oracle(FoldLog(f, p, CommitmentsOf(setup, p, w, r, mask), log)) == 0
  {
    Assembles(setup, p, w, r, mask);
    AbsorptionOrder(f, SlotsOf(p), OutputsOf(p, w), BlindingsOf(p, w));
    OrdersSameLength(f, SlotsOf(p), OutputsOf(p, w), BlindingsOf(p, w));
    TellingApart(SharedLog(f, setup, p, w, r, mask, log), ProverOrder(f, p, w), VerifierOrder(f, p, w));
  }

  /** Folding with the challenge zero keeps the witness as it is. */
  lemma FoldAtZero(setup: Setup, p: BlindFoldProtocol, w: BlindFoldWitness, r: Randomness, mask: Mask)
    requires Ready(setup, p, w, r, mask)
    ensures FoldWitness(setup, p, w, r, mask, 0).rows == w.rows
    ensures FoldWitness(setup, p, w, r, mask, 0).blindings == w.blindings
  {
    var rows := FoldRows(w.rows, mask.rows, p.dimensions.grid.rowLen, 0);
    forall i | 0 <= i < |rows| ensures rows[i] == w.rows[i] {
      ZeroFold(w.rows[i], mask.rows[i]);
    }
    ZeroFold(w.blindings, mask.blindings);
  }

  lemma ZeroFold(a: seq<int>, b: seq<int>)
    requires |a| == |b|
    ensures Folded(a, b, 0) == a
  {
  }

  /** The first and the last row of the witness grid commit to different elements. */
  ghost predicate EndsDiffer(f: Field, setup: Setup, w: BlindFoldWitness)
    requires w.rows != [] && |w.blindings| == |w.rows| && forall i :: 0 <= i < |w.rows| ==>
      |w.rows[i]| <= Capacity(setup)
  {
    var last := |w.rows| - 1;
    !Same(f, Commit(setup, w.rows[0], w.blindings[0]), Commit(setup, w.rows[last], w.blindings[last]))
  }

  /** On the all-zeros challenges the prover opens the first row of its grid. */
  lemma OpensFirstRow(f: Field, oracle: Oracle, p: BlindFoldProtocol, g: Folding, base: seq<Item>, partial: Proof,
                      proof: Proof)
    requires WellFormed(p) && FoldingShaped(p, g) && FlatSize(g.rows, p.dimensions.grid)
    requires ProofRun(f, oracle, p, g, base, partial, proof) && ConstantFrom(oracle, base, 0)
    ensures g.rows != [] && proof.rowOpening == Opening(g.rows[0], g.blindings[0])
  {
    var middle, rx, log :|
      && OuterPhaseRun(f, oracle, p, g.u, Flatten(g.rows), g.errorRows, g.errorBlindings, partial, base, middle, rx,
                       log)
      && InnerShaped(p, g.rows, g.blindings, rx)
      && InnerPhaseRun(f, oracle, p, g.u, g.rows, g.blindings, rx, middle, log, proof);
    var before, d := base + [Label("bf_spartan")], p.dimensions.grid;
    Extends(base, base, [Label("bf_spartan")]);
    assert log == OuterLogAfter(f, oracle, p, proof, before);
    ConstantInnerPoint(f, oracle, p, g.u, rx, proof, before, base, 0);
    var n := Log2(d.rowCount);
    var point := InnerReplay(f, oracle, p, g.u, rx, proof, log).point[..n];
    ZeroBits(point);
    OpeningAtVertex(g.rows, g.blindings, d.rowLen, 0, n);
  }

  /** On the all-ones challenges the verifier checks against the last row. */
  lemma ChecksLastRow(f: Field, setup: Setup, oracle: Oracle, p: BlindFoldProtocol, folded: RelaxedInstance,
                      rows: seq<seq<int>>, blindings: seq<int>, rx: seq<int>, proof: Proof, before: seq<Item>,
                      base: seq<Item>)
    requires WellFormed(p) && Grid(rows, p.dimensions.grid)
    requires Opens(f, setup, folded.rows, rows, blindings, p.dimensions.grid.rowLen)
    requires base <= before && ConstantFrom(oracle, base, 1)
    requires AcceptableRounds(proof.outerRounds, GridVars(p.dimensions.error), 3)
    requires InnerAccepted(f, setup, oracle, p, folded, rx, proof, OuterLogAfter(f, oracle, p, proof, before))
    ensures rows != [] && |proof.rowOpening.combinedVector| <= Capacity(setup)
    ensures Same(f, Commit(setup, rows[|rows| - 1], blindings[|rows| - 1]),
                 Commit(setup, proof.rowOpening.combinedVector, proof.rowOpening.combinedBlinding))
  {
    hide Commit, Bits, Dot, EqTable, Mle, ReplayRounds, SlotsDedicated;
    var d := p.dimensions.grid;
    var n, replay := Log2(d.rowCount),
                     InnerReplay(f, oracle, p, folded.u, rx, proof, OuterLogAfter(f, oracle, p, proof, before));
    ConstantInnerPoint(f, oracle, p, folded.u, rx, proof, before, base, 1);
    IsPow2Log(d.rowCount);
    OneBits(replay.point[..n]);
    VertexChecks(f, setup, folded.rows, rows, blindings, d.rowLen, |rows| - 1, n, replay.point[n..], proof.rowOpening);
  }

  /** What a run with the folding challenge zero is. */
  lemma RunAtZero(f: Field, setup: Setup, oracle: Oracle, p: BlindFoldProtocol, w: BlindFoldWitness, r: Randomness,
                  mask: Mask, log: seq<Item>, g: Folding, partial: Proof, proof: Proof)
    requires Ready(setup, p, w, r, mask) && InstancesAssemble(p, CommitmentsOf(setup, p, w, r, mask))
    requires Proved(f, setup, oracle, p, w, r, log, mask, partial, proof)
    requires oracle(FoldLog(f, p, CommitmentsOf(setup, p, w, r, mask), log)) == 0
    requires g == FoldWitness(setup, p, w, r, mask, 0)
    ensures g.rows == w.rows && g.blindings == w.blindings && FlatSize(g.rows, p.dimensions.grid)
    ensures partial.commitments == CommitmentsOf(setup, p, w, r, mask)
    ensures partial.outputOpenings == OutputsOf(p, w) && partial.blindingOpenings == BlindingsOf(p, w)
    ensures ProofRun(f, oracle, p, g, SharedLog(f, setup, p, w, r, mask, log) + ProverOrder(f, p, w), partial, proof)
  {
    FoldAtZero(setup, p, w, r, mask);
  }

  /** What acceptance asks of the inner phase. */
  lemma AcceptedInner(f: Field, setup: Setup, oracle: Oracle, p: BlindFoldProtocol, instance: RelaxedInstance,
                      proof: Proof, order: seq<Item>, log: seq<Item>)
    requires WellFormed(p) && 1 <= Capacity(setup) && Accepts(f, setup, oracle, p, proof, log)
    requires oracle(FoldLog(f, p, proof.commitments, log)) == 0
    requires FoldedInstance(p, proof.commitments, 0) == Ok(instance)
    requires Count(SlotsOf(p), Output) == |proof.outputOpenings|
    requires Count(SlotsOf(p), Blinding) == |proof.blindingOpenings|
    requires order == InSlotOrder(f, SlotsOf(p), Aligned(SlotsOf(p), proof.outputOpenings, proof.blindingOpenings))
    ensures AcceptableRounds(proof.outerRounds, GridVars(p.dimensions.error), 3)
    ensures var spartan := FoldLog(f, p, proof.commitments, log) + [Squeeze] + order + [Label("bf_spartan")];
      InnerAccepted(f, setup, oracle, p, instance, OuterReplay(f, oracle, p, proof, spartan).point, proof,
                    OuterLogAfter(f, oracle, p, proof, spartan))
  {
  }

  /** With the openings absorbed in another order, an honest proof is rejected
      under a challenge function that tells the two orders apart. */
  lemma HonestProofRejected(f: Field, setup: Setup, p: BlindFoldProtocol, w: BlindFoldWitness, r: Randomness,
                            mask: Mask, log: seq<Item>, partial: Proof, proof: Proof)
    requires IsField(f) && Ready(setup, p, w, r, mask) && Honest(f, setup, p, w) && !OutputsFirst(SlotsOf(p))
    requires w.rows != [] && EndsDiffer(f, setup, w)
    requires Proved(f, setup, TellingOracle(f, setup, p, w, r, mask, log), p, w, r, log, mask, partial, proof)
    ensures !Accepts(f, setup, TellingOracle(f, setup, p, w, r, mask, log), p, proof, log)
  {
    hide *;
    var oracle, shared := TellingOracle(f, setup, p, w, r, mask, log), SharedLog(f, setup, p, w, r, mask, log);
    OracleTells(f, setup, p, w, r, mask, log);
    var instance := HonestRun(f, setup, oracle, p, w, r, mask, log, partial, proof);
    if Accepts(f, setup, oracle, p, proof, log) {
      OrderOf(f, p, w, proof);
      AcceptedInner(f, setup, oracle, p, instance, proof, VerifierOrder(f, p, w), log);
      SharedIs(f, setup, p, w, r, mask, log);
      var base := shared + VerifierOrder(f, p, w);
      Extends(base, base, [Label("bf_spartan")]);
      var spartan := base + [Label("bf_spartan")];
      ChecksLastRow(f, setup, oracle, p, instance, w.rows, w.blindings, OuterReplay(f, oracle, p, proof, spartan).point,
                    proof, spartan, base);
      EndsApart(f, setup, w);
    }
  }

  lemma EndsApart(f: Field, setup: Setup, w: BlindFoldWitness)
    requires w.rows != [] && |w.blindings| == |w.rows|
    requires (forall i :: 0 <= i < |w.rows| ==> |w.rows[i]| <= Capacity(setup))
    requires EndsDiffer(f, setup, w)
    ensures !Same(f, Commit(setup, w.rows[|w.rows| - 1], w.blindings[|w.rows| - 1]),
                  Commit(setup, w.rows[0], w.blindings[0]))
  {
  }

  lemma SharedIs(f: Field, setup: Setup, p: BlindFoldProtocol, w: BlindFoldWitness, r: Randomness, mask: Mask,
                 log: seq<Item>)
    requires Ready(setup, p, w, r, mask) && InstancesAssemble(p, CommitmentsOf(setup, p, w, r, mask))
    ensures SharedLog(f, setup, p, w, r, mask, log)
         == FoldLog(f, p, CommitmentsOf(setup, p, w, r, mask), log) + [Squeeze]
  {
  }

  /** What is left of an honest run when every challenge it sees is zero. */
  lemma HonestRun(f: Field, setup: Setup, oracle: Oracle, p: BlindFoldProtocol, w: BlindFoldWitness, r: Randomness,
                  mask: Mask, log: seq<Item>, partial: Proof, proof: Proof)
    returns (instance: RelaxedInstance)
    requires IsField(f) && Ready(setup, p, w, r, mask) && Honest(f, setup, p, w)
    requires ConstantFrom(oracle, SharedLog(f, setup, p, w, r, mask, log) + ProverOrder(f, p, w), 0)
    requires InstancesAssemble(p, CommitmentsOf(setup, p, w, r, mask))
    requires oracle(FoldLog(f, p, CommitmentsOf(setup, p, w, r, mask), log)) == 0
    requires Proved(f, setup, oracle, p, w, r, log, mask, partial, proof)
    ensures FoldedInstance(p, CommitmentsOf(setup, p, w, r, mask), 0) == Ok(instance)
    ensures WitnessShaped(p, w) && Grid(w.rows, p.dimensions.grid) && WellFormed(p) && ValidMatrices(p.r1cs)
    ensures 1 <= Capacity(setup)
    ensures |w.blindings| == |w.rows| && forall i :: 0 <= i < |w.rows| ==> |w.rows[i]| <= Capacity(setup)
    ensures Opens(f, setup, instance.rows, w.rows, w.blindings, p.dimensions.grid.rowLen)
    ensures w.rows != [] && proof.rowOpening == Opening(w.rows[0], w.blindings[0])
    ensures proof.commitments == CommitmentsOf(setup, p, w, r, mask)
    ensures proof.outputOpenings == OutputsOf(p, w) && proof.blindingOpenings == BlindingsOf(p, w)
  {
    hide Proved, ProofRun, SharedLog, ProverOrder, ConstantFrom;
    hide Commit, SlotsHold, Satisfies, ErrorsExact, PublicRowsOpen;
    var g, shared := FoldWitness(setup, p, w, r, mask, 0), SharedLog(f, setup, p, w, r, mask, log);
    RunAtZero(f, setup, oracle, p, w, r, mask, log, g, partial, proof);
    OpensFirstRow(f, oracle, p, g, shared + ProverOrder(f, p, w), partial, proof);
    HonestFolding(f, setup, p, w, r, mask, 0);
    instance := FoldedInstance(p, CommitmentsOf(setup, p, w, r, mask), 0).value;
    ProofRunAccepted(f, setup, oracle, p, instance, g, shared + ProverOrder(f, p, w), partial, proof);
  }

  lemma OrderOf(f: Field, p: BlindFoldProtocol, w: BlindFoldWitness, proof: Proof)
    requires WellFormed(p) && WitnessShaped(p, w) && proof.outputOpenings == OutputsOf(p, w)
    requires proof.blindingOpenings == BlindingsOf(p, w)
    ensures Count(SlotsOf(p), Output) == |proof.outputOpenings|
    ensures Count(SlotsOf(p), Blinding) == |proof.blindingOpenings|
    ensures VerifierOrder(f, p, w)
         == InSlotOrder(f, SlotsOf(p), Aligned(SlotsOf(p), proof.outputOpenings, proof.blindingOpenings))
  {
  }

  /** Completeness holds for every challenge function exactly when the outputs
      come first, for a witness whose grid's ends differ. */
  lemma AcceptedAlwaysIff(f: Field, setup: Setup, p: BlindFoldProtocol, w: BlindFoldWitness, r: Randomness, mask: Mask,
                          log: seq<Item>, partial: Proof, proof: Proof)
    requires IsField(f) && Ready(setup, p, w, r, mask) && Honest(f, setup, p, w)
    requires w.rows != [] && EndsDiffer(f, setup, w)
    requires Proved(f, setup, TellingOracle(f, setup, p, w, r, mask, log), p, w, r, log, mask, partial, proof)
    ensures (forall oracle, before, result ::
              Proved(f, setup, oracle, p, w, r, log, mask, before, result) ==>
                Accepts(f, setup, oracle, p, result, log))
        <==> OutputsFirst(SlotsOf(p))
  {
    if OutputsFirst(SlotsOf(p)) {
      forall oracle, before, result | Proved(f, setup, oracle, p, w, r, log, mask, before, result)
        ensures Accepts(f, setup, oracle, p, result, log)
      {
        Completeness(f, setup, oracle, p, w, r, log, mask, before, result);
      }
    } else {
      HonestProofRejected(f, setup, p, w, r, mask, log, partial, proof);
    }
  }

  /** When every final opening has its two variables, the outputs come first
      exactly for at most one opening. */
  lemma AtMostOneOpening(p: BlindFoldProtocol)
    requires WellFormed(p) && forall i :: 0 <= i < |p.finalOpenings| ==>
      p.finalOpenings[i].evaluation.Some? && p.finalOpenings[i].blinding.Some?
    ensures OutputsFirst(SlotsOf(p)) <==> |p.finalOpenings| <= 1
  {
    CoordinatesAllocated(p.dimensions, p.finalOpenings);
    AllocatedOrder(FinalOpeningCoordinates(p.dimensions, p.finalOpenings).value);
  }

  lemma {:induction false} CoordinatesAllocated(d: Dimensions, openings: seq<FinalOpening>)
    requires FinalOpeningCoordinates(d, openings).Ok?
    requires forall i :: 0 <= i < |openings| ==> openings[i].evaluation.Some? && openings[i].blinding.Some?
    ensures var c := FinalOpeningCoordinates(d, openings).value;
      forall i :: 0 <= i < |c| ==> c[i].evaluation.Some? && c[i].blinding.Some?
  {
    if openings != [] {
      CoordinatesAllocated(d, openings[1..]);
    }
  }

  // The prepared mask is the only one.

  lemma MaskUnique(p: BlindFoldProtocol, r: Randomness, a: Mask, b: Mask)
    requires WellFormed(p) && RandomnessShaped(p, r) && MaskPrepared(p, r, a) && MaskPrepared(p, r, b)
    ensures a == b
  {
    var slots, d := SlotsOf(p), p.dimensions;
    forall i | 0 <= i < d.grid.rowCount ensures a.rows[i] == b.rows[i] && a.blindings[i] == b.blindings[i] {
      if i < d.rows.padding.start && IsSlotRow(slots, i) {
        var k :| 0 <= k < |slots| && slots[k].at.row == i;
      }
    }
  }

  /** A prover run whose honest proof the verifier does not accept. */
  method HonestRunRejected(f: Field, setup: Setup, p: BlindFoldProtocol, w: BlindFoldWitness, r: Randomness)
    returns (t: Transcript, result: Result<Proof, ProverError>)
    requires IsField(f) && NodesDistinct(f, 4) && WellFormed(p) && RandomnessShaped(p, r) && Honest(f, setup, p, w)
    requires SplitDims(p.dimensions.error) && SplitDims(p.dimensions.grid) && !OutputsFirst(SlotsOf(p))
    requires w.rows != [] && EndsDiffer(f, setup, w)
    ensures result.Ok? && !Accepts(f, setup, t.oracle, p, result.value, [])
  {
    var mask := PrepareMask(p, r);
    GridFlatSize(mask.rows, p.dimensions.grid);
    t := new Transcript(TellingOracle(f, setup, p, w, r, mask, []));
    result := Prove(f, setup, p, w, r, t);
    ghost var other, partial :| Proved(f, setup, t.oracle, p, w, r, [], other, partial, result.value);
    MaskUnique(p, r, mask, other);
    HonestProofRejected(f, setup, p, w, r, mask, [], partial, result.value);
  }

  // Such a protocol and witness exist.

  const ONE_KEY := Setup([1], 0)

  /** Two final openings, each with its evaluation and its blinding alone in a
      row of length one, and no constraint. */
  const TWO_OPENINGS := BlindFoldProtocol(
    [], [], ConstraintMatrices(1, [], [], []),
    Dimensions(RowDimensions(1, 4), RowDimensions(1, 2),
               WitnessRowLayout(Range(0, 0), Range(0, 0), Range(0, 4), Range(4, 4)), 0, 0, 4),
    [FinalOpening(Some(1), Some(2)), FinalOpening(Some(3), Some(4))], [1, 0])

  /** The first opening evaluates to one, the second to zero. */
  const ONE_AND_ZERO := BlindFoldWitness([[1], [0], [0], [0]], [0, 0, 0, 0], [1, 0], [0, 0])

  const NOTHING_DRAWN := Randomness(0, [[0], [0], [0], [0]], [0, 0, 0, 0], [0, 0], [0, 0], [0, 0], [0, 0])

  lemma TwoOpeningsCoordinates()
    ensures FinalOpeningCoordinates(TWO_OPENINGS.dimensions, TWO_OPENINGS.finalOpenings) == Ok([
      FinalCoordinates(Some(Coordinate(0, 0)), Some(Coordinate(1, 0))),
      FinalCoordinates(Some(Coordinate(2, 0)), Some(Coordinate(3, 0)))])
  {
    var d, second := TWO_OPENINGS.dimensions, [FinalOpening(Some(3), Some(4))];
    assert TWO_OPENINGS.finalOpenings == [FinalOpening(Some(1), Some(2))] + second && second + [] == second;
    AtRow(d, 0);
    AtRow(d, 1);
    AtRow(d, 2);
    AtRow(d, 3);
    var a, b := FinalCoordinates(Some(Coordinate(0, 0)), Some(Coordinate(1, 0))),
                FinalCoordinates(Some(Coordinate(2, 0)), Some(Coordinate(3, 0)));
    assert [b] + [] == [b] && [a] + [b] == [a, b];
    CoordinatesCons(d, 3, 4, []);
    assert FinalOpeningCoordinates(d, second) == Ok([b]);
    CoordinatesCons(d, 1, 2, second);
  }

  lemma AtRow(d: Dimensions, row: nat)
    requires d.grid.rowLen == 1 && row < d.grid.rowCount
    ensures WitnessCoordinate(d, row + 1) == Ok(Coordinate(row, 0))
  {
  }

  lemma CoordinatesCons(d: Dimensions, e: nat, b: nat, rest: seq<FinalOpening>)
    requires WitnessCoordinate(d, e).Ok? && WitnessCoordinate(d, b).Ok? && FinalOpeningCoordinates(d, rest).Ok?
    ensures FinalOpeningCoordinates(d, [FinalOpening(Some(e), Some(b))] + rest)
         == Ok([FinalCoordinates(Some(WitnessCoordinate(d, e).value), Some(WitnessCoordinate(d, b).value))]
               + FinalOpeningCoordinates(d, rest).value)
  {
    assert ([FinalOpening(Some(e), Some(b))] + rest)[1..] == rest;
  }

  lemma TwoOpeningsSlots()
    ensures FinalOpeningCoordinates(TWO_OPENINGS.dimensions, TWO_OPENINGS.finalOpenings).Ok?
    ensures SlotsOf(TWO_OPENINGS) == [
      Slot(Output, 0, Coordinate(0, 0)), Slot(Blinding, 0, Coordinate(1, 0)),
      Slot(Output, 1, Coordinate(2, 0)), Slot(Blinding, 1, Coordinate(3, 0))]
  {
    TwoOpeningsCoordinates();
    var first, second := FinalCoordinates(Some(Coordinate(0, 0)), Some(Coordinate(1, 0))),
                         FinalCoordinates(Some(Coordinate(2, 0)), Some(Coordinate(3, 0)));
    assert [first] + [second] == [first, second] && [second] + [] == [second];
    SlotsCons(Coordinate(0, 0), Coordinate(1, 0), [second], 0);
    SlotsCons(Coordinate(2, 0), Coordinate(3, 0), [], 1);
  }

  lemma SlotsCons(a: Coordinate, b: Coordinate, rest: seq<FinalCoordinates>, first: nat)
    ensures Slots([FinalCoordinates(Some(a), Some(b))] + rest, first)
         == [Slot(Output, first, a), Slot(Blinding, first, b)] + Slots(rest, first + 1)
  {
    assert ([FinalCoordinates(Some(a), Some(b))] + rest)[1..] == rest;
  }

  lemma TwoOpeningsWellFormed()
    ensures WellFormed(TWO_OPENINGS) && SplitDims(TWO_OPENINGS.dimensions.error)
    ensures SplitDims(TWO_OPENINGS.dimensions.grid)
    ensures !OutputsFirst(SlotsOf(TWO_OPENINGS)) && RandomnessShaped(TWO_OPENINGS, NOTHING_DRAWN)
  {
    TwoOpeningsSlots();
    SmallPowers();
    var slots := SlotsOf(TWO_OPENINGS);
    assert slots[1].kind == Blinding && slots[2].kind == Output;
  }

  lemma SmallPowers()
    ensures IsPow2(1) && IsPow2(2) && IsPow2(4) && Log2(1) == 0 && Log2(2) == 1 && Log2(4) == 2
  {
    assert IsPow2(1) && IsPow2(2);
    assert Log2(2) == 1;
  }

  lemma OneCommits(x: int)
    ensures Commit(ONE_KEY, [x], 0) == x
  {
    assert Dot([], []) == 0 && ONE_KEY.generators[..1] == [1] && [1][1..] == [] && [x][1..] == [];
    assert Dot([x], [1]) == x * 1 + Dot([], []);
  }

  lemma OneAndZeroHonest(f: Field)
    requires IsField(f)
    ensures WellFormed(TWO_OPENINGS) && Honest(f, ONE_KEY, TWO_OPENINGS, ONE_AND_ZERO)
    ensures EndsDiffer(f, ONE_KEY, ONE_AND_ZERO)
  {
    TwoOpeningsWellFormed();
    OneAndZeroRows(f);
    OneAndZeroSlots(f);
    GridFlatSize(ONE_AND_ZERO.rows, TWO_OPENINGS.dimensions.grid);
    hide SlotsHold, PublicRowsOpen, EvalCommitmentsOpen, FlatSize, WellFormed;
  }

  lemma OneAndZeroRows(f: Field)
    requires WellFormed(TWO_OPENINGS)
    ensures WitnessShaped(TWO_OPENINGS, ONE_AND_ZERO) && FitsSetup(TWO_OPENINGS, ONE_KEY)
    ensures PublicRowsOpen(f, ONE_KEY, TWO_OPENINGS, ONE_AND_ZERO)
    ensures EvalCommitmentsOpen(f, ONE_KEY, TWO_OPENINGS.evalCommitments, ONE_AND_ZERO.evalOutputs,
                                ONE_AND_ZERO.evalBlindings)
    ensures IsField(f) ==> EndsDiffer(f, ONE_KEY, ONE_AND_ZERO)
  {
    hide WellFormed;
    OneCommits(0);
    OneCommits(1);
  }

  lemma OneAndZeroSlots(f: Field)
    requires FinalOpeningCoordinates(TWO_OPENINGS.dimensions, TWO_OPENINGS.finalOpenings).Ok?
    ensures SlotsHold(f, SlotsOf(TWO_OPENINGS), ONE_AND_ZERO.rows, ONE_AND_ZERO.evalOutputs, ONE_AND_ZERO.evalBlindings)
  {
    TwoOpeningsSlots();
  }

  /** For every field an honest proof of this protocol is made and rejected. */
  method TwoOpeningsRejected(f: Field) returns (t: Transcript, result: Result<Proof, ProverError>)
    requires IsField(f) && NodesDistinct(f, 4)
    ensures WellFormed(TWO_OPENINGS) && Honest(f, ONE_KEY, TWO_OPENINGS, ONE_AND_ZERO)
    ensures result.Ok? && !Accepts(f, ONE_KEY, t.oracle, TWO_OPENINGS, result.value, [])
  {
    TwoOpeningsWellFormed();
    OneAndZeroHonest(f);
    t, result := HonestRunRejected(f, ONE_KEY, TWO_OPENINGS, ONE_AND_ZERO, NOTHING_DRAWN);
  }
}
