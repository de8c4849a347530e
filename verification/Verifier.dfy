/** The folded-R1CS verifier. */
module Verifier {
  import opened Results
  import opened Fields
  import opened Vectors
  import opened Multilinear
  import opened Matrices
  import opened EqTables
  import opened R1cs
  import opened RowCommitment
  import opened Dense
  import opened Compressed
  import opened Transcripts
  import opened Sumcheck
  import opened Protocol

  datatype Proof = Proof(
    commitments: Commitments,
    outerRounds: seq<seq<int>>, az: int, bz: int, cz: int, innerRounds: seq<seq<int>>,
    rowOpening: Opening, errorOpening: Opening,
    evalOutputs: seq<int>, evalBlindings: seq<int>,
    outputOpenings: seq<Opening>, blindingOpenings: seq<Opening>)

  // Final openings: the slots of the witness grid that are opened on their own.

  datatype Kind = Output | Blinding

  datatype Slot = Slot(kind: Kind, index: nat, at: Coordinate)

  /** The allocated coordinates in the verifier's order: evaluation, then
      blinding, opening after opening; `first` is the index of the head. */
  function Slots(coordinates: seq<FinalCoordinates>, first: nat): seq<Slot> {
    if coordinates == [] then []
    else
      var c := coordinates[0];
      (if c.evaluation.Some? then [Slot(Output, first, c.evaluation.value)] else [])
      + (if c.blinding.Some? then [Slot(Blinding, first, c.blinding.value)] else [])
      + Slots(coordinates[1..], first + 1)
  }

  function Count(slots: seq<Slot>, kind: Kind): nat {
    if slots == [] then 0 else (if slots[0].kind == kind then 1 else 0) + Count(slots[1..], kind)
  }

  /** The openings handed out slot by slot, each from its own kind's list. */
  function Aligned(slots: seq<Slot>, outputs: seq<Opening>, blindings: seq<Opening>): (ops: seq<Opening>)
    requires Count(slots, Output) == |outputs| && Count(slots, Blinding) == |blindings|
    ensures |ops| == |slots|
  {
    if slots == [] then []
    else if slots[0].kind == Output then [outputs[0]] + Aligned(slots[1..], outputs[1..], blindings)
    else [blindings[0]] + Aligned(slots[1..], outputs, blindings[1..])
  }

  function OpeningItems(f: Field, rowName: string, blindingName: string, opening: Opening): seq<Item> {
    ScalarItems(f, rowName, opening.combinedVector) + [Label(blindingName), Scalar(f.red(opening.combinedBlinding))]
  }

  function SlotItems(f: Field, kind: Kind, opening: Opening): (items: seq<Item>)
    ensures items != [] && items[0] ==
      LabelWithCount(if kind == Output then "bf_eval_out_open" else "bf_eval_blind_open", |opening.combinedVector|)
  {
    if kind == Output then OpeningItems(f, "bf_eval_out_open", "bf_eval_out_blind", opening)
    else OpeningItems(f, "bf_eval_blind_open", "bf_eval_blind_bl", opening)
  }

  /** What the verifier absorbs: the openings in slot order. */
  function InSlotOrder(f: Field, slots: seq<Slot>, ops: seq<Opening>): seq<Item>
    requires |slots| == |ops|
  {
    if slots == [] then [] else SlotItems(f, slots[0].kind, ops[0]) + InSlotOrder(f, slots[1..], ops[1..])
  }

  // Verification, phase by phase.

  function InstanceItems(f: Field, uName: string, rowName: string, errorName: string, evalName: string,
                         i: RelaxedInstance): seq<Item> {
    [Label(uName), Scalar(f.red(i.u))] + ElementItems(f, rowName, i.rows)
    + ElementItems(f, errorName, i.errors) + ElementItems(f, evalName, i.evals)
  }

  ghost predicate InstancesAssemble(p: BlindFoldProtocol, c: Commitments) {
    && CommittedInstance(p, c.auxiliary).Ok? && RandomInstance(p, c).Ok?
    && |c.crossErrors| == p.dimensions.error.rowCount
  }

  /** The transcript when the folding challenge is drawn. */
  function FoldLog(f: Field, p: BlindFoldProtocol, c: Commitments, log: seq<Item>): seq<Item>
    requires InstancesAssemble(p, c)
  {
    log
    + InstanceItems(f, "bf_committed_u", "bf_committed_w", "bf_committed_e", "bf_committed_eval",
                    CommittedInstance(p, c.auxiliary).value)
    + InstanceItems(f, "bf_random_u", "bf_random_w", "bf_random_e", "bf_random_eval", RandomInstance(p, c).value)
    + ElementItems(f, "bf_cross_e", c.crossErrors)
  }

  function FoldedInstance(p: BlindFoldProtocol, c: Commitments, r: int): Result<RelaxedInstance, RelaxedError>
    requires InstancesAssemble(p, c)
  {
    FoldInstance(CommittedInstance(p, c.auxiliary).value, RandomInstance(p, c).value, c.crossErrors, r)
  }

  /** `verify_folded_eval_commitments`. */
  ghost predicate EvalCommitmentsOpen(f: Field, setup: Setup, commitments: seq<int>, outputs: seq<int>,
                                      blindings: seq<int>)
    requires 1 <= Capacity(setup)
  {
    && |commitments| == |outputs| == |blindings|
    && forall i :: 0 <= i < |commitments| ==> VerifyCommitment(f, setup, commitments[i], [outputs[i]], blindings[i])
  }

  /** Commitment `i` is the first that does not open. */
  ghost predicate FirstUnopened(f: Field, setup: Setup, commitments: seq<int>, outputs: seq<int>, blindings: seq<int>,
                                i: nat)
    requires 1 <= Capacity(setup) && i < |commitments| == |outputs| == |blindings|
  {
    && !VerifyCommitment(f, setup, commitments[i], [outputs[i]], blindings[i])
    && forall k :: 0 <= k < i ==> VerifyCommitment(f, setup, commitments[k], [outputs[k]], blindings[k])
  }

  /** `WitnessCoordinate::verify_opening`. */
  function VerifiedSlot(f: Field, setup: Setup, commitments: seq<int>, at: Coordinate, opening: Opening): Option<int> {
    hide BooleanPoint, Bits, Commit;
    var count, len := |commitments|, |opening.combinedVector|;
    if !IsPow2(count) || !IsPow2(len) || count <= at.row || len <= at.column then None
    else
      IsPow2Log(count);
      IsPow2Log(len);
      match VerifiedRows(f, setup, commitments, Bits(at.row, Log2(count)), Bits(at.column, Log2(len)), opening)
      case Ok(value) => Some(value)
      case Err(_) => None
  }

  /** `require_dedicated_row`: nothing else in the opened row. */
  ghost predicate DedicatedRow(f: Field, column: nat, row: seq<int>) {
    forall k :: 0 <= k < |row| && k != column ==> Same(f, row[k], 0)
  }

  function SlotValue(slot: Slot, outputs: seq<int>, blindings: seq<int>): int
    requires slot.index < |outputs| && slot.index < |blindings|
  {
    if slot.kind == Output then outputs[slot.index] else blindings[slot.index]
  }

  ghost predicate SlotsWithin(slots: seq<Slot>, n: nat) {
    forall k :: 0 <= k < |slots| ==> slots[k].index < n
  }

  ghost predicate SlotAccepted(f: Field, setup: Setup, commitments: seq<int>, slot: Slot, opening: Opening,
                               expected: int) {
    && VerifiedSlot(f, setup, commitments, slot.at, opening).Some?
    && Same(f, VerifiedSlot(f, setup, commitments, slot.at, opening).value, expected)
    && DedicatedRow(f, slot.at.column, opening.combinedVector)
  }

  /** `verify_folded_eval_witness_bindings`. */
  ghost predicate BindingsAccepted(f: Field, setup: Setup, commitments: seq<int>, slots: seq<Slot>, proof: Proof) {
    && Count(slots, Output) == |proof.outputOpenings| && Count(slots, Blinding) == |proof.blindingOpenings|
    && SlotsWithin(slots, |proof.evalOutputs|) && SlotsWithin(slots, |proof.evalBlindings|)
    && var ops := Aligned(slots, proof.outputOpenings, proof.blindingOpenings);
       forall k :: 0 <= k < |slots| ==>
         SlotAccepted(f, setup, commitments, slots[k], ops[k],
                      SlotValue(slots[k], proof.evalOutputs, proof.evalBlindings))
  }

  /** Slot `k` is the first whose opening is not accepted. */
  ghost predicate FirstRejected(f: Field, setup: Setup, commitments: seq<int>, slots: seq<Slot>, proof: Proof, k: nat)
    requires Count(slots, Output) == |proof.outputOpenings| && Count(slots, Blinding) == |proof.blindingOpenings|
    requires SlotsWithin(slots, |proof.evalOutputs|) && SlotsWithin(slots, |proof.evalBlindings|) && k < |slots|
  {
    var ops := Aligned(slots, proof.outputOpenings, proof.blindingOpenings);
    && !SlotAccepted(f, setup, commitments, slots[k], ops[k],
                     SlotValue(slots[k], proof.evalOutputs, proof.evalBlindings))
    && forall j :: 0 <= j < k ==> SlotAccepted(f, setup, commitments, slots[j], ops[j],
                                               SlotValue(slots[j], proof.evalOutputs, proof.evalBlindings))
  }

  /** The number of variables of a grid: row variables first, then entry variables. */
  function GridVars(d: RowDimensions): nat {
    Log2(d.rowCount) + Log2(d.rowLen)
  }

  ghost predicate SplitDims(d: RowDimensions) {
    IsPow2(d.rowCount) && IsPow2(d.rowLen) && 0 < GridVars(d)
  }

  function OuterTau(oracle: Oracle, p: BlindFoldProtocol, log: seq<Item>): seq<int> {
    Challenges(oracle, log, GridVars(p.dimensions.error))
  }

  function OuterReplay(f: Field, oracle: Oracle, p: BlindFoldProtocol, proof: Proof, log: seq<Item>): (r: Replay)
    requires AcceptableRounds(proof.outerRounds, GridVars(p.dimensions.error), 3)
    ensures |r.point| == GridVars(p.dimensions.error)
  {
    ReplayRounds(f, oracle, OUTER_LABEL, proof.outerRounds, 0, Squeezed(log, GridVars(p.dimensions.error)))
  }

  /** The error rows' opening verifies at the outer point. */
  ghost predicate OuterOpens(f: Field, setup: Setup, oracle: Oracle, p: BlindFoldProtocol, folded: RelaxedInstance,
                             proof: Proof, log: seq<Item>)
    requires SplitDims(p.dimensions.error)
    requires AcceptableRounds(proof.outerRounds, GridVars(p.dimensions.error), 3)
  {
    var point, k := OuterReplay(f, oracle, p, proof, log).point, Log2(p.dimensions.error.rowCount);
    VerifiedRows(f, setup, folded.errors, point[..k], point[k..], proof.errorOpening).Ok?
  }

  /** `verify_outer_folded_r1cs`, the transcript standing after `bf_spartan`. */
  ghost predicate OuterAccepted(f: Field, setup: Setup, oracle: Oracle, p: BlindFoldProtocol, folded: RelaxedInstance,
                                proof: Proof, log: seq<Item>) {
    var d := p.dimensions.error;
    && SplitDims(d) && AcceptableRounds(proof.outerRounds, GridVars(d), 3)
    && var tau, replay := OuterTau(oracle, p, log), OuterReplay(f, oracle, p, proof, log);
    var rowVars := Log2(d.rowCount);
    var e := VerifiedRows(f, setup, folded.errors, replay.point[..rowVars], replay.point[rowVars..],
                          proof.errorOpening);
    && e.Ok?
    && Same(f, replay.value, OuterTerm(folded.u, EqMle(tau, replay.point), proof.az, proof.bz, proof.cz, e.value))
  }

  function OuterLogAfter(f: Field, oracle: Oracle, p: BlindFoldProtocol, proof: Proof, log: seq<Item>): seq<Item>
    requires AcceptableRounds(proof.outerRounds, GridVars(p.dimensions.error), 3)
  {
    OuterReplay(f, oracle, p, proof, log).log + ScalarItems(f, "bf_az_bz_cz", [proof.az, proof.bz, proof.cz])
    + OpeningItems(f, "bf_error_opening", "bf_error_blind", proof.errorOpening)
  }

  /** The public column's share of the three matrices at the outer point. */
  function PublicShare(rows: seq<SparseRow>, rx: seq<int>, u: int): int
    requires |rows| <= Pow2(|rx|)
  {
    Dot(EqTable(rx)[..|rows|], Columns(rows, 0)) * u
  }

  /** A claimed product without its public share. */
  function PrivateClaim(rows: seq<SparseRow>, rx: seq<int>, u: int, claimed: int): int
    requires |rows| <= Pow2(|rx|)
  {
    claimed - PublicShare(rows, rx, u)
  }

  function InnerClaimOf(m: ConstraintMatrices, rx: seq<int>, u: int, proof: Proof, abc: seq<int>): int
    requires ValidMatrices(m) && |m.a| <= Pow2(|rx|) && |abc| == 3
  {
    Weighted(abc[0], abc[1], abc[2], PrivateClaim(m.a, rx, u, proof.az), PrivateClaim(m.b, rx, u, proof.bz),
             PrivateClaim(m.c, rx, u, proof.cz))
  }

  /** The column form of the matrices at the inner point. */
  function FormAt(m: ConstraintMatrices, rx: seq<int>, ry: seq<int>, abc: seq<int>): int
    requires ValidMatrices(m) && |m.a| <= Pow2(|rx|) && |abc| == 3
  {
    var w := EqTable(rx)[..|m.a|];
    Weighted(abc[0], abc[1], abc[2], Dot(w, Tails(m.a, 1, EqTable(ry))), Dot(w, Tails(m.b, 1, EqTable(ry))),
             Dot(w, Tails(m.c, 1, EqTable(ry))))
  }

  function InnerReplay(f: Field, oracle: Oracle, p: BlindFoldProtocol, u: int, rx: seq<int>, proof: Proof,
                       log: seq<Item>): (r: Replay)
    requires ValidMatrices(p.r1cs) && |p.r1cs.a| <= Pow2(|rx|)
    requires AcceptableRounds(proof.innerRounds, GridVars(p.dimensions.grid), 2)
    ensures |r.point| == GridVars(p.dimensions.grid)
  {
    var abc := Challenges(oracle, log, 3);
    ReplayRounds(f, oracle, INNER_LABEL, proof.innerRounds, InnerClaimOf(p.r1cs, rx, u, proof, abc), Squeezed(log, 3))
  }

  /** The witness rows' opening verifies at the inner point. */
  ghost predicate InnerOpens(f: Field, setup: Setup, oracle: Oracle, p: BlindFoldProtocol, folded: RelaxedInstance,
                             rx: seq<int>, proof: Proof, log: seq<Item>)
    requires ValidMatrices(p.r1cs) && |p.r1cs.a| <= Pow2(|rx|) && SplitDims(p.dimensions.grid)
    requires AcceptableRounds(proof.innerRounds, GridVars(p.dimensions.grid), 2)
  {
    var point, k := InnerReplay(f, oracle, p, folded.u, rx, proof, log).point, Log2(p.dimensions.grid.rowCount);
    VerifiedRows(f, setup, folded.rows, point[..k], point[k..], proof.rowOpening).Ok?
  }

  /** `verify_inner_folded_r1cs`. */
  ghost predicate InnerAccepted(f: Field, setup: Setup, oracle: Oracle, p: BlindFoldProtocol, folded: RelaxedInstance,
                                rx: seq<int>, proof: Proof, log: seq<Item>)
    requires ValidMatrices(p.r1cs)
  {
    var d := p.dimensions.grid;
    && |p.r1cs.a| <= Pow2(|rx|) && SplitDims(d) && AcceptableRounds(proof.innerRounds, GridVars(d), 2)
    && var replay := InnerReplay(f, oracle, p, folded.u, rx, proof, log);
    var rowVars := Log2(d.rowCount);
    var w := VerifiedRows(f, setup, folded.rows, replay.point[..rowVars], replay.point[rowVars..], proof.rowOpening);
    && w.Ok?
    && Same(f, replay.value, FormAt(p.r1cs, rx, replay.point, Challenges(oracle, log, 3)) * w.value)
  }

  /** The slots of a protocol whose final openings have coordinates. */
  function SlotsOf(p: BlindFoldProtocol): (slots: seq<Slot>)
    requires FinalOpeningCoordinates(p.dimensions, p.finalOpenings).Ok?
    ensures SlotsWithin(slots, |p.finalOpenings|)
  {
    SlotIndices(FinalOpeningCoordinates(p.dimensions, p.finalOpenings).value, 0);
    Slots(FinalOpeningCoordinates(p.dimensions, p.finalOpenings).value, 0)
  }

  /** The transcript when the outer sumcheck starts. */
  function SpartanLog(f: Field, p: BlindFoldProtocol, slots: seq<Slot>, proof: Proof, log: seq<Item>): seq<Item>
    requires InstancesAssemble(p, proof.commitments)
    requires Count(slots, Output) == |proof.outputOpenings| && Count(slots, Blinding) == |proof.blindingOpenings|
  {
    FoldLog(f, p, proof.commitments, log) + [Squeeze]
    + InSlotOrder(f, slots, Aligned(slots, proof.outputOpenings, proof.blindingOpenings)) + [Label("bf_spartan")]
  }

  /** Everything checked before the sumchecks. */
  ghost predicate HeadAccepted(f: Field, setup: Setup, oracle: Oracle, p: BlindFoldProtocol, proof: Proof,
                               log: seq<Item>)
    requires 1 <= Capacity(setup)
  {
    && InstancesAssemble(p, proof.commitments)
    && var instance := FoldedInstance(p, proof.commitments, oracle(FoldLog(f, p, proof.commitments, log)));
    && instance.Ok? && EvalCommitmentsOpen(f, setup, instance.value.evals, proof.evalOutputs, proof.evalBlindings)
    && FinalOpeningCoordinates(p.dimensions, p.finalOpenings).Ok?
    && |p.finalOpenings| == |instance.value.evals|
    && BindingsAccepted(f, setup, instance.value.rows, SlotsOf(p), proof)
  }

  /** Everything `verify` checks. */
  ghost predicate Accepts(f: Field, setup: Setup, oracle: Oracle, p: BlindFoldProtocol, proof: Proof, log: seq<Item>)
    requires ValidMatrices(p.r1cs) && 1 <= Capacity(setup)
  {
    && HeadAccepted(f, setup, oracle, p, proof, log)
    && var instance := FoldedInstance(p, proof.commitments, oracle(FoldLog(f, p, proof.commitments, log))).value;
    && var spartan := SpartanLog(f, p, SlotsOf(p), proof, log);
    && OuterAccepted(f, setup, oracle, p, instance, proof, spartan)
    && InnerAccepted(f, setup, oracle, p, instance, OuterReplay(f, oracle, p, proof, spartan).point, proof,
                     OuterLogAfter(f, oracle, p, proof, spartan))
  }

  /** The transcript when the inner sumcheck has been replayed. */
  function InnerLogAfter(f: Field, oracle: Oracle, p: BlindFoldProtocol, u: int, proof: Proof,
                         log: seq<Item>): seq<Item>
    requires ValidMatrices(p.r1cs) && |p.r1cs.a| <= Pow2(GridVars(p.dimensions.error))
    requires AcceptableRounds(proof.outerRounds, GridVars(p.dimensions.error), 3)
    requires AcceptableRounds(proof.innerRounds, GridVars(p.dimensions.grid), 2)
  {
    InnerReplay(f, oracle, p, u, OuterReplay(f, oracle, p, proof, log).point, proof,
                OuterLogAfter(f, oracle, p, proof, log)).log
  }

  function WitnessItems(f: Field, proof: Proof): seq<Item> {
    OpeningItems(f, "bf_witness_opening", "bf_witness_blind", proof.rowOpening)
  }

  /** The transcript an accepted proof leaves: the opened witness row is absorbed last. */
  function AcceptedLog(f: Field, setup: Setup, oracle: Oracle, p: BlindFoldProtocol, proof: Proof,
                       log: seq<Item>): seq<Item>
    requires ValidMatrices(p.r1cs) && 1 <= Capacity(setup) && Accepts(f, setup, oracle, p, proof, log)
  {
    var instance := FoldedInstance(p, proof.commitments, oracle(FoldLog(f, p, proof.commitments, log))).value;
    InnerLogAfter(f, oracle, p, instance.u, proof, SpartanLog(f, p, SlotsOf(p), proof, log)) + WitnessItems(f, proof)
  }

  /** An accepted proof has the verifier's shape, and this is the log it leaves. */
  lemma AcceptedLogIs(f: Field, setup: Setup, oracle: Oracle, p: BlindFoldProtocol, proof: Proof, log: seq<Item>)
    requires ValidMatrices(p.r1cs) && 1 <= Capacity(setup) && Accepts(f, setup, oracle, p, proof, log)
    ensures InstancesAssemble(p, proof.commitments) && FinalOpeningCoordinates(p.dimensions, p.finalOpenings).Ok?
    ensures FoldedInstance(p, proof.commitments, oracle(FoldLog(f, p, proof.commitments, log))).Ok?
    ensures Count(SlotsOf(p), Output) == |proof.outputOpenings|
    ensures Count(SlotsOf(p), Blinding) == |proof.blindingOpenings|
    ensures |p.r1cs.a| <= Pow2(GridVars(p.dimensions.error))
    ensures AcceptableRounds(proof.outerRounds, GridVars(p.dimensions.error), 3)
    ensures AcceptableRounds(proof.innerRounds, GridVars(p.dimensions.grid), 2)
    ensures var u := FoldedInstance(p, proof.commitments, oracle(FoldLog(f, p, proof.commitments, log))).value.u;
      AcceptedLog(f, setup, oracle, p, proof, log)
        == InnerLogAfter(f, oracle, p, u, proof, SpartanLog(f, p, SlotsOf(p), proof, log)) + WitnessItems(f, proof)
  {
  }

  // The verifier as it runs.

  datatype VerificationError =
    | Relaxed(RelaxedError)
    | EvalCommitmentMismatch(index: nat)
    | EvalBindingMismatch(index: nat)
    | InvalidDimensions
    | OuterSumcheck(SumcheckError)
    | InnerSumcheck(SumcheckError)
    | RowOpeningRejected(OpeningError)
    | OuterFinalClaimMismatch
    | InnerFinalClaimMismatch

  /** `folded_instance_from_proof`. */
  method FoldedInstanceFromProof(f: Field, p: BlindFoldProtocol, c: Commitments, t: Transcript)
    returns (r: Result<RelaxedInstance, VerificationError>)
    modifies t
    ensures r.Ok? <==> InstancesAssemble(p, c) && FoldedInstance(p, c, t.oracle(FoldLog(f, p, c, old(t.log)))).Ok?
    ensures r.Ok? ==> r.value == FoldedInstance(p, c, t.oracle(FoldLog(f, p, c, old(t.log)))).value
    ensures r.Ok? ==> t.log == FoldLog(f, p, c, old(t.log)) + [Squeeze]
    ensures r.Err? ==> r.error.Relaxed?
  {
    var committed := CommittedInstance(p, c.auxiliary);
    if committed.Err? {
      return Err(Relaxed(committed.error));
    }
    t.Append(InstanceItems(f, "bf_committed_u", "bf_committed_w", "bf_committed_e", "bf_committed_eval",
                           committed.value));
    var random := RandomInstance(p, c);
    if random.Err? {
      return Err(Relaxed(random.error));
    }
    t.Append(InstanceItems(f, "bf_random_u", "bf_random_w", "bf_random_e", "bf_random_eval", random.value));
    if |c.crossErrors| != p.dimensions.error.rowCount {
      return Err(Relaxed(LengthMismatch(p.dimensions.error.rowCount, |c.crossErrors|)));
    }
    t.Append(ElementItems(f, "bf_cross_e", c.crossErrors));
    var challenge := t.Challenge();
    var folded := FoldInstance(committed.value, random.value, c.crossErrors, challenge);
    if folded.Err? {
      return Err(Relaxed(folded.error));
    }
    r := Ok(folded.value);
  }

  method VerifyEvalCommitments(f: Field, setup: Setup, commitments: seq<int>, outputs: seq<int>, blindings: seq<int>)
    returns (bad: Option<VerificationError>)
    requires 1 <= Capacity(setup)
    ensures bad.None? <==> EvalCommitmentsOpen(f, setup, commitments, outputs, blindings)
    ensures bad.Some? && bad.value.Relaxed? <==> !(|commitments| == |outputs| == |blindings|)
    ensures bad.Some? && !bad.value.Relaxed? ==> (
      && bad.value.EvalCommitmentMismatch? && bad.value.index < |commitments| == |outputs| == |blindings|
      && FirstUnopened(f, setup, commitments, outputs, blindings, bad.value.index))
  {
    if |commitments| != |outputs| {
      return Some(Relaxed(LengthMismatch(|commitments|, |outputs|)));
    }
    if |commitments| != |blindings| {
      return Some(Relaxed(LengthMismatch(|commitments|, |blindings|)));
    }
    for i := 0 to |commitments|
      invariant forall k :: 0 <= k < i ==> VerifyCommitment(f, setup, commitments[k], [outputs[k]], blindings[k])
    {
      if !VerifyCommitment(f, setup, commitments[i], [outputs[i]], blindings[i]) {
        return Some(EvalCommitmentMismatch(i));
      }
    }
    bad := None;
  }

  /** The checks on one opened slot. */
  method VerifySlot(f: Field, setup: Setup, commitments: seq<int>, slot: Slot, opening: Opening, expected: int)
    returns (ok: bool)
    ensures ok <==> SlotAccepted(f, setup, commitments, slot, opening, expected)
  {
    hide BooleanPoint, Bits, Commit;
    var count, len := |commitments|, |opening.combinedVector|;
    if !IsPow2(count) || !IsPow2(len) || count <= slot.at.row || len <= slot.at.column {
      return false;
    }
    IsPow2Log(count);
    IsPow2Log(len);
    var rowPoint, entryPoint := BooleanPoint(slot.at.row, Log2(count)), BooleanPoint(slot.at.column, Log2(len));
    BooleanPointIsBits(slot.at.row, Log2(count));
    BooleanPointIsBits(slot.at.column, Log2(len));
    var value := VerifyCommittedRows(f, setup, commitments, rowPoint, entryPoint, opening);
    if value.Err? || !Same(f, value.value, expected) {
      return false;
    }
    for k := 0 to len
      invariant forall j :: 0 <= j < k && j != slot.at.column ==> Same(f, opening.combinedVector[j], 0)
    {
      if k != slot.at.column && !Same(f, opening.combinedVector[k], 0) {
        return false;
      }
    }
    ok := true;
  }

  lemma Associative<T>(a: seq<T>, b: seq<T>, c: seq<T>)
    ensures (a + b) + c == a + (b + c)
  {
  }

  /** The loop over the slots, drawing each opening from its own iterator. */
  method VerifyBindings(f: Field, setup: Setup, commitments: seq<int>, slots: seq<Slot>, proof: Proof, t: Transcript)
    returns (bad: Option<VerificationError>)
    requires SlotsWithin(slots, |proof.evalOutputs|) && SlotsWithin(slots, |proof.evalBlindings|)
    modifies t
    ensures bad.None? <==> BindingsAccepted(f, setup, commitments, slots, proof)
    ensures bad.None? ==>
      t.log == old(t.log) + InSlotOrder(f, slots, Aligned(slots, proof.outputOpenings, proof.blindingOpenings))
    ensures bad.Some? && bad.value.Relaxed? <==>
      !(Count(slots, Output) == |proof.outputOpenings| && Count(slots, Blinding) == |proof.blindingOpenings|)
    ensures bad.Some? && !bad.value.Relaxed? ==> (
      && bad.value.EvalBindingMismatch?
      && Count(slots, Output) == |proof.outputOpenings| && Count(slots, Blinding) == |proof.blindingOpenings|
      && exists k :: 0 <= k < |slots| && slots[k].index == bad.value.index
                     && FirstRejected(f, setup, commitments, slots, proof, k))
  {
    hide Count, Aligned, InSlotOrder, SlotItems, SlotAccepted;
    if Count(slots, Output) != |proof.outputOpenings| {
      return Some(Relaxed(LengthMismatch(Count(slots, Output), |proof.outputOpenings|)));
    }
    if Count(slots, Blinding) != |proof.blindingOpenings| {
      return Some(Relaxed(LengthMismatch(Count(slots, Blinding), |proof.blindingOpenings|)));
    }
    var outputs, blindings := proof.outputOpenings, proof.blindingOpenings;
    ghost var ops := Aligned(slots, outputs, blindings);
    assert slots[0..] == slots && ops[0..] == ops;
    for k := 0 to |slots|
      invariant Count(slots[k..], Output) == |outputs| && Count(slots[k..], Blinding) == |blindings|
      invariant Aligned(slots[k..], outputs, blindings) == ops[k..]
      invariant forall j :: 0 <= j < k ==>
        SlotAccepted(f, setup, commitments, slots[j], ops[j],
                     SlotValue(slots[j], proof.evalOutputs, proof.evalBlindings))
      invariant t.log + InSlotOrder(f, slots[k..], ops[k..]) == old(t.log) + InSlotOrder(f, slots, ops)
    {
      NextSlot(f, slots, k, outputs, blindings, ops);
      var slot, opening := slots[k], if slots[k].kind == Output then outputs[0] else blindings[0];
      var ok := VerifySlot(f, setup, commitments, slot, opening,
                           SlotValue(slot, proof.evalOutputs, proof.evalBlindings));
      if !ok {
        assert FirstRejected(f, setup, commitments, slots, proof, k);
        return Some(EvalBindingMismatch(slot.index));
      }
      Associative(t.log, SlotItems(f, slot.kind, opening), InSlotOrder(f, slots[k + 1..], ops[k + 1..]));
      t.Append(SlotItems(f, slot.kind, opening));
      if slot.kind == Output {
        outputs := outputs[1..];
      } else {
        blindings := blindings[1..];
      }
    }
    NoSlots(f, slots[|slots|..], ops[|slots|..]);
    bad := None;
  }

  /** The first open slot takes the first opening of its kind. */
  lemma NextSlot(f: Field, slots: seq<Slot>, k: nat, outputs: seq<Opening>, blindings: seq<Opening>, ops: seq<Opening>)
    requires k < |slots| == |ops| && Count(slots[k..], Output) == |outputs|
    requires Count(slots[k..], Blinding) == |blindings|
    requires Aligned(slots[k..], outputs, blindings) == ops[k..]
    ensures slots[k].kind == Output ==> (
      && outputs != [] && outputs[0] == ops[k]
      && Count(slots[k + 1..], Output) == |outputs[1..]| && Count(slots[k + 1..], Blinding) == |blindings|
      && Aligned(slots[k + 1..], outputs[1..], blindings) == ops[k + 1..])
    ensures slots[k].kind == Blinding ==> (
      && blindings != [] && blindings[0] == ops[k]
      && Count(slots[k + 1..], Output) == |outputs| && Count(slots[k + 1..], Blinding) == |blindings[1..]|
      && Aligned(slots[k + 1..], outputs, blindings[1..]) == ops[k + 1..])
    ensures InSlotOrder(f, slots[k..], ops[k..])
         == SlotItems(f, slots[k].kind, ops[k]) + InSlotOrder(f, slots[k + 1..], ops[k + 1..])
  {
    assert slots[k..][1..] == slots[k + 1..] && ops[k..][1..] == ops[k + 1..] && ops[k..][0] == ops[k];
  }

  lemma NoSlots(f: Field, slots: seq<Slot>, ops: seq<Opening>)
    requires slots == [] && ops == []
    ensures InSlotOrder(f, slots, ops) == []
  {
  }

  /** `verify_outer_folded_r1cs`. */
  method VerifyOuter(f: Field, setup: Setup, p: BlindFoldProtocol, folded: RelaxedInstance, proof: Proof, t: Transcript)
    returns (r: Result<seq<int>, VerificationError>)
    modifies t
    ensures r.Ok? <==> OuterAccepted(f, setup, t.oracle, p, folded, proof, old(t.log) + [Label("bf_spartan")])
    ensures r.Ok? ==> r.value == OuterReplay(f, t.oracle, p, proof, old(t.log) + [Label("bf_spartan")]).point
    ensures r.Ok? ==> t.log == OuterLogAfter(f, t.oracle, p, proof, old(t.log) + [Label("bf_spartan")])
    ensures r == Err(InvalidDimensions) <==> !SplitDims(p.dimensions.error)
    ensures r.Err? && r.error.OuterSumcheck? <==>
      SplitDims(p.dimensions.error) && !AcceptableRounds(proof.outerRounds, GridVars(p.dimensions.error), 3)
    ensures r.Err? ==>
      r.error == InvalidDimensions || r.error.OuterSumcheck? || r.error.RowOpeningRejected?
      || r.error == OuterFinalClaimMismatch
    ensures r == Err(OuterFinalClaimMismatch) <==>
      && SplitDims(p.dimensions.error) && AcceptableRounds(proof.outerRounds, GridVars(p.dimensions.error), 3)
      && OuterOpens(f, setup, t.oracle, p, folded, proof, old(t.log) + [Label("bf_spartan")])
      && !OuterAccepted(f, setup, t.oracle, p, folded, proof, old(t.log) + [Label("bf_spartan")])
  {
    var d := p.dimensions.error;
    var n := GridVars(d);
    if !IsPow2(d.rowCount) || !IsPow2(d.rowLen) || n == 0 {
      return Err(InvalidDimensions);
    }
    t.Append([Label("bf_spartan")]);
    var tau := t.ChallengeVector(n);
    var outer := VerifyCompressed(f, OUTER_LABEL, proof.outerRounds, n, 3, 0, t);
    if outer.Err? {
      return Err(OuterSumcheck(outer.error));
    }
    var (point, value) := outer.value;
    var rowVars := Log2(d.rowCount);
    var e := VerifyCommittedRows(f, setup, folded.errors, point[..rowVars], point[rowVars..], proof.errorOpening);
    if e.Err? {
      return Err(RowOpeningRejected(e.error));
    }
    if !Same(f, value, OuterTerm(folded.u, EqMle(tau, point), proof.az, proof.bz, proof.cz, e.value)) {
      return Err(OuterFinalClaimMismatch);
    }
    t.Append(ScalarItems(f, "bf_az_bz_cz", [proof.az, proof.bz, proof.cz]));
    t.Append(OpeningItems(f, "bf_error_opening", "bf_error_blind", proof.errorOpening));
    r := Ok(point);
  }

  /** `verify_inner_folded_r1cs`. */
  method VerifyInner(f: Field, setup: Setup, p: BlindFoldProtocol, folded: RelaxedInstance, rx: seq<int>, proof: Proof,
                     t: Transcript)
    returns (bad: Option<VerificationError>)
    requires ValidMatrices(p.r1cs)
    modifies t
    ensures bad.None? <==> InnerAccepted(f, setup, t.oracle, p, folded, rx, proof, old(t.log))
    ensures bad.None? ==>
      t.log == InnerReplay(f, t.oracle, p, folded.u, rx, proof, old(t.log)).log + WitnessItems(f, proof)
    ensures bad == Some(InvalidDimensions) <==> !(|p.r1cs.a| <= Pow2(|rx|) && SplitDims(p.dimensions.grid))
    ensures bad.Some? && bad.value.InnerSumcheck? <==>
      && |p.r1cs.a| <= Pow2(|rx|) && SplitDims(p.dimensions.grid)
      && !AcceptableRounds(proof.innerRounds, GridVars(p.dimensions.grid), 2)
    ensures bad.Some? ==>
      bad.value == InvalidDimensions || bad.value.InnerSumcheck? || bad.value.RowOpeningRejected?
      || bad.value == InnerFinalClaimMismatch
    ensures bad == Some(InnerFinalClaimMismatch) <==>
      && |p.r1cs.a| <= Pow2(|rx|) && SplitDims(p.dimensions.grid)
      && AcceptableRounds(proof.innerRounds, GridVars(p.dimensions.grid), 2)
      && InnerOpens(f, setup, t.oracle, p, folded, rx, proof, old(t.log))
      && !InnerAccepted(f, setup, t.oracle, p, folded, rx, proof, old(t.log))
  {
    var m, d := p.r1cs, p.dimensions.grid;
    ghost var log := t.log;
    var abc := t.ChallengeVector(3);
    var rowWeights := Evals(rx, 1);
    UnitScale(rx);
    if |rowWeights| < |m.a| {
      return Some(InvalidDimensions);
    }
    var pa := PublicContribution(m.a, rowWeights, 0, folded.u);
    var pb := PublicContribution(m.b, rowWeights, 0, folded.u);
    var pc := PublicContribution(m.c, rowWeights, 0, folded.u);
    var claim := Weighted(abc[0], abc[1], abc[2], proof.az - pa, proof.bz - pb, proof.cz - pc);
    assert claim == InnerClaimOf(m, rx, folded.u, proof, abc);
    var n := GridVars(d);
    if !IsPow2(d.rowCount) || !IsPow2(d.rowLen) || n == 0 {
      return Some(InvalidDimensions);
    }
    var inner := VerifyCompressed(f, INNER_LABEL, proof.innerRounds, n, 2, claim, t);
    if inner.Err? {
      return Some(InnerSumcheck(inner.error));
    }
    var (point, value) := inner.value;
    var rowVars := Log2(d.rowCount);
    var w := VerifyCommittedRows(f, setup, folded.rows, point[..rowVars], point[rowVars..], proof.rowOpening);
    if w.Err? {
      return Some(RowOpeningRejected(w.error));
    }
    var columnWeights := Evals(point, 1);
    UnitScale(point);
    var fa := BilinearEval(m.a, rowWeights, columnWeights, 1);
    var fb := BilinearEval(m.b, rowWeights, columnWeights, 1);
    var fc := BilinearEval(m.c, rowWeights, columnWeights, 1);
    var form := Weighted(abc[0], abc[1], abc[2], fa, fb, fc);
    assert form == FormAt(m, rx, point, abc);
    if !Same(f, value, form * w.value) {
      return Some(InnerFinalClaimMismatch);
    }
    t.Append(WitnessItems(f, proof));
    bad := None;
  }

  lemma UnitScale(r: seq<int>)
    ensures Scaled(1, r) == EqTable(r)
  {
    assert forall i {:trigger Scaled(1, r)[i]} :: 0 <= i < Pow2(|r|) ==> Scaled(1, r)[i] == 1 * EqTable(r)[i];
  }

  lemma {:induction false} SlotIndices(coordinates: seq<FinalCoordinates>, first: nat)
    ensures SlotsWithin(Slots(coordinates, first), first + |coordinates|)
  {
    if coordinates != [] {
      SlotIndices(coordinates[1..], first + 1);
    }
  }

  /** `BlindFoldProtocol::verify`. */
  method Verify(f: Field, setup: Setup, p: BlindFoldProtocol, proof: Proof, t: Transcript)
    returns (bad: Option<VerificationError>)
    requires ValidMatrices(p.r1cs) && 1 <= Capacity(setup)
    modifies t
    ensures bad.None? <==> Accepts(f, setup, t.oracle, p, proof, old(t.log))
    ensures bad.None? ==> t.log == AcceptedLog(f, setup, t.oracle, p, proof, old(t.log))
    ensures bad.Some? && (bad.value.OuterSumcheck? || bad.value == OuterFinalClaimMismatch) ==>
      HeadAccepted(f, setup, t.oracle, p, proof, old(t.log))
    ensures bad.Some? && (bad.value.InnerSumcheck? || bad.value == InnerFinalClaimMismatch) ==> (
      && HeadAccepted(f, setup, t.oracle, p, proof, old(t.log))
      && var instance := FoldedInstance(p, proof.commitments, t.oracle(FoldLog(f, p, proof.commitments, old(t.log))));
         OuterAccepted(f, setup, t.oracle, p, instance.value, proof,
                       SpartanLog(f, p, SlotsOf(p), proof, old(t.log))))
    ensures bad.Some? && (bad.value.EvalBindingMismatch? || bad.value.EvalCommitmentMismatch?) ==>
      !HeadAccepted(f, setup, t.oracle, p, proof, old(t.log))
  {
    ghost var log := t.log;
    var folded := FoldedInstanceFromProof(f, p, proof.commitments, t);
    if folded.Err? {
      return Some(folded.error);
    }
    var evals := VerifyEvalCommitments(f, setup, folded.value.evals, proof.evalOutputs, proof.evalBlindings);
    if evals.Some? {
      return evals;
    }
    var coordinates := FinalOpeningCoordinates(p.dimensions, p.finalOpenings);
    if coordinates.Err? {
      return Some(Relaxed(coordinates.error));
    }
    if |coordinates.value| != |folded.value.evals| {
      return Some(Relaxed(LengthMismatch(|coordinates.value|, |folded.value.evals|)));
    }
    var slots := SlotsOf(p);
    var bindings := VerifyBindings(f, setup, folded.value.rows, slots, proof, t);
    if bindings.Some? {
      return bindings;
    }
    assert t.log + [Label("bf_spartan")] == SpartanLog(f, p, slots, proof, log);
    var outer := VerifyOuter(f, setup, p, folded.value, proof, t);
    if outer.Err? {
      return Some(outer.error);
    }
    bad := VerifyInner(f, setup, p, folded.value, outer.value, proof, t);
  }
}
