/** The folded-R1CS prover and its completeness. */
module Prover {
  import opened Results
  import opened Fields
  import opened Vectors
  import opened Multilinear
  import opened Matrices
  import opened EqTables
  import opened Univariate
  import opened R1cs
  import opened RowCommitment
  import opened Dense
  import opened Transcripts
  import opened Sumcheck
  import opened Protocol
  import opened Verifier

  datatype BlindFoldWitness = BlindFoldWitness(
    rows: seq<seq<int>>, blindings: seq<int>, evalOutputs: seq<int>, evalBlindings: seq<int>)

  /** What the prover draws from its generator, in place of the draws. */
  datatype Randomness = Randomness(
    u: int, rows: seq<seq<int>>, blindings: seq<int>, evalOutputs: seq<int>, evalBlindings: seq<int>,
    errorBlindings: seq<int>, crossBlindings: seq<int>)

  datatype ProverError =
    | CommitmentCapacityExceeded(capacity: nat, rowLen: nat)
    | LengthMismatch(expected: nat, actual: nat)
    | RowLengthMismatch(row: nat)
    | EvalCommitmentMismatch(index: nat)
    | EvalBindingMismatch(kind: Kind, index: nat)
    | DegenerateSumcheck
    | OuterFailed(SumcheckError)
    | InnerFailed(SumcheckError)

  // What the constructor of a protocol establishes.

  ghost predicate SlotsDedicated(d: Dimensions, slots: seq<Slot>) {
    && (forall k :: 0 <= k < |slots| ==>
         d.rows.auxiliary.start <= slots[k].at.row < d.rows.auxiliary.end && slots[k].at.column < d.grid.rowLen)
    && (forall j, k :: 0 <= j < k < |slots| ==> slots[j].at.row != slots[k].at.row)
  }

  ghost predicate WellFormedDimensions(d: Dimensions) {
    && IsPow2(d.grid.rowLen) && IsPow2(d.grid.rowCount) && IsPow2(d.error.rowLen) && IsPow2(d.error.rowCount)
    && FromCounts(d.coefficientRows, d.outputClaimRows, d.auxiliaryRows, d.grid.rowCount) == Ok(d.rows)
  }

  ghost predicate WellFormed(p: BlindFoldProtocol) {
    var d := p.dimensions;
    && WellFormedDimensions(d) && ValidMatrices(p.r1cs)
    && p.r1cs.numVars <= d.grid.rowCount * d.grid.rowLen + 1 && |p.r1cs.a| <= d.error.rowCount * d.error.rowLen
    && |p.roundCommitments| == d.coefficientRows && |p.outputClaimCommitments| == d.outputClaimRows
    && |p.finalOpenings| == |p.evalCommitments| && FinalOpeningCoordinates(d, p.finalOpenings).Ok?
    && SlotsDedicated(d, SlotsOf(p))
  }

  ghost predicate Grid(rows: seq<seq<int>>, d: RowDimensions) {
    |rows| == d.rowCount && Uniform(rows, d.rowLen)
  }

  ghost predicate RandomnessShaped(p: BlindFoldProtocol, r: Randomness) {
    && Grid(r.rows, p.dimensions.grid) && |r.blindings| == p.dimensions.grid.rowCount
    && |r.evalOutputs| == |r.evalBlindings| == |p.evalCommitments|
    && |r.errorBlindings| == |r.crossBlindings| == p.dimensions.error.rowCount
  }

  /** The shape `validate_witness` asks for. */
  ghost predicate WitnessShaped(p: BlindFoldProtocol, w: BlindFoldWitness) {
    && Grid(w.rows, p.dimensions.grid) && |w.blindings| == p.dimensions.grid.rowCount
    && |w.evalOutputs| == |w.evalBlindings| == |p.evalCommitments|
  }

  ghost predicate FitsSetup(p: BlindFoldProtocol, setup: Setup) {
    p.dimensions.grid.rowLen <= Capacity(setup) && p.dimensions.error.rowLen <= Capacity(setup) && 1 <= Capacity(setup)
  }

  /** The row the instance commits to: rounds, output claims, then the identity for padding. */
  ghost predicate PublicRowsOpen(f: Field, setup: Setup, p: BlindFoldProtocol, w: BlindFoldWitness)
    requires WellFormed(p) && WitnessShaped(p, w) && FitsSetup(p, setup)
  {
    var d := p.dimensions;
    && (forall i :: 0 <= i < d.coefficientRows ==> Same(f, p.roundCommitments[i],
                                                        Commit(setup, w.rows[i], w.blindings[i])))
    && (forall i :: 0 <= i < d.outputClaimRows ==>
         Same(f, p.outputClaimCommitments[i],
              Commit(setup, w.rows[d.coefficientRows + i], w.blindings[d.coefficientRows + i])))
    && (forall i :: d.rows.padding.start <= i < d.grid.rowCount ==> Same(f, 0,
                                                                         Commit(setup, w.rows[i], w.blindings[i])))
  }

  /** Each final opening's scalar is alone in its row. */
  ghost predicate SlotsHold(f: Field, slots: seq<Slot>, rows: seq<seq<int>>, outputs: seq<int>, blindings: seq<int>) {
    && SlotsWithin(slots, |outputs|) && SlotsWithin(slots, |blindings|)
    && forall k :: 0 <= k < |slots| ==>
         && slots[k].at.row < |rows| && slots[k].at.column < |rows[slots[k].at.row]|
         && Same(f, rows[slots[k].at.row][slots[k].at.column], SlotValue(slots[k], outputs, blindings))
         && DedicatedRow(f, slots[k].at.column, rows[slots[k].at.row])
  }

  /** A satisfying witness whose given commitments open correctly. */
  ghost predicate Honest(f: Field, setup: Setup, p: BlindFoldProtocol, w: BlindFoldWitness)
    requires WellFormed(p)
  {
    && WitnessShaped(p, w) && FitsSetup(p, setup) && PublicRowsOpen(f, setup, p, w)
    && EvalCommitmentsOpen(f, setup, p.evalCommitments, w.evalOutputs, w.evalBlindings)
    && SlotsHold(f, SlotsOf(p), w.rows, w.evalOutputs, w.evalBlindings)
    && FlatSize(w.rows, p.dimensions.grid)
    && Satisfies(f, p.r1cs, 1, Flatten(w.rows), Zeros(|p.r1cs.a|))
  }

  ghost predicate FlatSize(rows: seq<seq<int>>, d: RowDimensions) {
    |Flatten(rows)| == d.rowCount * d.rowLen
  }

  lemma GridVarsSize(d: RowDimensions)
    requires IsPow2(d.rowCount) && IsPow2(d.rowLen)
    ensures d.rowCount * d.rowLen == Pow2(GridVars(d))
  {
    var m, n := Log2(d.rowCount), Log2(d.rowLen);
    assert Pow2(m) == d.rowCount && Pow2(n) == d.rowLen by {
      IsPow2Log(d.rowCount);
      IsPow2Log(d.rowLen);
    }
    assert d.rowCount * d.rowLen == Pow2(m) * Pow2(n);
    Pow2Add(m, n);
  }

  lemma GridFlatSize(rows: seq<seq<int>>, d: RowDimensions)
    requires Grid(rows, d)
    ensures FlatSize(rows, d)
  {
    FlattenLength(rows, d.rowLen);
  }

  // Committing.

  /** `commit_rows`. */
  function CommitRows(setup: Setup, rows: seq<seq<int>>, blindings: seq<int>, len: nat): (c: seq<int>)
    requires |rows| == |blindings| && Uniform(rows, len) && len <= Capacity(setup)
    ensures |c| == |rows| && forall i {:trigger c[i]} :: 0 <= i < |c| ==> c[i] == Commit(setup, rows[i], blindings[i])
  {
    seq(|rows|, i requires 0 <= i < |rows| => Commit(setup, rows[i], blindings[i]))
  }

  /** Commitments assembled part by part open to the grid, the padding to the identity. */
  lemma AssembledOpen(f: Field, setup: Setup, d: Dimensions, rounds: seq<int>, outputs: seq<int>, auxiliary: seq<int>,
                      rows: seq<seq<int>>, blindings: seq<int>)
    requires WellFormedDimensions(d) && d.grid.rowLen <= Capacity(setup)
    requires |rounds| == d.coefficientRows && |outputs| == d.outputClaimRows && |auxiliary| == d.auxiliaryRows
    requires Grid(rows, d.grid) && |blindings| == |rows|
    requires forall i :: 0 <= i < |rounds| ==> Same(f, rounds[i], Commit(setup, rows[i], blindings[i]))
    requires forall i :: 0 <= i < |outputs| ==>
      Same(f, outputs[i], Commit(setup, rows[|rounds| + i], blindings[|rounds| + i]))
    requires forall i :: 0 <= i < |auxiliary| ==>
      Same(f, auxiliary[i], Commit(setup, rows[|rounds| + |outputs| + i], blindings[|rounds| + |outputs| + i]))
    requires forall i :: |rounds| + |outputs| + |auxiliary| <= i < |rows| ==>
      Same(f, 0, Commit(setup, rows[i], blindings[i]))
    ensures AssembleRows(d, rounds, outputs, auxiliary).Ok?
    ensures Opens(f, setup, AssembleRows(d, rounds, outputs, auxiliary).value, rows, blindings, d.grid.rowLen)
  {
    var all := AssembleRows(d, rounds, outputs, auxiliary).value;
    var a, b := |rounds|, |rounds| + |outputs|;
    var c := b + |auxiliary|;
    assert all == rounds + outputs + auxiliary + Zeros(|rows| - c);
    forall i | 0 <= i < |rows| ensures Same(f, all[i], Commit(setup, rows[i], blindings[i])) {
      if i < a {
        assert all[i] == rounds[i];
      } else if i < b {
        assert all[i] == outputs[i - a] && a + (i - a) == i;
      } else if i < c {
        assert all[i] == auxiliary[i - b] && b + (i - b) == i;
      }
    }
  }

  lemma ZeroCommitment(setup: Setup, row: seq<int>)
    requires |row| <= Capacity(setup) && forall k :: 0 <= k < |row| ==> row[k] == 0
    ensures Commit(setup, row, 0) == 0
  {
    DotZeros(row, setup.generators[..|row|]);
    assert 0 * setup.blindingGenerator == 0;
  }

  // The random instance.

  datatype Mask = Mask(rows: seq<seq<int>>, blindings: seq<int>)

  /** The random grid commits to the identity in padding rows, has the random
      evaluation scalars alone in the final openings' rows, which are not
      blinded, and is as drawn everywhere else. */
  ghost predicate MaskPrepared(p: BlindFoldProtocol, r: Randomness, mask: Mask)
    requires WellFormed(p) && RandomnessShaped(p, r)
  {
    var d, slots := p.dimensions, SlotsOf(p);
    && Grid(mask.rows, d.grid) && |mask.blindings| == d.grid.rowCount
    && (forall i :: d.rows.padding.start <= i < d.grid.rowCount ==>
         mask.rows[i] == Zeros(d.grid.rowLen) && mask.blindings[i] == 0)
    && (forall k :: 0 <= k < |slots| ==>
         && mask.rows[slots[k].at.row]
              == Zeros(d.grid.rowLen)[slots[k].at.column := SlotValue(slots[k], r.evalOutputs, r.evalBlindings)]
         && mask.blindings[slots[k].at.row] == 0)
    && forall i :: 0 <= i < d.rows.padding.start && !IsSlotRow(slots, i) ==>
         mask.rows[i] == r.rows[i] && mask.blindings[i] == r.blindings[i]
  }

  ghost predicate IsSlotRow(slots: seq<Slot>, row: nat) {
    exists k :: 0 <= k < |slots| && slots[k].at.row == row
  }

  /** The rows that commit to the identity: padding rows, then dedicated rows. */
  method ClearRows(drawn: seq<seq<int>>, drawnBlindings: seq<int>, len: nat, padding: nat, slots: seq<Slot>)
    returns (rows: seq<seq<int>>, blindings: seq<int>)
    requires padding <= |drawn| == |drawnBlindings| && forall k :: 0 <= k < |slots| ==> slots[k].at.row < |drawn|
    ensures |rows| == |blindings| == |drawn|
    ensures forall j :: 0 <= j < |rows| ==> (padding <= j || IsSlotRow(slots, j)) ==>
      rows[j] == Zeros(len) && blindings[j] == 0
    ensures forall j :: 0 <= j < padding ==> !IsSlotRow(slots, j) ==>
      rows[j] == drawn[j] && blindings[j] == drawnBlindings[j]
  {
    rows, blindings := drawn, drawnBlindings;
    for i := padding to |drawn|
      invariant |rows| == |blindings| == |drawn|
      invariant forall j :: padding <= j < i ==> rows[j] == Zeros(len) && blindings[j] == 0
      invariant forall j :: 0 <= j < padding ==> rows[j] == drawn[j] && blindings[j] == drawnBlindings[j]
    {
      rows, blindings := rows[i := Zeros(len)], blindings[i := 0];
    }
    for k := 0 to |slots|
      invariant |rows| == |blindings| == |drawn|
      invariant forall j :: 0 <= j < |rows| ==> (padding <= j || IsSlotRow(slots[..k], j)) ==>
        rows[j] == Zeros(len) && blindings[j] == 0
      invariant forall j :: 0 <= j < padding ==> !IsSlotRow(slots[..k], j) ==>
        rows[j] == drawn[j] && blindings[j] == drawnBlindings[j]
    {
      SlotRowsNext(slots, k);
      rows, blindings := rows[slots[k].at.row := Zeros(len)], blindings[slots[k].at.row := 0];
    }
    assert slots[..|slots|] == slots;
  }

  /** Each evaluation scalar into its slot, in a row that was cleared for it. */
  method PlaceScalars(cleared: seq<seq<int>>, len: nat, slots: seq<Slot>, outputs: seq<int>, blindings: seq<int>)
    returns (rows: seq<seq<int>>)
    requires forall k :: 0 <= k < |slots| ==>
      slots[k].at.row < |cleared| && slots[k].at.column < len && cleared[slots[k].at.row] == Zeros(len)
    requires forall i, j :: 0 <= i < j < |slots| ==> slots[i].at.row != slots[j].at.row
    requires SlotsWithin(slots, |outputs|) && SlotsWithin(slots, |blindings|)
    ensures |rows| == |cleared|
    ensures forall j :: 0 <= j < |slots| ==>
      rows[slots[j].at.row] == Zeros(len)[slots[j].at.column := SlotValue(slots[j], outputs, blindings)]
    ensures forall j :: 0 <= j < |rows| ==> !IsSlotRow(slots, j) ==> rows[j] == cleared[j]
  {
    rows := cleared;
    for k := 0 to |slots|
      invariant |rows| == |cleared|
      invariant forall j :: k <= j < |slots| ==> rows[slots[j].at.row] == Zeros(len)
      invariant forall j :: 0 <= j < k ==>
        rows[slots[j].at.row] == Zeros(len)[slots[j].at.column := SlotValue(slots[j], outputs, blindings)]
      invariant forall j :: 0 <= j < |rows| ==> !IsSlotRow(slots, j) ==> rows[j] == cleared[j]
    {
      assert IsSlotRow(slots, slots[k].at.row);
      var at := slots[k].at;
      rows := rows[at.row := rows[at.row][at.column := SlotValue(slots[k], outputs, blindings)]];
    }
  }

  lemma SlotRowsNext(slots: seq<Slot>, k: nat)
    requires k < |slots|
    ensures forall row :: IsSlotRow(slots[..k + 1], row) <==> IsSlotRow(slots[..k], row) || row == slots[k].at.row
  {
    var now, before := slots[..k + 1], slots[..k];
    assert now[k] == slots[k];
    forall row ensures IsSlotRow(now, row) <==> IsSlotRow(before, row) || row == slots[k].at.row {
      if IsSlotRow(before, row) {
        var j :| 0 <= j < k && before[j].at.row == row;
        assert now[j].at.row == row;
      }
      if j :| 0 <= j < k + 1 && now[j].at.row == row {
        assert j < k ==> before[j].at.row == row;
      }
    }
  }

  /** Zero the padding rows, zero the dedicated rows, then place the scalars. */
  method PrepareMask(p: BlindFoldProtocol, r: Randomness) returns (mask: Mask)
    requires WellFormed(p) && RandomnessShaped(p, r)
    ensures MaskPrepared(p, r, mask)
  {
    var slots, len := SlotsOf(p), p.dimensions.grid.rowLen;
    SlotsBeforePadding(p);
    var rows, blindings := ClearRows(r.rows, r.blindings, len, p.dimensions.rows.padding.start, slots);
    forall j | 0 <= j < |slots| ensures IsSlotRow(slots, slots[j].at.row) {
    }
    rows := PlaceScalars(rows, len, slots, r.evalOutputs, r.evalBlindings);
    mask := Mask(rows, blindings);
  }

  /** No final opening's row is a padding row. */
  lemma SlotsBeforePadding(p: BlindFoldProtocol)
    requires WellFormed(p)
    ensures forall j :: p.dimensions.rows.padding.start <= j < p.dimensions.grid.rowCount ==> !IsSlotRow(SlotsOf(p), j)
  {
  }

  /** Folding with the mask keeps every slot alone in its row, holding the folded scalar. */
  lemma FoldedSlotsHold(f: Field, p: BlindFoldProtocol, w: BlindFoldWitness, r: Randomness, mask: Mask, c: int)
    requires IsField(f) && WellFormed(p) && WitnessShaped(p, w) && RandomnessShaped(p, r) && MaskPrepared(p, r, mask)
    requires SlotsHold(f, SlotsOf(p), w.rows, w.evalOutputs, w.evalBlindings)
    ensures SlotsHold(f, SlotsOf(p), FoldRows(w.rows, mask.rows, p.dimensions.grid.rowLen, c),
                      Folded(w.evalOutputs, r.evalOutputs, c), Folded(w.evalBlindings, r.evalBlindings, c))
  {
    var slots, len := SlotsOf(p), p.dimensions.grid.rowLen;
    var rows := FoldRows(w.rows, mask.rows, len, c);
    forall k | 0 <= k < |slots|
      ensures Same(f, rows[slots[k].at.row][slots[k].at.column],
                   SlotValue(slots[k], Folded(w.evalOutputs, r.evalOutputs, c),
                             Folded(w.evalBlindings, r.evalBlindings, c)))
      ensures DedicatedRow(f, slots[k].at.column, rows[slots[k].at.row])
    {
      var row, column := slots[k].at.row, slots[k].at.column;
      var value, drawn := SlotValue(slots[k], w.evalOutputs, w.evalBlindings),
                          SlotValue(slots[k], r.evalOutputs, r.evalBlindings);
      SameAdd(f, w.rows[row][column], value, c * drawn, c * drawn);
      forall j | 0 <= j < len && j != column ensures Same(f, rows[row][j], 0) {
        assert c * 0 == 0;
      }
    }
  }

  // The order in which the eval openings are absorbed.

  function SameKindItems(f: Field, kind: Kind, ops: seq<Opening>): seq<Item> {
    if ops == [] then [] else SlotItems(f, kind, ops[0]) + SameKindItems(f, kind, ops[1..])
  }

  /** What the prover absorbs: all output openings, then all blinding openings. */
  function GroupedItems(f: Field, outputs: seq<Opening>, blindings: seq<Opening>): seq<Item> {
    SameKindItems(f, Output, outputs) + SameKindItems(f, Blinding, blindings)
  }

  /** No blinding slot comes before an output slot. */
  ghost predicate OutputsFirst(slots: seq<Slot>) {
    forall i, j :: 0 <= i < j < |slots| ==> !(slots[i].kind == Blinding && slots[j].kind == Output)
  }

  /** Prover and verifier absorb the same items exactly when the outputs come first. */
  lemma {:induction false} AbsorptionOrder(f: Field, slots: seq<Slot>, outputs: seq<Opening>, blindings: seq<Opening>)
    requires Count(slots, Output) == |outputs| && Count(slots, Blinding) == |blindings|
    ensures InSlotOrder(f, slots, Aligned(slots, outputs, blindings)) == GroupedItems(f, outputs, blindings) <==>
      OutputsFirst(slots)
  {
    if slots != [] {
      var tail, ops := slots[1..], Aligned(slots, outputs, blindings);
      if slots[0].kind == Output {
        AbsorptionOrder(f, tail, outputs[1..], blindings);
        var head, rest := SlotItems(f, Output, outputs[0]), InSlotOrder(f, tail, ops[1..]);
        assert InSlotOrder(f, slots, ops) == head + rest;
        Associative(head, SameKindItems(f, Output, outputs[1..]), SameKindItems(f, Blinding, blindings));
        CancelHead(head, rest, GroupedItems(f, outputs[1..], blindings));
        OutputsFirstTail(slots);
      } else if outputs == [] {
        NoneOfKind(slots, Output);
        AbsorptionOrder(f, tail, outputs, blindings[1..]);
        assert ops[1..] == Aligned(tail, outputs, blindings[1..]);
        assert OutputsFirst(tail) && OutputsFirst(slots);
      } else {
        var k := FirstOfKind(slots, Output);
        assert slots[0].kind == Blinding && slots[k].kind == Output && 0 < k;
        assert InSlotOrder(f, slots, ops)[0] == SlotItems(f, Blinding, ops[0])[0];
        assert GroupedItems(f, outputs, blindings)[0] == SlotItems(f, Output, outputs[0])[0];
      }
    }
  }

  lemma CancelHead<T>(head: seq<T>, a: seq<T>, b: seq<T>)
    ensures head + a == head + b <==> a == b
  {
    if head + a == head + b {
      assert a == (head + a)[|head|..] == (head + b)[|head|..] == b;
    }
  }

  lemma OutputsFirstTail(slots: seq<Slot>)
    requires slots != [] && slots[0].kind == Output
    ensures OutputsFirst(slots) <==> OutputsFirst(slots[1..])
  {
    if OutputsFirst(slots[1..]) {
      forall i, j | 0 <= i < j < |slots| ensures !(slots[i].kind == Blinding && slots[j].kind == Output) {
        if i > 0 {
          assert slots[i] == slots[1..][i - 1] && slots[j] == slots[1..][j - 1];
        }
      }
    }
    if OutputsFirst(slots) {
      forall i, j | 0 <= i < j < |slots[1..]|
        ensures !(slots[1..][i].kind == Blinding && slots[1..][j].kind == Output)
      {
        assert slots[1..][i] == slots[i + 1] && slots[1..][j] == slots[j + 1];
      }
    }
  }

  lemma {:induction false} NoneOfKind(slots: seq<Slot>, kind: Kind)
    requires Count(slots, kind) == 0
    ensures forall k :: 0 <= k < |slots| ==> slots[k].kind != kind
  {
    if slots != [] {
      NoneOfKind(slots[1..], kind);
      assert forall k :: 0 < k < |slots| ==> slots[k] == slots[1..][k - 1];
    }
  }

  lemma {:induction false} FirstOfKind(slots: seq<Slot>, kind: Kind) returns (k: nat)
    requires Count(slots, kind) > 0
    ensures k < |slots| && slots[k].kind == kind
  {
    if slots[0].kind == kind {
      k := 0;
    } else {
      k := FirstOfKind(slots[1..], kind);
      k := k + 1;
    }
  }

  /** With every final opening allocated in full, the orders agree for at most one opening. */
  lemma {:induction false} AllocatedOrder(coordinates: seq<FinalCoordinates>)
    requires forall i :: 0 <= i < |coordinates| ==> coordinates[i].evaluation.Some? && coordinates[i].blinding.Some?
    ensures OutputsFirst(Slots(coordinates, 0)) <==> |coordinates| <= 1
  {
    var slots := Slots(coordinates, 0);
    if |coordinates| == 1 {
      assert Slots(coordinates[1..], 1) == [];
    } else if |coordinates| >= 2 {
      assert slots[1].kind == Blinding;
      assert Slots(coordinates[1..], 1)[0].kind == Output;
      assert slots[2].kind == Output;
    }
  }

  // The checks before proving.

  /** `validate_witness`. */
  method ValidateWitness(setup: Setup, p: BlindFoldProtocol, w: BlindFoldWitness) returns (bad: Option<ProverError>)
    ensures bad.None? <==> WitnessShaped(p, w) && FitsSetup(p, setup)
  {
    var d, capacity := p.dimensions, Capacity(setup);
    if d.grid.rowLen > capacity {
      return Some(ProverError.CommitmentCapacityExceeded(capacity, d.grid.rowLen));
    }
    if d.error.rowLen > capacity {
      return Some(ProverError.CommitmentCapacityExceeded(capacity, d.error.rowLen));
    }
    if 1 > capacity {
      return Some(ProverError.CommitmentCapacityExceeded(capacity, 1));
    }
    if |w.rows| != d.grid.rowCount {
      return Some(ProverError.LengthMismatch(d.grid.rowCount, |w.rows|));
    }
    if |w.blindings| != d.grid.rowCount {
      return Some(ProverError.LengthMismatch(d.grid.rowCount, |w.blindings|));
    }
    for row := 0 to |w.rows|
      invariant forall i :: 0 <= i < row ==> |w.rows[i]| == d.grid.rowLen
    {
      if |w.rows[row]| != d.grid.rowLen {
        return Some(RowLengthMismatch(row));
      }
    }
    if |w.evalOutputs| != |p.evalCommitments| {
      return Some(ProverError.LengthMismatch(|p.evalCommitments|, |w.evalOutputs|));
    }
    if |w.evalBlindings| != |p.evalCommitments| {
      return Some(ProverError.LengthMismatch(|p.evalCommitments|, |w.evalBlindings|));
    }
    bad := None;
  }

  method CheckEvalCommitments(f: Field, setup: Setup, p: BlindFoldProtocol, w: BlindFoldWitness)
    returns (bad: Option<ProverError>)
    requires WitnessShaped(p, w) && 1 <= Capacity(setup)
    ensures bad.None? <==> EvalCommitmentsOpen(f, setup, p.evalCommitments, w.evalOutputs, w.evalBlindings)
  {
    for i := 0 to |p.evalCommitments|
      invariant forall k :: 0 <= k < i ==>
        VerifyCommitment(f, setup, p.evalCommitments[k], [w.evalOutputs[k]], w.evalBlindings[k])
    {
      if !VerifyCommitment(f, setup, p.evalCommitments[i], [w.evalOutputs[i]], w.evalBlindings[i]) {
        return Some(ProverError.EvalCommitmentMismatch(i));
      }
    }
    bad := None;
  }

  // Opening the folded slots.

  /** What an opened slot must hold, and the opening it yields. */
  ghost predicate SlotOpens(f: Field, rows: seq<seq<int>>, slot: Slot, expected: int)
    requires slot.at.row < |rows| && slot.at.column < |rows[slot.at.row]|
  {
    Same(f, rows[slot.at.row][slot.at.column], expected)
  }

  function SlotOpenings(slots: seq<Slot>, kind: Kind, rows: seq<seq<int>>, blindings: seq<int>): (ops: seq<Opening>)
    requires |rows| == |blindings| && forall k :: 0 <= k < |slots| ==> slots[k].at.row < |rows|
    ensures |ops| == Count(slots, kind)
  {
    if slots == [] then []
    else (if slots[0].kind == kind then [Opening(rows[slots[0].at.row], blindings[slots[0].at.row])] else [])
         + SlotOpenings(slots[1..], kind, rows, blindings)
  }

  lemma {:induction false} AlignedOpenings(slots: seq<Slot>, rows: seq<seq<int>>, blindings: seq<int>)
    requires |rows| == |blindings| && forall k :: 0 <= k < |slots| ==> slots[k].at.row < |rows|
    ensures var ops := Aligned(slots, SlotOpenings(slots, Output, rows, blindings),
                               SlotOpenings(slots, Blinding, rows, blindings));
      forall k :: 0 <= k < |slots| ==> ops[k] == Opening(rows[slots[k].at.row], blindings[slots[k].at.row])
  {
    if slots != [] {
      AlignedOpenings(slots[1..], rows, blindings);
      var outputs, blinds := SlotOpenings(slots, Output, rows, blindings),
                             SlotOpenings(slots, Blinding, rows, blindings);
      assert (if slots[0].kind == Output then outputs[1..] else outputs)
          == SlotOpenings(slots[1..], Output, rows, blindings);
      assert (if slots[0].kind == Blinding then blinds[1..] else blinds)
          == SlotOpenings(slots[1..], Blinding, rows, blindings);
    }
  }

  /** `open_witness_coordinate`: the opening at a vertex is the row, its value the entry. */
  method OpenSlot(rows: seq<seq<int>>, blindings: seq<int>, d: RowDimensions, at: Coordinate)
    returns (opening: Opening, value: int)
    requires Grid(rows, d) && |blindings| == |rows| && IsPow2(d.rowCount) && IsPow2(d.rowLen)
    requires at.row < d.rowCount && at.column < d.rowLen
    ensures opening == Opening(rows[at.row], blindings[at.row]) && value == rows[at.row][at.column]
  {
    IsPow2Log(d.rowCount);
    IsPow2Log(d.rowLen);
    var rowPoint, entryPoint := BooleanPoint(at.row, Log2(d.rowCount)), BooleanPoint(at.column, Log2(d.rowLen));
    BooleanPointIsBits(at.row, Log2(d.rowCount));
    BooleanPointIsBits(at.column, Log2(d.rowLen));
    FlattenLength(rows, d.rowLen);
    ChunksOfFlatten(rows, d.rowLen);
    var result := OpenCommittedRows(Flatten(rows), blindings, d.rowLen, rowPoint, entryPoint);
    OpeningAtVertex(rows, blindings, d.rowLen, at.row, Log2(d.rowCount));
    MatrixMle(rows, rowPoint, entryPoint);
    MleAtVertex(rows[at.row], at.column, Log2(d.rowLen));
    opening, value := result.value.0, result.value.1;
  }

  lemma {:induction false} SlotOpeningsSnoc(slots: seq<Slot>, slot: Slot, kind: Kind, rows: seq<seq<int>>,
                                            blindings: seq<int>)
    requires |rows| == |blindings| && slot.at.row < |rows| && forall j :: 0 <= j < |slots| ==> slots[j].at.row < |rows|
    ensures SlotOpenings(slots + [slot], kind, rows, blindings)
         == SlotOpenings(slots, kind, rows, blindings)
            + (if slot.kind == kind then [Opening(rows[slot.at.row], blindings[slot.at.row])] else [])
  {
    if slots == [] {
      assert [] + [slot] == [slot] && [slot][1..] == [];
    } else {
      assert (slots + [slot])[1..] == slots[1..] + [slot];
      SlotOpeningsSnoc(slots[1..], slot, kind, rows, blindings);
    }
  }

  /** Open every slot, each value checked against the folded scalar. */
  method OpenSlots(f: Field, d: RowDimensions, rows: seq<seq<int>>, blindings: seq<int>, slots: seq<Slot>,
                   outputs: seq<int>, blinds: seq<int>)
    returns (r: Result<(seq<Opening>, seq<Opening>), ProverError>)
    requires Grid(rows, d) && |blindings| == |rows| && IsPow2(d.rowCount) && IsPow2(d.rowLen)
    requires SlotsWithin(slots, |outputs|) && SlotsWithin(slots, |blinds|)
    requires forall k :: 0 <= k < |slots| ==> slots[k].at.row < d.rowCount && slots[k].at.column < d.rowLen
    ensures r.Ok? <==>
      forall k :: 0 <= k < |slots| ==> SlotOpens(f, rows, slots[k], SlotValue(slots[k], outputs, blinds))
    ensures r.Ok? ==>
      r.value == (SlotOpenings(slots, Output, rows, blindings), SlotOpenings(slots, Blinding, rows, blindings))
  {
    var outputOpenings, blindingOpenings := [], [];
    for k := 0 to |slots|
      invariant outputOpenings == SlotOpenings(slots[..k], Output, rows, blindings)
      invariant blindingOpenings == SlotOpenings(slots[..k], Blinding, rows, blindings)
      invariant forall j :: 0 <= j < k ==> SlotOpens(f, rows, slots[j], SlotValue(slots[j], outputs, blinds))
    {
      var slot := slots[k];
      assert slots[..k + 1] == slots[..k] + [slot];
      SlotOpeningsSnoc(slots[..k], slot, Output, rows, blindings);
      SlotOpeningsSnoc(slots[..k], slot, Blinding, rows, blindings);
      var opening, value := OpenSlot(rows, blindings, d, slot.at);
      if !Same(f, value, SlotValue(slot, outputs, blinds)) {
        return Err(ProverError.EvalBindingMismatch(slot.kind, slot.index));
      }
      if slot.kind == Output {
        outputOpenings := outputOpenings + [opening];
      } else {
        blindingOpenings := blindingOpenings + [opening];
      }
    }
    assert slots[..|slots|] == slots;
    r := Ok((outputOpenings, blindingOpenings));
  }

  /** The verifier accepts the honest openings of slots that are alone in their rows. */
  lemma SlotsAccepted(f: Field, setup: Setup, p: BlindFoldProtocol, commitments: seq<int>, rows: seq<seq<int>>,
                      blindings: seq<int>, proof: Proof)
    requires IsField(f) && WellFormed(p) && Grid(rows, p.dimensions.grid)
    requires Opens(f, setup, commitments, rows, blindings, p.dimensions.grid.rowLen)
    requires |proof.evalOutputs| == |proof.evalBlindings| == |p.finalOpenings|
    requires SlotsHold(f, SlotsOf(p), rows, proof.evalOutputs, proof.evalBlindings)
    requires proof.outputOpenings == SlotOpenings(SlotsOf(p), Output, rows, blindings)
    requires proof.blindingOpenings == SlotOpenings(SlotsOf(p), Blinding, rows, blindings)
    ensures BindingsAccepted(f, setup, commitments, SlotsOf(p), proof)
  {
    var slots, d := SlotsOf(p), p.dimensions.grid;
    var ops := Aligned(slots, proof.outputOpenings, proof.blindingOpenings);
    AlignedOpenings(slots, rows, blindings);
    forall k | 0 <= k < |slots|
      ensures SlotAccepted(f, setup, commitments, slots[k], ops[k],
                           SlotValue(slots[k], proof.evalOutputs, proof.evalBlindings))
    {
      SlotVerifies(f, setup, d, commitments, rows, blindings, slots[k].at);
    }
  }

  lemma SlotVerifies(f: Field, setup: Setup, d: RowDimensions, commitments: seq<int>, rows: seq<seq<int>>,
                     blindings: seq<int>, at: Coordinate)
    requires IsField(f) && IsPow2(d.rowCount) && IsPow2(d.rowLen) && Grid(rows, d)
    requires Opens(f, setup, commitments, rows, blindings, d.rowLen) && at.row < d.rowCount && at.column < d.rowLen
    ensures VerifiedSlot(f, setup, commitments, at, Opening(rows[at.row], blindings[at.row]))
         == Some(rows[at.row][at.column])
  {
    IsPow2Log(d.rowCount);
    IsPow2Log(d.rowLen);
    var rowPoint, entryPoint := Bits(at.row, Log2(d.rowCount)), Bits(at.column, Log2(d.rowLen));
    OpeningVerifies(f, setup, commitments, rows, blindings, rowPoint, entryPoint);
    OpeningAtVertex(rows, blindings, d.rowLen, at.row, Log2(d.rowCount));
    MatrixMle(rows, rowPoint, entryPoint);
    MleAtVertex(rows[at.row], at.column, Log2(d.rowLen));
  }

  // The outer phase.

  /** `abc_at_point`, one matrix: the products against the eq table, zipped to the shorter. */
  method ProductAtPoint(rows: seq<SparseRow>, z: seq<int>, rowWeights: seq<int>) returns (acc: int)
    requires RowsBelow(rows, |z|) && |rows| <= |rowWeights|
    ensures acc == Dot(rowWeights[..|rows|], Product(rows, z))
  {
    acc := 0;
    ghost var ws, ps := rowWeights[..|rows|], Product(rows, z);
    for k := 0 to |rows|
      invariant acc == Dot(ws[..k], ps[..k])
    {
      DotSnoc(ws, ps, k);
      acc := acc + rowWeights[k] * SparseDot(rows[k], z);
    }
    assert ws[..|rows|] == ws && ps[..|rows|] == ps;
  }

  /** Padding with zeros does not change what is dotted with the eq table. */
  lemma PaddedMle(v: seq<int>, point: seq<int>)
    requires |v| <= Pow2(|point|)
    ensures Mle(v + Zeros(Pow2(|point|) - |v|), point) == Dot(EqTable(point)[..|v|], v)
  {
    hide *;
    SplitAt(EqTable(point), |v|);
    PaddedSplit(v, point, EqTable(point)[..|v|], EqTable(point)[|v|..], Pow2(|point|) - |v|);
  }

  lemma SplitAt(e: seq<int>, k: nat)
    requires k <= |e|
    ensures e == e[..k] + e[k..] && |e[..k]| == k && |e[k..]| == |e| - k
  {
  }

  lemma PaddedSplit(v: seq<int>, point: seq<int>, a: seq<int>, b: seq<int>, n: nat)
    requires EqTable(point) == a + b && |v| == |a| && |b| == n
    ensures |v + Zeros(n)| == Pow2(|point|) && Mle(v + Zeros(n), point) == Dot(a, v)
  {
    assert |EqTable(point)| == Pow2(|point|);
    DotIsMle(v + Zeros(n), point);
    DotPadded(v, a, b);
  }

  lemma DotPadded(v: seq<int>, a: seq<int>, b: seq<int>)
    requires |v| == |a|
    ensures Dot(v + Zeros(|b|), a + b) == Dot(a, v)
  {
    DotConcat(v, Zeros(|b|), a, b);
    DotZeros(Zeros(|b|), b);
    DotSymmetric(v, a);
  }

  /** Every constraint's residual equals its error entry, and the padding is zero. */
  ghost predicate ErrorsExact(f: Field, m: ConstraintMatrices, u: int, wit: seq<int>, errors: seq<int>)
    requires ValidMatrices(m) && m.numVars <= |wit| + 1
  {
    && |m.a| <= |errors|
    && (forall k {:trigger errors[k]} :: 0 <= k < |m.a| ==> Same(f, Residual(m, k, u, ZVector(u, wit)), errors[k]))
    && (forall k {:trigger errors[k]} :: |m.a| <= k < |errors| ==> Same(f, errors[k], 0))
  }

  /** Then the outer sum is zero, whatever the eq weights. */
  lemma OuterSumZero(f: Field, m: ConstraintMatrices, u: int, wit: seq<int>, errors: seq<int>, tau: seq<int>)
    requires IsField(f) && ValidMatrices(m) && m.numVars <= |wit| + 1 && |m.a| <= |errors| == Pow2(|tau|)
    requires ErrorsExact(f, m, u, wit, errors)
    ensures Same(f, OuterSum(u, OuterStart(m, u, wit, errors, tau)), 0)
  {
    var t, z := OuterStart(m, u, wit, errors, tau), ZVector(u, wit);
    forall k | 0 <= k < |t.eq| ensures Same(f, t.az[k] * t.bz[k] - u * t.cz[k] - t.e[k], 0) {
      if k < |m.a| {
        SameDifference(f, Residual(m, k, u, z), errors[k]);
        assert t.az[k] * t.bz[k] - u * t.cz[k] == Residual(m, k, u, z);
      } else {
        assert t.az[k] == 0 && t.bz[k] == 0 && t.cz[k] == 0;
        SameSub(f, 0, 0, errors[k], 0);
        assert 0 * 0 - u * 0 - errors[k] == 0 - errors[k];
      }
    }
    TermsZero(f, u, t);
  }

  lemma {:induction false} TermsZero(f: Field, u: int, t: OuterTables)
    requires IsField(f) && OuterSized(t, |t.eq|)
    requires forall k {:trigger t.e[k]} :: 0 <= k < |t.eq| ==> Same(f, t.az[k] * t.bz[k] - u * t.cz[k] - t.e[k], 0)
    ensures Same(f, OuterSum(u, t), 0)
    decreases |t.eq|
  {
    if t.eq != [] {
      var tail := OuterTail(t);
      forall k | 0 <= k < |tail.eq| ensures Same(f, tail.az[k] * tail.bz[k] - u * tail.cz[k] - tail.e[k], 0) {
        assert tail.e[k] == t.e[k + 1];
      }
      TermsZero(f, u, tail);
      var s := t.az[0] * t.bz[0] - u * t.cz[0] - t.e[0];
      SameMul(f, t.eq[0], t.eq[0], s, 0);
      assert t.eq[0] * 0 == 0;
      SameAdd(f, t.eq[0] * s, 0, OuterSum(u, tail), 0);
    }
  }

  /** The products the prover claims at a point. */
  ghost predicate ClaimsAt(m: ConstraintMatrices, u: int, wit: seq<int>, point: seq<int>, az: int, bz: int, cz: int)
    requires ValidMatrices(m) && m.numVars <= |wit| + 1 && |m.a| <= Pow2(|point|)
  {
    var w, z := EqTable(point)[..|m.a|], ZVector(u, wit);
    az == Dot(w, Product(m.a, z)) && bz == Dot(w, Product(m.b, z)) && cz == Dot(w, Product(m.c, z))
  }

  /** The summand at the outer point, from the claimed products and the error's extension. */
  lemma OuterAtPoint(m: ConstraintMatrices, u: int, wit: seq<int>, errors: seq<int>, tau: seq<int>, point: seq<int>,
                     az: int, bz: int, cz: int)
    requires ValidMatrices(m) && m.numVars <= |wit| + 1 && |m.a| <= |errors| == Pow2(|tau|) && |point| == |tau|
    requires ClaimsAt(m, u, wit, point, az, bz, cz)
    ensures OuterAt(u, OuterStart(m, u, wit, errors, tau), point)
         == OuterTerm(u, EqMle(tau, point), az, bz, cz, Mle(errors, point))
  {
    var z := ZVector(u, wit);
    MleOfEqTable(tau, point);
    PaddedMle(Product(m.a, z), point);
    PaddedMle(Product(m.b, z), point);
    PaddedMle(Product(m.c, z), point);
  }

  /** Row-committed openings at a point split into row and entry variables. */
  method OpenGrid(rows: seq<seq<int>>, blindings: seq<int>, d: RowDimensions, point: seq<int>)
    returns (opening: Opening)
    requires Grid(rows, d) && |blindings| == |rows| && IsPow2(d.rowCount) && IsPow2(d.rowLen) && |point| == GridVars(d)
    ensures d.rowCount == Pow2(Log2(d.rowCount))
    ensures opening == OpeningOf(rows, blindings, d.rowLen, point[..Log2(d.rowCount)])
  {
    IsPow2Log(d.rowCount);
    IsPow2Log(d.rowLen);
    FlattenLength(rows, d.rowLen);
    ChunksOfFlatten(rows, d.rowLen);
    var rowVars := Log2(d.rowCount);
    var result := OpenCommittedRows(Flatten(rows), blindings, d.rowLen, point[..rowVars], point[rowVars..]);
    opening := result.value.0;
  }

  /** The opening of a committed grid verifies to the grid's extension. */
  lemma GridOpens(f: Field, setup: Setup, commitments: seq<int>, rows: seq<seq<int>>, blindings: seq<int>,
                  d: RowDimensions, point: seq<int>)
    requires IsField(f) && Grid(rows, d) && IsPow2(d.rowCount) && IsPow2(d.rowLen) && |point| == GridVars(d)
    requires Opens(f, setup, commitments, rows, blindings, d.rowLen)
    ensures d.rowCount == Pow2(Log2(d.rowCount)) && |Flatten(rows)| == Pow2(|point|)
    ensures var k := Log2(d.rowCount);
      VerifiedRows(f, setup, commitments, point[..k], point[k..], OpeningOf(rows, blindings, d.rowLen, point[..k]))
        == Ok(Mle(Flatten(rows), point))
  {
    IsPow2Log(d.rowCount);
    IsPow2Log(d.rowLen);
    var k := Log2(d.rowCount);
    OpeningVerifies(f, setup, commitments, rows, blindings, point[..k], point[k..]);
    assert point[..k] + point[k..] == point;
  }

  /** The proof with the outer phase's fields filled in. */
  ghost predicate ExtendsOuter(before: Proof, after: Proof) {
    after == before.(outerRounds := after.outerRounds, az := after.az, bz := after.bz, cz := after.cz,
                     errorOpening := after.errorOpening)
  }

  ghost predicate OuterShaped(p: BlindFoldProtocol, flat: seq<int>, errorRows: seq<seq<int>>,
                              errorBlindings: seq<int>) {
    var m, d := p.r1cs, p.dimensions.error;
    && ValidMatrices(m) && m.numVars <= |flat| + 1 && |m.a| <= d.rowCount * d.rowLen
    && IsPow2(d.rowCount) && IsPow2(d.rowLen) && Grid(errorRows, d) && |errorBlindings| == |errorRows|
  }

  method ProveOuterPhase(f: Field, p: BlindFoldProtocol, u: int, flat: seq<int>, errorRows: seq<seq<int>>,
                         errorBlindings: seq<int>, partial: Proof, t: Transcript)
    returns (r: Result<(Proof, seq<int>), ProverError>)
    requires IsField(f) && NodesDistinct(f, 4) && OuterShaped(p, flat, errorRows, errorBlindings)
    modifies t
    ensures r.Ok? ==>
      OuterPhaseRun(f, t.oracle, p, u, flat, errorRows, errorBlindings, partial, old(t.log), r.value.0, r.value.1,
                    t.log)
    ensures SplitDims(p.dimensions.error) && ErrorsExact(f, p.r1cs, u, flat, Flatten(errorRows)) ==> r.Ok?
  {
    var m, d := p.r1cs, p.dimensions.error;
    var n := GridVars(d);
    GridVarsSize(d);
    IsPow2Log(d.rowCount);
    FlattenLength(errorRows, d.rowLen);
    t.Append([Label("bf_spartan")]);
    if n == 0 {
      return Err(DegenerateSumcheck);
    }
    var tau := t.ChallengeVector(n);
    var errors := Flatten(errorRows);
    var trace := ProveOuterSumcheck(f, m, u, flat, errors, tau, t);
    if trace.Err? {
      if ErrorsExact(f, m, u, flat, errors) {
        OuterSumZero(f, m, u, flat, errors, tau);
      }
      return Err(OuterFailed(trace.error));
    }
    var point := trace.value.point;
    var rowWeights := Evals(point, 1);
    UnitScale(point);
    var z := ZVector(u, flat);
    var az := ProductAtPoint(m.a, z, rowWeights);
    var bz := ProductAtPoint(m.b, z, rowWeights);
    var cz := ProductAtPoint(m.c, z, rowWeights);
    var opening := OpenGrid(errorRows, errorBlindings, d, point);
    t.Append(ScalarItems(f, "bf_az_bz_cz", [az, bz, cz]));
    t.Append(OpeningItems(f, "bf_error_opening", "bf_error_blind", opening));
    var proof := partial.(outerRounds := trace.value.rounds, az := az, bz := bz, cz := cz, errorOpening := opening);
    r := Ok((proof, point));
  }

  /** What a successful outer phase leaves, in the verifier's terms. */
  ghost predicate OuterPhaseRun(f: Field, oracle: Oracle, p: BlindFoldProtocol, u: int, flat: seq<int>,
                                errorRows: seq<seq<int>>, errorBlindings: seq<int>, partial: Proof, before: seq<Item>,
                                proof: Proof, point: seq<int>, after: seq<Item>)
    requires OuterShaped(p, flat, errorRows, errorBlindings)
  {
    var m, d, log := p.r1cs, p.dimensions.error, before + [Label("bf_spartan")];
    && ExtendsOuter(partial, proof) && SplitDims(d) && AcceptableRounds(proof.outerRounds, GridVars(d), 3)
    && point == OuterReplay(f, oracle, p, proof, log).point && after == OuterLogAfter(f, oracle, p, proof, log)
    && Pow2(GridVars(d)) == |Flatten(errorRows)| && Pow2(Log2(d.rowCount)) == d.rowCount
    && |m.a| <= |Flatten(errorRows)|
    && ClaimsAt(m, u, flat, point, proof.az, proof.bz, proof.cz)
    && proof.errorOpening == OpeningOf(errorRows, errorBlindings, d.rowLen, point[..Log2(d.rowCount)])
    && var start := OuterStart(m, u, flat, Flatten(errorRows), OuterTau(oracle, p, log));
       (Same(f, OuterSum(u, start), 0) ==> Same(f, OuterReplay(f, oracle, p, proof, log).value,
                                                OuterAt(u, start, point)))
  }

  /** The verifier accepts an outer phase run on an exact error. */
  lemma OuterPhaseAccepted(f: Field, setup: Setup, oracle: Oracle, p: BlindFoldProtocol, folded: RelaxedInstance,
                           flat: seq<int>, errorRows: seq<seq<int>>, errorBlindings: seq<int>, partial: Proof,
                           before: seq<Item>, proof: Proof, point: seq<int>, after: seq<Item>)
    requires IsField(f) && OuterShaped(p, flat, errorRows, errorBlindings)
    requires OuterPhaseRun(f, oracle, p, folded.u, flat, errorRows, errorBlindings, partial, before, proof, point,
                           after)
    requires ErrorsExact(f, p.r1cs, folded.u, flat, Flatten(errorRows))
    requires Opens(f, setup, folded.errors, errorRows, errorBlindings, p.dimensions.error.rowLen)
    ensures OuterAccepted(f, setup, oracle, p, folded, proof, before + [Label("bf_spartan")])
  {
    var log, d, errors := before + [Label("bf_spartan")], p.dimensions.error, Flatten(errorRows);
    var tau := OuterTau(oracle, p, log);
    OuterSumZero(f, p.r1cs, folded.u, flat, errors, tau);
    OuterAtPoint(p.r1cs, folded.u, flat, errors, tau, point, proof.az, proof.bz, proof.cz);
    GridOpens(f, setup, folded.errors, errorRows, errorBlindings, d, point);
  }

  // The inner phase.

  /** A claimed product minus its public share is the private part. */
  lemma PrivateShare(rows: seq<SparseRow>, rx: seq<int>, u: int, flat: seq<int>, claimed: int)
    requires |rows| <= Pow2(|rx|) && RowsBelow(rows, |flat| + 1)
    requires claimed == Dot(EqTable(rx)[..|rows|], Product(rows, ZVector(u, flat)))
    ensures PrivateClaim(rows, rx, u, claimed) == Private(rows, EqTable(rx)[..|rows|], u, flat)
  {
  }

  lemma ClaimOfShares(m: ConstraintMatrices, rx: seq<int>, u: int, abc: seq<int>, proof: Proof, x: int, y: int, z: int)
    requires ValidMatrices(m) && |m.a| <= Pow2(|rx|) && |abc| == 3
    requires x == PrivateClaim(m.a, rx, u, proof.az)
    requires y == PrivateClaim(m.b, rx, u, proof.bz)
    requires z == PrivateClaim(m.c, rx, u, proof.cz)
    ensures InnerClaimOf(m, rx, u, proof, abc) == Weighted(abc[0], abc[1], abc[2], x, y, z)
  {
  }

  /** The claimed products minus the public shares are the column form against the witness. */
  lemma ClaimOfForm(m: ConstraintMatrices, rx: seq<int>, u: int, flat: seq<int>, abc: seq<int>, proof: Proof)
    requires ValidMatrices(m) && m.numVars <= |flat| + 1 && |m.a| <= Pow2(|rx|) && |abc| == 3
    requires ClaimsAt(m, u, flat, rx, proof.az, proof.bz, proof.cz)
    ensures InnerClaimOf(m, rx, u, proof, abc)
         == Dot(LinearForm(m, EqTable(rx)[..|m.a|], |flat|, abc[0], abc[1], abc[2]), flat)
  {
    var w := EqTable(rx)[..|m.a|];
    PrivateShare(m.a, rx, u, flat, proof.az);
    PrivateShare(m.b, rx, u, flat, proof.bz);
    PrivateShare(m.c, rx, u, flat, proof.cz);
    ClaimOfShares(m, rx, u, abc, proof, Private(m.a, w, u, flat), Private(m.b, w, u, flat), Private(m.c, w, u, flat));
    InnerClaim(m, w, u, flat, abc[0], abc[1], abc[2]);
  }

  /** The verifier's bilinear evaluation is the column form's extension. */
  lemma FormAtPoint(m: ConstraintMatrices, rx: seq<int>, n: nat, abc: seq<int>, point: seq<int>)
    requires ValidMatrices(m) && |m.a| <= Pow2(|rx|) && |abc| == 3 && n == Pow2(|point|)
    ensures Mle(LinearForm(m, EqTable(rx)[..|m.a|], n, abc[0], abc[1], abc[2]), point) == FormAt(m, rx, point, abc)
  {
    DotIsMle(LinearForm(m, EqTable(rx)[..|m.a|], n, abc[0], abc[1], abc[2]), point);
    LinearFormDot(m, EqTable(rx)[..|m.a|], EqTable(point), abc[0], abc[1], abc[2]);
  }

  ghost predicate InnerShaped(p: BlindFoldProtocol, rows: seq<seq<int>>, blindings: seq<int>, rx: seq<int>) {
    var m, d := p.r1cs, p.dimensions.grid;
    && ValidMatrices(m) && m.numVars <= d.rowCount * d.rowLen + 1 && |m.a| <= Pow2(|rx|)
    && IsPow2(d.rowCount) && IsPow2(d.rowLen) && Grid(rows, d) && |blindings| == |rows|
  }

  ghost predicate ExtendsInner(before: Proof, after: Proof) {
    after == before.(innerRounds := after.innerRounds, rowOpening := after.rowOpening)
  }

  /** What a successful inner phase leaves, in the verifier's terms. */
  ghost predicate InnerPhaseRun(f: Field, oracle: Oracle, p: BlindFoldProtocol, u: int, rows: seq<seq<int>>,
                                blindings: seq<int>, rx: seq<int>, partial: Proof, before: seq<Item>, proof: Proof)
    requires InnerShaped(p, rows, blindings, rx)
  {
    var m, d := p.r1cs, p.dimensions.grid;
    && ExtendsInner(partial, proof) && SplitDims(d) && AcceptableRounds(proof.innerRounds, GridVars(d), 2)
    && |Flatten(rows)| == Pow2(GridVars(d)) == d.rowCount * d.rowLen && Pow2(Log2(d.rowCount)) == d.rowCount
    && var replay := InnerReplay(f, oracle, p, u, rx, proof, before);
    && proof.rowOpening == OpeningOf(rows, blindings, d.rowLen, replay.point[..Log2(d.rowCount)])
    && (ClaimsAt(m, u, Flatten(rows), rx, proof.az, proof.bz, proof.cz) ==>
         Same(f, replay.value,
              FormAt(m, rx, replay.point, Challenges(oracle, before, 3)) * Mle(Flatten(rows), replay.point)))
  }

  /** The prover's claim for the inner sumcheck and its column form. */
  method InnerStatement(f: Field, m: ConstraintMatrices, rx: seq<int>, u: int, n: nat, abc: seq<int>, partial: Proof)
    returns (claim: int, form: seq<int>)
    requires IsField(f) && ValidMatrices(m) && |m.a| <= Pow2(|rx|) && |abc| == 3
    ensures claim == InnerClaimOf(m, rx, u, partial, abc)
    ensures SameVec(f, form, LinearForm(m, EqTable(rx)[..|m.a|], n, abc[0], abc[1], abc[2]))
  {
    var rowWeights := Evals(rx, 1);
    UnitScale(rx);
    var pa := PublicContribution(m.a, rowWeights, 0, u);
    var pb := PublicContribution(m.b, rowWeights, 0, u);
    var pc := PublicContribution(m.c, rowWeights, 0, u);
    claim := Weighted(abc[0], abc[1], abc[2], partial.az - pa, partial.bz - pb, partial.cz - pc);
    form := LinearFormProjectColumns(f, m, rowWeights, n, abc[0], abc[1], abc[2]);
  }

  /** A run of the inner sumcheck on the right claim ends on the verifier's product. */
  lemma InnerRunEnds(f: Field, oracle: Oracle, m: ConstraintMatrices, rx: seq<int>, u: int, flat: seq<int>,
                     abc: seq<int>, proof: Proof, form: seq<int>, numVars: nat, before: seq<Item>, trace: SumcheckTrace,
                     after: seq<Item>)
    requires IsField(f) && ValidMatrices(m) && m.numVars <= |flat| + 1 && |m.a| <= Pow2(|rx|) && |abc| == 3
    requires SameVec(f, form, LinearForm(m, EqTable(rx)[..|m.a|], |flat|, abc[0], abc[1], abc[2]))
    requires |flat| == Pow2(numVars) && ClaimsAt(m, u, flat, rx, proof.az, proof.bz, proof.cz)
    requires InnerRun(f, oracle, form, flat, numVars, InnerClaimOf(m, rx, u, proof, abc), before, trace, after)
    ensures |trace.point| == numVars
    ensures Same(f,
                 ReplayRounds(f, oracle, INNER_LABEL, trace.rounds, InnerClaimOf(m, rx, u, proof, abc), before).value,
                 FormAt(m, rx, trace.point, abc) * Mle(flat, trace.point))
  {
    var exact := LinearForm(m, EqTable(rx)[..|m.a|], |flat|, abc[0], abc[1], abc[2]);
    FormHolds(f, m, rx, u, flat, abc, proof, form);
    FormAtPoint(m, rx, |flat|, abc, trace.point);
    MleSame(f, form, exact, trace.point);
    SameMul(f, Mle(form, trace.point), Mle(exact, trace.point), Mle(flat, trace.point), Mle(flat, trace.point));
  }

  lemma FormHolds(f: Field, m: ConstraintMatrices, rx: seq<int>, u: int, flat: seq<int>, abc: seq<int>, proof: Proof,
                  form: seq<int>)
    requires IsField(f) && ValidMatrices(m) && m.numVars <= |flat| + 1 && |m.a| <= Pow2(|rx|) && |abc| == 3
    requires SameVec(f, form, LinearForm(m, EqTable(rx)[..|m.a|], |flat|, abc[0], abc[1], abc[2]))
    requires ClaimsAt(m, u, flat, rx, proof.az, proof.bz, proof.cz)
    ensures Same(f, InnerClaimOf(m, rx, u, proof, abc), Dot(form, flat))
  {
    ClaimOfForm(m, rx, u, flat, abc, proof);
    DotSame(f, form, flat, LinearForm(m, EqTable(rx)[..|m.a|], |flat|, abc[0], abc[1], abc[2]), flat);
  }

  method ProveInnerPhase(f: Field, p: BlindFoldProtocol, u: int, rows: seq<seq<int>>, blindings: seq<int>, rx: seq<int>,
                         partial: Proof, t: Transcript)
    returns (r: Result<Proof, ProverError>)
    requires IsField(f) && NodesDistinct(f, 3) && InnerShaped(p, rows, blindings, rx)
    modifies t
    ensures r.Ok? ==> InnerPhaseRun(f, t.oracle, p, u, rows, blindings, rx, partial, old(t.log), r.value)
    ensures r.Ok? ==> t.log == InnerReplay(f, t.oracle, p, u, rx, r.value, old(t.log)).log
    ensures FlatSize(rows, p.dimensions.grid)
    ensures SplitDims(p.dimensions.grid) && ClaimsAt(p.r1cs, u, Flatten(rows), rx, partial.az, partial.bz,
                                                     partial.cz) ==>
      r.Ok?
  {
    var m, d := p.r1cs, p.dimensions.grid;
    var n := GridVars(d);
    GridVarsSize(d);
    IsPow2Log(d.rowCount);
    GridFlatSize(rows, d);
    ghost var log := t.log;
    var abc := t.ChallengeVector(3);
    if n == 0 {
      return Err(DegenerateSumcheck);
    }
    var flat := Flatten(rows);
    assert |flat| == Pow2(n);
    var claim, form := InnerStatement(f, m, rx, u, |flat|, abc, partial);
    if ClaimsAt(m, u, flat, rx, partial.az, partial.bz, partial.cz) {
      FormHolds(f, m, rx, u, flat, abc, partial, form);
    }
    ghost var middle := t.log;
    var trace := ProveInnerRounds(f, form, flat, n, claim, t);
    if trace.Err? {
      return Err(InnerFailed(trace.error));
    }
    if ClaimsAt(m, u, flat, rx, partial.az, partial.bz, partial.cz) {
      InnerRunEnds(f, t.oracle, m, rx, u, flat, abc, partial, form, n, middle, trace.value, t.log);
    }
    var opening := OpenGrid(rows, blindings, d, trace.value.point);
    r := Ok(partial.(innerRounds := trace.value.rounds, rowOpening := opening));
    assert InnerReplay(f, t.oracle, p, u, rx, r.value, log) == ReplayRounds(f, t.oracle, INNER_LABEL,
                                                                            trace.value.rounds, claim, middle);
  }

  /** The verifier accepts an inner phase run on the products it was given. */
  lemma InnerPhaseAccepted(f: Field, setup: Setup, oracle: Oracle, p: BlindFoldProtocol, folded: RelaxedInstance,
                           rows: seq<seq<int>>, blindings: seq<int>, rx: seq<int>, partial: Proof, before: seq<Item>,
                           proof: Proof)
    requires IsField(f) && InnerShaped(p, rows, blindings, rx)
    requires InnerPhaseRun(f, oracle, p, folded.u, rows, blindings, rx, partial, before, proof)
    requires FlatSize(rows, p.dimensions.grid)
    requires ClaimsAt(p.r1cs, folded.u, Flatten(rows), rx, proof.az, proof.bz, proof.cz)
    requires Opens(f, setup, folded.rows, rows, blindings, p.dimensions.grid.rowLen)
    ensures InnerAccepted(f, setup, oracle, p, folded, rx, proof, before)
  {
    GridOpens(f, setup, folded.rows, rows, blindings, p.dimensions.grid,
              InnerReplay(f, oracle, p, folded.u, rx, proof, before).point);
  }

  // The instances the prover commits to.

  /** `error_rows_for` and `cross_term_error_rows_for`, cut into rows. */
  function ErrorRows(p: BlindFoldProtocol, u: int, rows: seq<seq<int>>): (e: seq<seq<int>>)
    requires WellFormed(p) && FlatSize(rows, p.dimensions.grid)
    ensures Grid(e, p.dimensions.error)
  {
    Chunks(Errors(p.r1cs, u, Flatten(rows)), p.dimensions.error.rowLen, p.dimensions.error.rowCount)
  }

  function CrossRows(p: BlindFoldProtocol, rows: seq<seq<int>>, u: int, maskRows: seq<seq<int>>): (e: seq<seq<int>>)
    requires WellFormed(p) && FlatSize(rows, p.dimensions.grid) && FlatSize(maskRows, p.dimensions.grid)
    ensures Grid(e, p.dimensions.error)
  {
    Chunks(CrossErrors(p.r1cs, 1, Flatten(rows), u, Flatten(maskRows)), p.dimensions.error.rowLen,
           p.dimensions.error.rowCount)
  }

  function ZeroRows(d: RowDimensions): (rows: seq<seq<int>>)
    ensures Grid(rows, d) && forall i :: 0 <= i < |rows| ==> rows[i] == Zeros(d.rowLen)
  {
    seq(d.rowCount, _ => Zeros(d.rowLen))
  }

  function CommitRange(setup: Setup, rows: seq<seq<int>>, blindings: seq<int>, d: RowDimensions,
                       range: Range): (c: seq<int>)
    requires Grid(rows, d) && |blindings| == |rows| && d.rowLen <= Capacity(setup) && range.start <= range.end <= |rows|
    ensures |c| == range.end - range.start
    ensures forall i {:trigger c[i]} :: 0 <= i < |c| ==>
      c[i] == Commit(setup, rows[range.start + i], blindings[range.start + i])
  {
    CommitRows(setup, rows[range.start..range.end], blindings[range.start..range.end], d.rowLen)
  }

  function CommitScalars(setup: Setup, values: seq<int>, blindings: seq<int>): (c: seq<int>)
    requires |values| == |blindings| && 1 <= Capacity(setup)
    ensures |c| == |values| && forall i {:trigger c[i]} :: 0 <= i < |c| ==>
      c[i] == Commit(setup, [values[i]], blindings[i])
  {
    seq(|values|, i requires 0 <= i < |values| => Commit(setup, [values[i]], blindings[i]))
  }

  ghost predicate Ready(setup: Setup, p: BlindFoldProtocol, w: BlindFoldWitness, r: Randomness, mask: Mask) {
    && WellFormed(p) && WitnessShaped(p, w) && RandomnessShaped(p, r) && FitsSetup(p, setup) && MaskPrepared(p, r, mask)
    && FlatSize(w.rows, p.dimensions.grid) && FlatSize(mask.rows, p.dimensions.grid)
  }

  /** Everything the proof commits to: the witness's auxiliary rows, the masked
      random grid and its exact errors, and the cross terms. */
  function CommitmentsOf(setup: Setup, p: BlindFoldProtocol, w: BlindFoldWitness, r: Randomness,
                         mask: Mask): (c: Commitments)
    requires Ready(setup, p, w, r, mask)
  {
    var d := p.dimensions;
    Commitments(
      CommitRange(setup, w.rows, w.blindings, d.grid, d.rows.auxiliary),
      CommitRange(setup, mask.rows, mask.blindings, d.grid, d.rows.coefficients),
      CommitRange(setup, mask.rows, mask.blindings, d.grid, d.rows.outputClaims),
      CommitRange(setup, mask.rows, mask.blindings, d.grid, d.rows.auxiliary),
      CommitRows(setup, ErrorRows(p, r.u, mask.rows), r.errorBlindings, d.error.rowLen),
      CommitScalars(setup, r.evalOutputs, r.evalBlindings),
      r.u,
      CommitRows(setup, CrossRows(p, w.rows, r.u, mask.rows), r.crossBlindings, d.error.rowLen))
  }

  lemma CommittedOpens(f: Field, setup: Setup, p: BlindFoldProtocol, w: BlindFoldWitness, auxiliary: seq<int>)
    requires WellFormed(p) && WitnessShaped(p, w) && FitsSetup(p, setup) && PublicRowsOpen(f, setup, p, w)
    requires auxiliary == CommitRange(setup, w.rows, w.blindings, p.dimensions.grid, p.dimensions.rows.auxiliary)
    ensures CommittedInstance(p, auxiliary).Ok?
    ensures Opens(f, setup, CommittedInstance(p, auxiliary).value.rows, w.rows, w.blindings, p.dimensions.grid.rowLen)
  {
    AssembledOpen(f, setup, p.dimensions, p.roundCommitments, p.outputClaimCommitments, auxiliary, w.rows, w.blindings);
  }

  lemma RandomOpens(f: Field, setup: Setup, p: BlindFoldProtocol, w: BlindFoldWitness, r: Randomness, mask: Mask)
    requires Ready(setup, p, w, r, mask)
    ensures var c := CommitmentsOf(setup, p, w, r, mask);
      RandomInstance(p, c).Ok? && Opens(f, setup, RandomInstance(p, c).value.rows, mask.rows, mask.blindings,
                                        p.dimensions.grid.rowLen)
  {
    hide Commit, Dot;
    var d, c := p.dimensions, CommitmentsOf(setup, p, w, r, mask);
    forall i | d.rows.padding.start <= i < |mask.rows| ensures Commit(setup, mask.rows[i], mask.blindings[i]) == 0 {
      ZeroCommitment(setup, mask.rows[i]);
    }
    AssembledOpen(f, setup, d, c.randomRounds, c.randomOutputClaims, c.randomAuxiliary, mask.rows, mask.blindings);
  }

  /** Whatever the witness holds, its shape is enough for the instances to assemble. */
  lemma Assembles(setup: Setup, p: BlindFoldProtocol, w: BlindFoldWitness, r: Randomness, mask: Mask)
    requires Ready(setup, p, w, r, mask)
    ensures InstancesAssemble(p, CommitmentsOf(setup, p, w, r, mask))
  {
  }

  // The folded witness.

  datatype Folding = Folding(
    u: int, rows: seq<seq<int>>, blindings: seq<int>, errorRows: seq<seq<int>>, errorBlindings: seq<int>,
    evalOutputs: seq<int>, evalBlindings: seq<int>)

  function FoldWitness(setup: Setup, p: BlindFoldProtocol, w: BlindFoldWitness, r: Randomness, mask: Mask,
                       c: int): (g: Folding)
    requires Ready(setup, p, w, r, mask)
    ensures FoldingShaped(p, g)
  {
    var d := p.dimensions;
    Folding(
      1 + c * r.u,
      FoldRows(w.rows, mask.rows, d.grid.rowLen, c),
      Folded(w.blindings, mask.blindings, c),
      FoldErrorRows(ZeroRows(d.error), CrossRows(p, w.rows, r.u, mask.rows), ErrorRows(p, r.u, mask.rows),
                    d.error.rowLen, c),
      FoldedError(Zeros(d.error.rowCount), r.crossBlindings, r.errorBlindings, c),
      Folded(w.evalOutputs, r.evalOutputs, c),
      Folded(w.evalBlindings, r.evalBlindings, c))
  }

  ghost predicate FoldingShaped(p: BlindFoldProtocol, g: Folding) {
    && Grid(g.rows, p.dimensions.grid) && |g.blindings| == |g.rows|
    && Grid(g.errorRows, p.dimensions.error) && |g.errorBlindings| == |g.errorRows|
    && |g.evalOutputs| == |g.evalBlindings| == |p.evalCommitments|
  }

  /** What folding an honest witness gives, against the instance the verifier folds. */
  ghost predicate FoldingRight(f: Field, setup: Setup, p: BlindFoldProtocol, instance: RelaxedInstance, g: Folding)
    requires WellFormed(p) && FitsSetup(p, setup) && FoldingShaped(p, g)
  {
    && g.u == instance.u
    && Opens(f, setup, instance.rows, g.rows, g.blindings, p.dimensions.grid.rowLen)
    && Opens(f, setup, instance.errors, g.errorRows, g.errorBlindings, p.dimensions.error.rowLen)
    && EvalCommitmentsOpen(f, setup, instance.evals, g.evalOutputs, g.evalBlindings)
    && SlotsHold(f, SlotsOf(p), g.rows, g.evalOutputs, g.evalBlindings)
    && FlatSize(g.rows, p.dimensions.grid)
    && ErrorsExact(f, p.r1cs, g.u, Flatten(g.rows), Flatten(g.errorRows))
  }

  lemma FoldedErrorsOpen(f: Field, setup: Setup, p: BlindFoldProtocol, w: BlindFoldWitness, r: Randomness, mask: Mask,
                         c: int)
    requires IsField(f) && Ready(setup, p, w, r, mask)
    ensures var g, k := FoldWitness(setup, p, w, r, mask, c), CommitmentsOf(setup, p, w, r, mask);
      Opens(f, setup, FoldedError(Zeros(p.dimensions.error.rowCount), k.crossErrors, k.randomErrors, c), g.errorRows,
            g.errorBlindings, p.dimensions.error.rowLen)
  {
    var d, k := p.dimensions.error, CommitmentsOf(setup, p, w, r, mask);
    var zero, cross, errors := ZeroRows(d), CrossRows(p, w.rows, r.u, mask.rows), ErrorRows(p, r.u, mask.rows);
    forall i | 0 <= i < d.rowCount ensures Commit(setup, zero[i], 0) == 0 {
      ZeroCommitment(setup, zero[i]);
    }
    FoldErrorOpens(f, setup, Zeros(d.rowCount), zero, Zeros(d.rowCount), k.crossErrors, cross, r.crossBlindings,
                   k.randomErrors, errors, r.errorBlindings, d.rowLen, c);
  }

  lemma FoldedEvalsOpen(f: Field, setup: Setup, base: seq<int>, outputs: seq<int>, blindings: seq<int>,
                        random: seq<int>, outputs': seq<int>, blindings': seq<int>, c: int)
    requires IsField(f) && 1 <= Capacity(setup)
    requires |base| == |random| && EvalCommitmentsOpen(f, setup, base, outputs, blindings)
    requires EvalCommitmentsOpen(f, setup, random, outputs', blindings')
    ensures EvalCommitmentsOpen(f, setup, Folded(base, random, c), Folded(outputs, outputs', c),
                                Folded(blindings, blindings', c))
  {
    forall i | 0 <= i < |base|
      ensures VerifyCommitment(f, setup, Folded(base, random, c)[i], [Folded(outputs, outputs', c)[i]],
                               Folded(blindings, blindings', c)[i])
    {
      FoldedCommitment(f, setup, base[i], [outputs[i]], blindings[i], random[i], [outputs'[i]], blindings'[i], c);
      assert VAdd([outputs[i]], Scale(c, [outputs'[i]])) == [Folded(outputs, outputs', c)[i]];
    }
  }

  lemma FlattenZeroRows(d: RowDimensions)
    ensures Flatten(ZeroRows(d)) == Zeros(d.rowCount * d.rowLen)
  {
    assert 0 <= d.rowCount * d.rowLen;
    assert ZeroRows(d) == Chunks([], d.rowLen, d.rowCount) by {
      forall i | 0 <= i < d.rowCount ensures ZeroRows(d)[i] == Chunks([], d.rowLen, d.rowCount)[i] {
        forall e | 0 <= e < d.rowLen ensures Chunks([], d.rowLen, d.rowCount)[i][e] == Zeros(d.rowLen)[e] {
          assert Chunks([], d.rowLen, d.rowCount)[i][e] == At([], i * d.rowLen + e);
        }
      }
    }
    FlattenOfChunks([], d.rowLen, d.rowCount);
  }

  /** The folded grid's residuals are exactly the folded error rows. */
  lemma FoldedErrorsExact(f: Field, setup: Setup, p: BlindFoldProtocol, w: BlindFoldWitness, r: Randomness, mask: Mask,
                          c: int)
    requires IsField(f) && Ready(setup, p, w, r, mask)
    requires Satisfies(f, p.r1cs, 1, Flatten(w.rows), Zeros(|p.r1cs.a|))
    ensures var g := FoldWitness(setup, p, w, r, mask, c);
      FlatSize(g.rows, p.dimensions.grid) && ErrorsExact(f, p.r1cs, g.u, Flatten(g.rows), Flatten(g.errorRows))
  {
    hide Flatten, Satisfies, ErrorsExact, CrossErrors, Errors, FoldedError, Folded;
    var m, d, g := p.r1cs, p.dimensions, FoldWitness(setup, p, w, r, mask, c);
    var w1, w2 := Flatten(w.rows), Flatten(mask.rows);
    var cross, errors := CrossErrors(m, 1, w1, r.u, w2), Errors(m, r.u, w2);
    var n := d.error.rowCount * d.error.rowLen;
    FoldedFlats(setup, p, w, r, mask, c, n);
    FoldSatisfiesIff(f, m, 1, w1, Zeros(|m.a|), r.u, w2, c);
    PaddedErrorsExact(f, m, g.u, Flatten(g.rows), cross, errors, n, c);
  }

  /** The folded grids, flattened. */
  lemma FoldedFlats(setup: Setup, p: BlindFoldProtocol, w: BlindFoldWitness, r: Randomness, mask: Mask, c: int, n: nat)
    requires Ready(setup, p, w, r, mask) && n == p.dimensions.error.rowCount * p.dimensions.error.rowLen
    ensures var m, g, w1, w2 := p.r1cs, FoldWitness(setup, p, w, r, mask, c), Flatten(w.rows), Flatten(mask.rows);
      && |m.a| <= n && FlatSize(g.rows, p.dimensions.grid) && |w1| == |w2| && Flatten(g.rows) == Folded(w1, w2, c)
      && var pad := Zeros(n - |m.a|);
         Flatten(g.errorRows) == FoldedError(Zeros(n), CrossErrors(m, 1, w1, r.u, w2) + pad, Errors(m, r.u, w2) + pad,
                                             c)
  {
    var d, g := p.dimensions, FoldWitness(setup, p, w, r, mask, c);
    GridFlatSize(g.rows, d.grid);
    FlattenFold(w.rows, mask.rows, d.grid.rowLen, c);
    FlattenFoldError(ZeroRows(d.error), CrossRows(p, w.rows, r.u, mask.rows), ErrorRows(p, r.u, mask.rows),
                     d.error.rowLen, c);
    FlattenZeroRows(d.error);
    FlattenOfChunks(CrossErrors(p.r1cs, 1, Flatten(w.rows), r.u, Flatten(mask.rows)), d.error.rowLen, d.error.rowCount);
    FlattenOfChunks(Errors(p.r1cs, r.u, Flatten(mask.rows)), d.error.rowLen, d.error.rowCount);
  }

  lemma PaddedErrorsExact(f: Field, m: ConstraintMatrices, u: int, wit: seq<int>, cross: seq<int>, errors: seq<int>,
                          n: nat, c: int)
    requires ValidMatrices(m) && m.numVars <= |wit| + 1 && |m.a| == |cross| == |errors| <= n
    requires Satisfies(f, m, u, wit, FoldedError(Zeros(|m.a|), cross, errors, c))
    ensures var pad := Zeros(n - |m.a|); ErrorsExact(f, m, u, wit, FoldedError(Zeros(n), cross + pad, errors + pad, c))
  {
    var pad := Zeros(n - |m.a|);
    var short, long := FoldedError(Zeros(|m.a|), cross, errors, c), FoldedError(Zeros(n), cross + pad, errors + pad, c);
    forall k | 0 <= k < |m.a| ensures Same(f, Residual(m, k, u, ZVector(u, wit)), long[k]) {
      assert long[k] == short[k];
      assert Same(f, short[k], Errors(m, u, wit)[k]);
    }
    forall k | |m.a| <= k < n ensures long[k] == 0 {
      assert long[k] == 0 + c * 0 + c * c * 0;
    }
  }

  /** Folding an honest witness into the mask, the openings of every folded
      commitment, the slots and the error rows come out right. */
  lemma HonestFolding(f: Field, setup: Setup, p: BlindFoldProtocol, w: BlindFoldWitness, r: Randomness, mask: Mask,
                      c: int)
    requires IsField(f) && Ready(setup, p, w, r, mask) && Honest(f, setup, p, w)
    ensures var k, g := CommitmentsOf(setup, p, w, r, mask), FoldWitness(setup, p, w, r, mask, c);
      && InstancesAssemble(p, k) && FoldedInstance(p, k, c).Ok?
      && FoldingRight(f, setup, p, FoldedInstance(p, k, c).value, g)
  {
    var k := CommitmentsOf(setup, p, w, r, mask);
    Assembles(setup, p, w, r, mask);
    CommittedOpens(f, setup, p, w, k.auxiliary);
    RandomOpens(f, setup, p, w, r, mask);
    var base, random := CommittedInstance(p, k.auxiliary).value, RandomInstance(p, k).value;
    FoldOpens(f, setup, base.rows, w.rows, w.blindings, random.rows, mask.rows, mask.blindings,
              p.dimensions.grid.rowLen, c);
    FoldedErrorsOpen(f, setup, p, w, r, mask, c);
    FoldedEvalsOpen(f, setup, base.evals, w.evalOutputs, w.evalBlindings, random.evals, r.evalOutputs, r.evalBlindings,
                    c);
    FoldedSlotsHold(f, p, w, r, mask, c);
    FoldedErrorsExact(f, setup, p, w, r, mask, c);
  }

  // The prover as it runs.

  /** Checks, commitments and the masked random instance. */
  method PrepareInstances(f: Field, setup: Setup, p: BlindFoldProtocol, w: BlindFoldWitness, r: Randomness)
    returns (prepared: Result<(Mask, Commitments), ProverError>)
    requires WellFormed(p) && RandomnessShaped(p, r)
    ensures prepared.Ok? <==>
      WitnessShaped(p, w) && FitsSetup(p, setup) && EvalCommitmentsOpen(f, setup, p.evalCommitments, w.evalOutputs,
                                                                        w.evalBlindings)
    ensures prepared.Ok? ==>
      Ready(setup, p, w, r, prepared.value.0) && prepared.value.1 == CommitmentsOf(setup, p, w, r, prepared.value.0)
  {
    var d := p.dimensions;
    var bad := ValidateWitness(setup, p, w);
    if bad.Some? {
      return Err(bad.value);
    }
    var auxiliary := CommitRange(setup, w.rows, w.blindings, d.grid, d.rows.auxiliary);
    bad := CheckEvalCommitments(f, setup, p, w);
    if bad.Some? {
      return Err(bad.value);
    }
    var mask := PrepareMask(p, r);
    GridFlatSize(w.rows, d.grid);
    GridFlatSize(mask.rows, d.grid);
    var errorRows := ErrorRows(p, r.u, mask.rows);
    var rounds := CommitRange(setup, mask.rows, mask.blindings, d.grid, d.rows.coefficients);
    var outputs := CommitRange(setup, mask.rows, mask.blindings, d.grid, d.rows.outputClaims);
    var maskAuxiliary := CommitRange(setup, mask.rows, mask.blindings, d.grid, d.rows.auxiliary);
    var errors := CommitRows(setup, errorRows, r.errorBlindings, d.error.rowLen);
    var evals := CommitScalars(setup, r.evalOutputs, r.evalBlindings);
    var crossRows := CrossRows(p, w.rows, r.u, mask.rows);
    var cross := CommitRows(setup, crossRows, r.crossBlindings, d.error.rowLen);
    prepared := Ok((mask, Commitments(auxiliary, rounds, outputs, maskAuxiliary, errors, evals, r.u, cross)));
  }

  method AppendOpenings(f: Field, kind: Kind, ops: seq<Opening>, t: Transcript)
    modifies t
    ensures t.log == old(t.log) + SameKindItems(f, kind, ops)
  {
    for i := 0 to |ops|
      invariant t.log + SameKindItems(f, kind, ops[i..]) == old(t.log) + SameKindItems(f, kind, ops)
    {
      assert ops[i..][1..] == ops[i + 1..];
      Associative(t.log, SlotItems(f, kind, ops[i]), SameKindItems(f, kind, ops[i + 1..]));
      t.Append(SlotItems(f, kind, ops[i]));
    }
  }

  /** A proof that carries its commitments, the folded scalars and the opened slots, and no sumcheck yet. */
  ghost predicate Opened(p: BlindFoldProtocol, k: Commitments, g: Folding, partial: Proof)
    requires WellFormed(p) && FoldingShaped(p, g)
  {
    && partial.commitments == k && partial.evalOutputs == g.evalOutputs && partial.evalBlindings == g.evalBlindings
    && partial.outputOpenings == SlotOpenings(SlotsOf(p), Output, g.rows, g.blindings)
    && partial.blindingOpenings == SlotOpenings(SlotsOf(p), Blinding, g.rows, g.blindings)
  }

  /** The proof keeps what was opened and adds the two sumchecks. */
  ghost predicate ProofRun(f: Field, oracle: Oracle, p: BlindFoldProtocol, g: Folding, before: seq<Item>,
                           partial: Proof, proof: Proof)
    requires WellFormed(p) && FoldingShaped(p, g) && FlatSize(g.rows, p.dimensions.grid)
  {
    exists middle: Proof, rx: seq<int>, log: seq<Item> ::
      && OuterPhaseRun(f, oracle, p, g.u, Flatten(g.rows), g.errorRows, g.errorBlindings, partial, before, middle, rx,
                       log)
      && InnerShaped(p, g.rows, g.blindings, rx)
      && InnerPhaseRun(f, oracle, p, g.u, g.rows, g.blindings, rx, middle, log, proof)
  }

  /** The prover's transcript stops where the verifier's inner replay does. */
  ghost predicate SumchecksEnd(f: Field, oracle: Oracle, p: BlindFoldProtocol, u: int, proof: Proof, before: seq<Item>,
                               after: seq<Item>)
  {
    && ValidMatrices(p.r1cs) && |p.r1cs.a| <= Pow2(GridVars(p.dimensions.error))
    && AcceptableRounds(proof.outerRounds, GridVars(p.dimensions.error), 3)
    && AcceptableRounds(proof.innerRounds, GridVars(p.dimensions.grid), 2)
    && after == InnerLogAfter(f, oracle, p, u, proof, before + [Label("bf_spartan")])
  }

  method ProveSumchecks(f: Field, p: BlindFoldProtocol, g: Folding, partial: Proof, t: Transcript)
    returns (r: Result<Proof, ProverError>)
    requires IsField(f) && NodesDistinct(f, 4) && WellFormed(p) && FoldingShaped(p, g)
    requires FlatSize(g.rows, p.dimensions.grid)
    modifies t
    ensures r.Ok? ==> ProofRun(f, t.oracle, p, g, old(t.log), partial, r.value)
    ensures r.Ok? ==> SumchecksEnd(f, t.oracle, p, g.u, r.value, old(t.log), t.log)
    ensures (
      && SplitDims(p.dimensions.error) && SplitDims(p.dimensions.grid)
      && ErrorsExact(f, p.r1cs, g.u, Flatten(g.rows), Flatten(g.errorRows))) ==> r.Ok?
  {
    var outer := ProveOuterPhase(f, p, g.u, Flatten(g.rows), g.errorRows, g.errorBlindings, partial, t);
    if outer.Err? {
      return Err(outer.error);
    }
    var (middle, rx) := outer.value;
    ghost var log := t.log;
    FewerNodes(f);
    r := ProveInnerPhase(f, p, g.u, g.rows, g.blindings, rx, middle, t);
  }

  lemma FewerNodes(f: Field)
    requires NodesDistinct(f, 4)
    ensures NodesDistinct(f, 3)
  {
  }

  /** The verifier accepts what an honest folding's proof run produces. */
  lemma ProofRunAccepted(f: Field, setup: Setup, oracle: Oracle, p: BlindFoldProtocol, instance: RelaxedInstance,
                         g: Folding, before: seq<Item>, partial: Proof, proof: Proof)
    requires IsField(f) && WellFormed(p) && FitsSetup(p, setup) && FoldingShaped(p, g)
    requires FoldingRight(f, setup, p, instance, g) && ProofRun(f, oracle, p, g, before, partial, proof)
    ensures var log := before + [Label("bf_spartan")];
      && OuterAccepted(f, setup, oracle, p, instance, proof, log)
      && InnerAccepted(f, setup, oracle, p, instance, OuterReplay(f, oracle, p, proof, log).point, proof,
                       OuterLogAfter(f, oracle, p, proof, log))
    ensures proof == partial.(outerRounds := proof.outerRounds, az := proof.az, bz := proof.bz, cz := proof.cz,
                              errorOpening := proof.errorOpening,
                              innerRounds := proof.innerRounds, rowOpening := proof.rowOpening)
  {
    var middle, rx, log :|
      && OuterPhaseRun(f, oracle, p, g.u, Flatten(g.rows), g.errorRows, g.errorBlindings, partial, before, middle, rx,
                       log)
      && InnerShaped(p, g.rows, g.blindings, rx)
      && InnerPhaseRun(f, oracle, p, g.u, g.rows, g.blindings, rx, middle, log, proof);
    OuterPhaseAccepted(f, setup, oracle, p, instance, Flatten(g.rows), g.errorRows, g.errorBlindings, partial, before,
                       middle, rx, log);
    InnerPhaseAccepted(f, setup, oracle, p, instance, g.rows, g.blindings, rx, middle, log, proof);
  }

  /** The prover's transcript after the folded openings. */
  function ProverLog(f: Field, p: BlindFoldProtocol, k: Commitments, g: Folding, log: seq<Item>): seq<Item>
    requires WellFormed(p) && FoldingShaped(p, g) && InstancesAssemble(p, k)
  {
    FoldLog(f, p, k, log) + [Squeeze]
    + GroupedItems(f, SlotOpenings(SlotsOf(p), Output, g.rows, g.blindings),
                   SlotOpenings(SlotsOf(p), Blinding, g.rows, g.blindings))
  }

  /** A successful run: commitments to a masked random instance, a fold at the
      challenge the transcript gives, the slots' openings and the two sumchecks. */
  ghost predicate Proved(f: Field, setup: Setup, oracle: Oracle, p: BlindFoldProtocol, w: BlindFoldWitness,
                         r: Randomness, log: seq<Item>, mask: Mask, partial: Proof, proof: Proof)
    requires WellFormed(p)
  {
    && Ready(setup, p, w, r, mask)
    && var k := CommitmentsOf(setup, p, w, r, mask);
    && InstancesAssemble(p, k)
    && var g := FoldWitness(setup, p, w, r, mask, oracle(FoldLog(f, p, k, log)));
    && FlatSize(g.rows, p.dimensions.grid) && Opened(p, k, g, partial)
    && ProofRun(f, oracle, p, g, ProverLog(f, p, k, g, log), partial, proof)
  }

  /** `absorb` of everything the folding challenge depends on, and the challenge. */
  method DrawFoldingChallenge(f: Field, p: BlindFoldProtocol, k: Commitments, t: Transcript) returns (c: int)
    requires InstancesAssemble(p, k)
    modifies t
    ensures c == t.oracle(FoldLog(f, p, k, old(t.log))) && t.log == FoldLog(f, p, k, old(t.log)) + [Squeeze]
  {
    var committed, random := CommittedInstance(p, k.auxiliary).value, RandomInstance(p, k).value;
    t.Append(InstanceItems(f, "bf_committed_u", "bf_committed_w", "bf_committed_e", "bf_committed_eval", committed));
    t.Append(InstanceItems(f, "bf_random_u", "bf_random_w", "bf_random_e", "bf_random_eval", random));
    t.Append(ElementItems(f, "bf_cross_e", k.crossErrors));
    c := t.Challenge();
  }

  /** Open the slots of the folded grid and absorb the openings. */
  method ProveOpenings(f: Field, p: BlindFoldProtocol, k: Commitments, g: Folding, t: Transcript)
    returns (r: Result<Proof, ProverError>)
    requires WellFormed(p) && FoldingShaped(p, g)
    modifies t
    ensures r.Ok? ==> Opened(p, k, g, r.value)
    ensures r.Ok? ==> t.log == old(t.log) + GroupedItems(f, r.value.outputOpenings, r.value.blindingOpenings)
    ensures SlotsHold(f, SlotsOf(p), g.rows, g.evalOutputs, g.evalBlindings) ==> r.Ok?
  {
    var openings := OpenSlots(f, p.dimensions.grid, g.rows, g.blindings, SlotsOf(p), g.evalOutputs, g.evalBlindings);
    if openings.Err? {
      return Err(openings.error);
    }
    var (outputs, blinds) := openings.value;
    ghost var log := t.log;
    AppendOpenings(f, Output, outputs, t);
    AppendOpenings(f, Blinding, blinds, t);
    Associative(log, SameKindItems(f, Output, outputs), SameKindItems(f, Blinding, blinds));
    r := Ok(Proof(k, [], 0, 0, 0, [], Opening([], 0), Opening([], 0), g.evalOutputs, g.evalBlindings, outputs, blinds));
  }

  /** `prove_with_row_committer`. Completeness: whatever is drawn and whatever
      the transcript answers, an honest witness is proved, and the verifier
      accepts the proof on the same transcript if the outputs come first among
      the opened slots, which is when both absorb the openings in one order. */
  method Prove(f: Field, setup: Setup, p: BlindFoldProtocol, w: BlindFoldWitness, r: Randomness, t: Transcript)
    returns (result: Result<Proof, ProverError>)
    requires IsField(f) && NodesDistinct(f, 4) && WellFormed(p) && RandomnessShaped(p, r)
    modifies t
    ensures result.Ok? ==>
      exists mask, partial :: Proved(f, setup, t.oracle, p, w, r, old(t.log), mask, partial, result.value)
    ensures Honest(f, setup, p, w) && SplitDims(p.dimensions.error) && SplitDims(p.dimensions.grid) ==> result.Ok?
    ensures Honest(f, setup, p, w) && OutputsFirst(SlotsOf(p)) && result.Ok? ==> (
      && Accepts(f, setup, t.oracle, p, result.value, old(t.log))
      && AcceptedLog(f, setup, t.oracle, p, result.value, old(t.log)) == t.log + WitnessItems(f, result.value))
  {
    var prepared := PrepareInstances(f, setup, p, w, r);
    if prepared.Err? {
      return Err(prepared.error);
    }
    var (mask, k) := prepared.value;
    Assembles(setup, p, w, r, mask);
    var c := DrawFoldingChallenge(f, p, k, t);
    var g := FoldWitness(setup, p, w, r, mask, c);
    GridFlatSize(g.rows, p.dimensions.grid);
    if Honest(f, setup, p, w) {
      HonestFolding(f, setup, p, w, r, mask, c);
    }
    var partial := ProveOpenings(f, p, k, g, t);
    if partial.Err? {
      return Err(partial.error);
    }
    result := ProveSumchecks(f, p, g, partial.value, t);
    if result.Ok? {
      assert Proved(f, setup, t.oracle, p, w, r, old(t.log), mask, partial.value, result.value);
      if Honest(f, setup, p, w) && OutputsFirst(SlotsOf(p)) {
        Completeness(f, setup, t.oracle, p, w, r, old(t.log), mask, partial.value, result.value);
        EndsBefore(f, setup, t.oracle, p, w, r, old(t.log), mask, partial.value, result.value, t.log);
      }
    }
  }

  /** The verifier's transcript ends one opening after the prover's. */
  lemma EndsBefore(f: Field, setup: Setup, oracle: Oracle, p: BlindFoldProtocol, w: BlindFoldWitness, r: Randomness,
                   log: seq<Item>, mask: Mask, partial: Proof, proof: Proof, after: seq<Item>)
    requires IsField(f) && WellFormed(p) && OutputsFirst(SlotsOf(p)) && 1 <= Capacity(setup)
    requires Proved(f, setup, oracle, p, w, r, log, mask, partial, proof)
    requires proof.commitments == partial.commitments && proof.outputOpenings == partial.outputOpenings
    requires proof.blindingOpenings == partial.blindingOpenings
    requires Accepts(f, setup, oracle, p, proof, log)
    requires var k := CommitmentsOf(setup, p, w, r, mask);
      var g := FoldWitness(setup, p, w, r, mask, oracle(FoldLog(f, p, k, log)));
      SumchecksEnd(f, oracle, p, g.u, proof, ProverLog(f, p, k, g, log), after)
    ensures AcceptedLog(f, setup, oracle, p, proof, log) == after + WitnessItems(f, proof)
  {
    hide *;
    OpenedBy(f, setup, oracle, p, w, r, log, mask, partial, proof);
    AcceptedLogIs(f, setup, oracle, p, proof, log);
    var k := CommitmentsOf(setup, p, w, r, mask);
    var g := FoldWitness(setup, p, w, r, mask, oracle(FoldLog(f, p, k, log)));
    FoldedScale(setup, p, w, r, mask, oracle(FoldLog(f, p, k, log)));
    AbsorptionOrder(f, SlotsOf(p), proof.outputOpenings, proof.blindingOpenings);
    SpartanIs(f, p, k, g, proof, log);
    SumchecksStop(f, oracle, p, g.u, proof, ProverLog(f, p, k, g, log), after);
  }

  lemma OpenedBy(f: Field, setup: Setup, oracle: Oracle, p: BlindFoldProtocol, w: BlindFoldWitness, r: Randomness,
                 log: seq<Item>, mask: Mask, partial: Proof, proof: Proof)
    requires WellFormed(p) && Proved(f, setup, oracle, p, w, r, log, mask, partial, proof)
    ensures Ready(setup, p, w, r, mask) && InstancesAssemble(p, CommitmentsOf(setup, p, w, r, mask))
    ensures var k := CommitmentsOf(setup, p, w, r, mask);
      var g := FoldWitness(setup, p, w, r, mask, oracle(FoldLog(f, p, k, log)));
      && FoldingShaped(p, g) && ValidMatrices(p.r1cs) && partial.commitments == k
      && partial.outputOpenings == SlotOpenings(SlotsOf(p), Output, g.rows, g.blindings)
      && partial.blindingOpenings == SlotOpenings(SlotsOf(p), Blinding, g.rows, g.blindings)
  {
    hide ProofRun, CommitmentsOf, FoldWitness;
  }

  lemma FoldedScale(setup: Setup, p: BlindFoldProtocol, w: BlindFoldWitness, r: Randomness, mask: Mask, c: int)
    requires Ready(setup, p, w, r, mask) && InstancesAssemble(p, CommitmentsOf(setup, p, w, r, mask))
    requires FoldedInstance(p, CommitmentsOf(setup, p, w, r, mask), c).Ok?
    ensures FoldedInstance(p, CommitmentsOf(setup, p, w, r, mask), c).value.u
         == FoldWitness(setup, p, w, r, mask, c).u
  {
  }

  lemma SpartanIs(f: Field, p: BlindFoldProtocol, k: Commitments, g: Folding, proof: Proof, log: seq<Item>)
    requires WellFormed(p) && FoldingShaped(p, g) && InstancesAssemble(p, k) && proof.commitments == k
    requires proof.outputOpenings == SlotOpenings(SlotsOf(p), Output, g.rows, g.blindings)
    requires proof.blindingOpenings == SlotOpenings(SlotsOf(p), Blinding, g.rows, g.blindings)
    requires InSlotOrder(f, SlotsOf(p), Aligned(SlotsOf(p), proof.outputOpenings, proof.blindingOpenings))
          == GroupedItems(f, proof.outputOpenings, proof.blindingOpenings)
    ensures SpartanLog(f, p, SlotsOf(p), proof, log) == ProverLog(f, p, k, g, log) + [Label("bf_spartan")]
  {
  }

  lemma SumchecksStop(f: Field, oracle: Oracle, p: BlindFoldProtocol, u: int, proof: Proof, before: seq<Item>,
                      after: seq<Item>)
    requires SumchecksEnd(f, oracle, p, u, proof, before, after)
    ensures ValidMatrices(p.r1cs) && |p.r1cs.a| <= Pow2(GridVars(p.dimensions.error))
    ensures AcceptableRounds(proof.outerRounds, GridVars(p.dimensions.error), 3)
    ensures AcceptableRounds(proof.innerRounds, GridVars(p.dimensions.grid), 2)
    ensures after == InnerLogAfter(f, oracle, p, u, proof, before + [Label("bf_spartan")])
  {
  }

  /** Every successful run from an honest witness is accepted. */
  lemma Completeness(f: Field, setup: Setup, oracle: Oracle, p: BlindFoldProtocol, w: BlindFoldWitness, r: Randomness,
                     log: seq<Item>, mask: Mask, partial: Proof, proof: Proof)
    requires IsField(f) && WellFormed(p) && RandomnessShaped(p, r) && Honest(f, setup, p, w) && OutputsFirst(SlotsOf(p))
    requires Proved(f, setup, oracle, p, w, r, log, mask, partial, proof)
    ensures Accepts(f, setup, oracle, p, proof, log)
  {
    hide *;
    RunParts(f, setup, oracle, p, w, r, log, mask, partial, proof);
    var k := CommitmentsOf(setup, p, w, r, mask);
    var c := oracle(FoldLog(f, p, k, log));
    var g := FoldWitness(setup, p, w, r, mask, c);
    HonestFolding(f, setup, p, w, r, mask, c);
    var instance := FoldedInstance(p, k, c).value;
    FoldedRight(f, setup, p, instance, g);
    ProofRunAccepted(f, setup, oracle, p, instance, g, ProverLog(f, p, k, g, log), partial, proof);
    SlotsAccepted(f, setup, p, instance.rows, g.rows, g.blindings, proof);
    SlotCounts(p, g);
    AbsorptionOrder(f, SlotsOf(p), proof.outputOpenings, proof.blindingOpenings);
    SpartanIs(f, p, k, g, proof, log);
    AcceptsFrom(f, setup, oracle, p, instance, proof, log);
  }

  lemma RunParts(f: Field, setup: Setup, oracle: Oracle, p: BlindFoldProtocol, w: BlindFoldWitness, r: Randomness,
                 log: seq<Item>, mask: Mask, partial: Proof, proof: Proof)
    requires WellFormed(p) && Proved(f, setup, oracle, p, w, r, log, mask, partial, proof)
    ensures Ready(setup, p, w, r, mask) && InstancesAssemble(p, CommitmentsOf(setup, p, w, r, mask))
    ensures FitsSetup(p, setup) && 1 <= Capacity(setup) && ValidMatrices(p.r1cs)
    ensures var k := CommitmentsOf(setup, p, w, r, mask);
      var g := FoldWitness(setup, p, w, r, mask, oracle(FoldLog(f, p, k, log)));
      && FoldingShaped(p, g) && FlatSize(g.rows, p.dimensions.grid) && Grid(g.rows, p.dimensions.grid)
      && partial.commitments == k
      && partial.outputOpenings == SlotOpenings(SlotsOf(p), Output, g.rows, g.blindings)
      && partial.blindingOpenings == SlotOpenings(SlotsOf(p), Blinding, g.rows, g.blindings)
      && partial.evalOutputs == g.evalOutputs && partial.evalBlindings == g.evalBlindings
      && |g.evalOutputs| == |g.evalBlindings| == |p.finalOpenings|
      && ProofRun(f, oracle, p, g, ProverLog(f, p, k, g, log), partial, proof)
  {
    hide ProofRun, CommitmentsOf, FoldWitness, ProverLog;
  }

  lemma FoldedRight(f: Field, setup: Setup, p: BlindFoldProtocol, instance: RelaxedInstance, g: Folding)
    requires WellFormed(p) && FitsSetup(p, setup) && FoldingShaped(p, g) && FoldingRight(f, setup, p, instance, g)
    ensures Opens(f, setup, instance.rows, g.rows, g.blindings, p.dimensions.grid.rowLen) && 1 <= Capacity(setup)
    ensures EvalCommitmentsOpen(f, setup, instance.evals, g.evalOutputs, g.evalBlindings)
    ensures SlotsHold(f, SlotsOf(p), g.rows, g.evalOutputs, g.evalBlindings)
    ensures FinalOpeningCoordinates(p.dimensions, p.finalOpenings).Ok? && |p.finalOpenings| == |instance.evals|
  {
    hide Opens, SlotsHold, ErrorsExact;
  }

  lemma SlotCounts(p: BlindFoldProtocol, g: Folding)
    requires WellFormed(p) && FoldingShaped(p, g)
    ensures |SlotOpenings(SlotsOf(p), Output, g.rows, g.blindings)| == Count(SlotsOf(p), Output)
    ensures |SlotOpenings(SlotsOf(p), Blinding, g.rows, g.blindings)| == Count(SlotsOf(p), Blinding)
  {
  }

  lemma AcceptsFrom(f: Field, setup: Setup, oracle: Oracle, p: BlindFoldProtocol, instance: RelaxedInstance,
                    proof: Proof, log: seq<Item>)
    requires ValidMatrices(p.r1cs) && 1 <= Capacity(setup) && InstancesAssemble(p, proof.commitments)
    requires FoldedInstance(p, proof.commitments, oracle(FoldLog(f, p, proof.commitments, log))) == Ok(instance)
    requires EvalCommitmentsOpen(f, setup, instance.evals, proof.evalOutputs, proof.evalBlindings)
    requires FinalOpeningCoordinates(p.dimensions, p.finalOpenings).Ok? && |p.finalOpenings| == |instance.evals|
    requires BindingsAccepted(f, setup, instance.rows, SlotsOf(p), proof)
    requires Count(SlotsOf(p), Output) == |proof.outputOpenings|
    requires Count(SlotsOf(p), Blinding) == |proof.blindingOpenings|
    requires var spartan := SpartanLog(f, p, SlotsOf(p), proof, log);
      && OuterAccepted(f, setup, oracle, p, instance, proof, spartan)
      && InnerAccepted(f, setup, oracle, p, instance, OuterReplay(f, oracle, p, proof, spartan).point, proof,
                       OuterLogAfter(f, oracle, p, proof, spartan))
    ensures Accepts(f, setup, oracle, p, proof, log)
  {
    hide FoldedInstance, BindingsAccepted, OuterAccepted, InnerAccepted, EvalCommitmentsOpen, SpartanLog, FoldLog;
    hide InstancesAssemble, FinalOpeningCoordinates, Slots;
  }

  /** After the openings the two transcripts give the same next challenge, for
      every challenge function, if and only if the outputs come first. */
  lemma ChallengesAgree(f: Field, p: BlindFoldProtocol, k: Commitments, g: Folding, log: seq<Item>)
    requires WellFormed(p) && FoldingShaped(p, g) && InstancesAssemble(p, k)
    ensures var slots := SlotsOf(p);
      var outputs, blindings := SlotOpenings(slots, Output, g.rows, g.blindings),
                                SlotOpenings(slots, Blinding, g.rows, g.blindings);
      var prover := ProverLog(f, p, k, g, log);
      var verifier := FoldLog(f, p, k, log) + [Squeeze] + InSlotOrder(f, slots, Aligned(slots, outputs, blindings));
      (forall oracle: Oracle :: oracle(prover + [Label("bf_spartan")]) == oracle(verifier + [Label("bf_spartan")]))
      <==> OutputsFirst(slots)
  {
    var slots := SlotsOf(p);
    var outputs, blindings := SlotOpenings(slots, Output, g.rows, g.blindings),
                              SlotOpenings(slots, Blinding, g.rows, g.blindings);
    var shared := FoldLog(f, p, k, log) + [Squeeze];
    var a, b := GroupedItems(f, outputs, blindings), InSlotOrder(f, slots, Aligned(slots, outputs, blindings));
    AbsorptionOrder(f, slots, outputs, blindings);
    AnswersAgree(shared, a, b);
  }

  lemma AnswersAgree(shared: seq<Item>, a: seq<Item>, b: seq<Item>)
    ensures (forall oracle: Oracle ::
              oracle(shared + a + [Label("bf_spartan")]) == oracle(shared + b + [Label("bf_spartan")])) <==>
      a == b
  {
    var x, y := shared + a + [Label("bf_spartan")], shared + b + [Label("bf_spartan")];
    if x == y {
      assert shared + a == x[..|x| - 1] == y[..|y| - 1] == shared + b;
      CancelHead(shared, a, b);
    } else {
      var telling: Oracle := items => if items == x then 1 else 0;
      assert telling(x) != telling(y);
    }
  }
}
