/** What acceptance means: for a proof that opens the folded grids as they are,
    exactly which equations; and how an accepted proof stops being one. */
module Acceptance {
  import opened Results
  import opened Fields
  import opened IntDivision
  import opened Vectors
  import opened Multilinear
  import opened Matrices
  import opened EqTables
  import opened Univariate
  import opened R1cs
  import opened RowCommitment
  import opened Compressed
  import opened Transcripts
  import opened Sumcheck
  import opened Protocol
  import opened Verifier
  import opened Prover
  import opened Rejection

  // The final openings, by variable.

  /** Variable `v` of the flattened grid holds `x`, and the rest of its row is zero. */
  ghost predicate AloneInRow(f: Field, flat: seq<int>, len: nat, v: nat, x: int) {
    && 0 < len && 1 <= v <= |flat| && Same(f, flat[v - 1], x)
    && forall j :: 0 <= j < |flat| && j / len == (v - 1) / len && j != v - 1 ==> Same(f, flat[j], 0)
  }

  /** Every final opening's variables hold its two scalars alone in their rows. */
  ghost predicate ScalarsAlone(f: Field, flat: seq<int>, len: nat, openings: seq<FinalOpening>, outputs: seq<int>,
                               blindings: seq<int>)
    requires |openings| <= |outputs| && |openings| <= |blindings|
  {
    forall i :: 0 <= i < |openings| ==>
      && (openings[i].evaluation.Some? ==> AloneInRow(f, flat, len, openings[i].evaluation.value, outputs[i]))
      && (openings[i].blinding.Some? ==> AloneInRow(f, flat, len, openings[i].blinding.value, blindings[i]))
  }

  /** The same at a coordinate. */
  ghost predicate HeldAt(f: Field, rows: seq<seq<int>>, at: Coordinate, x: int) {
    && at.row < |rows| && at.column < |rows[at.row]| && Same(f, rows[at.row][at.column], x)
    && forall k :: 0 <= k < |rows[at.row]| && k != at.column ==> Same(f, rows[at.row][k], 0)
  }

  ghost predicate CoordinatesHeld(f: Field, rows: seq<seq<int>>, coordinates: seq<FinalCoordinates>, first: nat,
                                  outputs: seq<int>, blindings: seq<int>)
    requires first + |coordinates| <= |outputs| && first + |coordinates| <= |blindings|
  {
    forall i :: 0 <= i < |coordinates| ==> OneHeld(f, rows, coordinates[i], outputs[first + i], blindings[first + i])
  }

  ghost predicate OneHeld(f: Field, rows: seq<seq<int>>, c: FinalCoordinates, output: int, blinding: int) {
    && (c.evaluation.Some? ==> HeldAt(f, rows, c.evaluation.value, output))
    && (c.blinding.Some? ==> HeldAt(f, rows, c.blinding.value, blinding))
  }

  ghost predicate SlotsHeld(f: Field, rows: seq<seq<int>>, slots: seq<Slot>, outputs: seq<int>, blindings: seq<int>)
    requires SlotsWithin(slots, |outputs|) && SlotsWithin(slots, |blindings|)
  {
    forall k :: 0 <= k < |slots| ==> HeldAt(f, rows, slots[k].at, SlotValue(slots[k], outputs, blindings))
  }

  lemma SlotsHeldConcat(f: Field, rows: seq<seq<int>>, a: seq<Slot>, b: seq<Slot>, outputs: seq<int>,
                        blindings: seq<int>)
    requires SlotsWithin(a, |outputs|) && SlotsWithin(a, |blindings|)
    requires SlotsWithin(b, |outputs|) && SlotsWithin(b, |blindings|)
    ensures SlotsWithin(a + b, |outputs|) && SlotsWithin(a + b, |blindings|)
    ensures SlotsHeld(f, rows, a + b, outputs, blindings)
       <==> SlotsHeld(f, rows, a, outputs, blindings) && SlotsHeld(f, rows, b, outputs, blindings)
  {
    hide HeldAt, SlotValue;
    if SlotsHeld(f, rows, a + b, outputs, blindings) {
      forall k | 0 <= k < |a| ensures HeldAt(f, rows, a[k].at, SlotValue(a[k], outputs, blindings)) {
        assert (a + b)[k] == a[k];
      }
      forall k | 0 <= k < |b| ensures HeldAt(f, rows, b[k].at, SlotValue(b[k], outputs, blindings)) {
        assert (a + b)[|a| + k] == b[k];
      }
    }
  }

  /** Slot by slot is opening by opening. */
  lemma {:induction false} SlotsAreCoordinates(f: Field, rows: seq<seq<int>>, coordinates: seq<FinalCoordinates>,
                                               first: nat, outputs: seq<int>, blindings: seq<int>)
    requires first + |coordinates| <= |outputs| && first + |coordinates| <= |blindings|
    ensures var slots := Slots(coordinates, first);
      && SlotsWithin(slots, |outputs|) && SlotsWithin(slots, |blindings|)
      && (SlotsHeld(f, rows, slots, outputs, blindings)
          <==> CoordinatesHeld(f, rows, coordinates, first, outputs, blindings))
  {
    SlotIndices(coordinates, first);
    if coordinates != [] {
      var c, rest := coordinates[0], coordinates[1..];
      var a := if c.evaluation.Some? then [Slot(Output, first, c.evaluation.value)] else [];
      var b := if c.blinding.Some? then [Slot(Blinding, first, c.blinding.value)] else [];
      SlotsAreCoordinates(f, rows, rest, first + 1, outputs, blindings);
      OwnSlots(f, rows, c, first, outputs, blindings);
      SlotsHeldConcat(f, rows, a, b, outputs, blindings);
      SlotsHeldConcat(f, rows, a + b, Slots(rest, first + 1), outputs, blindings);
      CoordinatesHeldTail(f, rows, coordinates, first, outputs, blindings);
      assert Slots(coordinates, first) == a + b + Slots(rest, first + 1);
    }
  }

  lemma OwnSlots(f: Field, rows: seq<seq<int>>, c: FinalCoordinates, first: nat, outputs: seq<int>, blindings: seq<int>)
    requires first < |outputs| && first < |blindings|
    ensures var a := if c.evaluation.Some? then [Slot(Output, first, c.evaluation.value)] else [];
      var b := if c.blinding.Some? then [Slot(Blinding, first, c.blinding.value)] else [];
      SlotsHeld(f, rows, a, outputs, blindings) && SlotsHeld(f, rows, b, outputs, blindings)
      <==> OneHeld(f, rows, c, outputs[first], blindings[first])
  {
    hide HeldAt;
    var a := if c.evaluation.Some? then [Slot(Output, first, c.evaluation.value)] else [];
    var b := if c.blinding.Some? then [Slot(Blinding, first, c.blinding.value)] else [];
    assert c.evaluation.Some? ==> a[0] == Slot(Output, first, c.evaluation.value);
    assert c.blinding.Some? ==> b[0] == Slot(Blinding, first, c.blinding.value);
  }

  lemma CoordinatesHeldTail(f: Field, rows: seq<seq<int>>, coordinates: seq<FinalCoordinates>, first: nat,
                            outputs: seq<int>, blindings: seq<int>)
    requires coordinates != [] && first + |coordinates| <= |outputs| && first + |coordinates| <= |blindings|
    ensures CoordinatesHeld(f, rows, coordinates, first, outputs, blindings)
       <==> OneHeld(f, rows, coordinates[0], outputs[first], blindings[first])
            && CoordinatesHeld(f, rows, coordinates[1..], first + 1, outputs, blindings)
  {
    hide OneHeld;
    var rest := coordinates[1..];
    assert forall i :: 0 <= i < |rest| ==> rest[i] == coordinates[i + 1];
    if CoordinatesHeld(f, rows, coordinates, first, outputs, blindings) {
      forall i | 0 <= i < |rest| ensures OneHeld(f, rows, rest[i], outputs[first + 1 + i], blindings[first + 1 + i]) {
        assert OneHeld(f, rows, coordinates[i + 1], outputs[first + (i + 1)], blindings[first + (i + 1)]);
      }
    }
    if OneHeld(f, rows, coordinates[0], outputs[first], blindings[first])
       && CoordinatesHeld(f, rows, rest, first + 1, outputs, blindings)
    {
      forall i | 0 <= i < |coordinates|
        ensures OneHeld(f, rows, coordinates[i], outputs[first + i], blindings[first + i])
      {
        if i > 0 {
          assert OneHeld(f, rows, rest[i - 1], outputs[first + 1 + (i - 1)], blindings[first + 1 + (i - 1)]);
        }
      }
    }
  }

  /** Where entry `k` of a row lies in the flattened grid. */
  function Place(row: nat, len: nat, k: nat): (j: nat) {
    row * len + k
  }

  lemma PlaceHolds(rows: seq<seq<int>>, len: nat, row: nat, k: nat)
    requires Uniform(rows, len) && row < |rows| && k < len
    ensures var j := Place(row, len, k);
      j < |Flatten(rows)| && j / len == row && j % len == k && Flatten(rows)[j] == rows[row][k]
  {
    FlattenAt(rows, len, row, k);
    DivModUnique(row * len + k, len, row, k);
  }

  lemma PlaceOf(j: nat, len: nat)
    requires 0 < len
    ensures Place(j / len, len, j % len) == j && j % len < len
  {
  }

  /** An entry alone in its row is alone among the entries of the flattened row. */
  lemma RowIsStretch(f: Field, rows: seq<seq<int>>, len: nat, row: nat, column: nat, x: int)
    requires Uniform(rows, len) && row < |rows| && column < len
    ensures HeldAt(f, rows, Coordinate(row, column), x)
       <==> AloneInRow(f, Flatten(rows), len, Place(row, len, column) + 1, x)
  {
    hide Place, Flatten, Same;
    var e, flat := Place(row, len, column), Flatten(rows);
    PlaceHolds(rows, len, row, column);
    if HeldAt(f, rows, Coordinate(row, column), x) {
      forall j | 0 <= j < |flat| && j / len == row && j != e ensures Same(f, flat[j], 0) {
        PlaceOf(j, len);
        PlaceHolds(rows, len, row, j % len);
      }
    }
    if AloneInRow(f, flat, len, e + 1, x) {
      forall k | 0 <= k < len && k != column ensures Same(f, rows[row][k], 0) {
        PlaceHolds(rows, len, row, k);
      }
    }
  }

  /** A coordinate's entry is its variable's, and its row the variable's row. */
  lemma HeldIsAlone(f: Field, d: Dimensions, rows: seq<seq<int>>, v: nat, x: int)
    requires WitnessCoordinate(d, v).Ok? && Grid(rows, d.grid)
    ensures HeldAt(f, rows, WitnessCoordinate(d, v).value, x)
       <==> AloneInRow(f, Flatten(rows), d.grid.rowLen, v, x)
  {
    hide HeldAt, AloneInRow, WitnessCoordinate, Flatten;
    var at := WitnessCoordinate(d, v).value;
    CoordinateNamesEntry(d, rows, v);
    RowIsStretch(f, rows, d.grid.rowLen, at.row, at.column, x);
  }

  /** Each final opening's coordinates are its variables'. */
  lemma {:induction false} CoordinatesOfVariables(d: Dimensions, openings: seq<FinalOpening>)
    requires FinalOpeningCoordinates(d, openings).Ok?
    ensures var c := FinalOpeningCoordinates(d, openings).value;
      forall i :: 0 <= i < |openings| ==>
        && FinalCoordinate(d, openings[i].evaluation) == Ok(c[i].evaluation)
        && FinalCoordinate(d, openings[i].blinding) == Ok(c[i].blinding)
  {
    hide FinalCoordinate;
    if openings != [] {
      CoordinatesOfVariables(d, openings[1..]);
    }
  }

  lemma OneHeldIsAlone(f: Field, d: Dimensions, rows: seq<seq<int>>, o: FinalOpening, c: FinalCoordinates, x: int,
                       y: int)
    requires Grid(rows, d.grid)
    requires FinalCoordinate(d, o.evaluation) == Ok(c.evaluation) && FinalCoordinate(d, o.blinding) == Ok(c.blinding)
    ensures OneHeld(f, rows, c, x, y) <==>
      && (o.evaluation.Some? ==> AloneInRow(f, Flatten(rows), d.grid.rowLen, o.evaluation.value, x))
      && (o.blinding.Some? ==> AloneInRow(f, Flatten(rows), d.grid.rowLen, o.blinding.value, y))
  {
    hide HeldAt, AloneInRow, WitnessCoordinate;
    if o.evaluation.Some? {
      HeldIsAlone(f, d, rows, o.evaluation.value, x);
    }
    if o.blinding.Some? {
      HeldIsAlone(f, d, rows, o.blinding.value, y);
    }
  }

  lemma SlotsAreVariables(f: Field, p: BlindFoldProtocol, rows: seq<seq<int>>, outputs: seq<int>, blindings: seq<int>)
    requires FinalOpeningCoordinates(p.dimensions, p.finalOpenings).Ok? && Grid(rows, p.dimensions.grid)
    requires |p.finalOpenings| <= |outputs| && |p.finalOpenings| <= |blindings|
    ensures SlotsWithin(SlotsOf(p), |outputs|) && SlotsWithin(SlotsOf(p), |blindings|)
    ensures SlotsHeld(f, rows, SlotsOf(p), outputs, blindings)
       <==> ScalarsAlone(f, Flatten(rows), p.dimensions.grid.rowLen, p.finalOpenings, outputs, blindings)
  {
    hide HeldAt, AloneInRow, OneHeld, FinalOpeningCoordinates, Slots, SlotsHeld, FinalCoordinate;
    var d, c := p.dimensions, FinalOpeningCoordinates(p.dimensions, p.finalOpenings).value;
    SlotsAreCoordinates(f, rows, c, 0, outputs, blindings);
    CoordinatesOfVariables(d, p.finalOpenings);
    forall i | 0 <= i < |c|
      ensures OneHeld(f, rows, c[i], outputs[i], blindings[i]) <==>
        && (p.finalOpenings[i].evaluation.Some? ==>
             AloneInRow(f, Flatten(rows), d.grid.rowLen, p.finalOpenings[i].evaluation.value, outputs[i]))
        && (p.finalOpenings[i].blinding.Some? ==>
             AloneInRow(f, Flatten(rows), d.grid.rowLen, p.finalOpenings[i].blinding.value, blindings[i]))
    {
      OneHeldIsAlone(f, d, rows, p.finalOpenings[i], c[i], outputs[i], blindings[i]);
    }
  }

  /** For the rows' own openings the bindings are accepted exactly when every
      scalar the proof names is in its variable, alone in its row. */
  lemma BindingsAcceptedIff(f: Field, setup: Setup, p: BlindFoldProtocol, commitments: seq<int>, rows: seq<seq<int>>,
                            blindings: seq<int>, proof: Proof)
    requires IsField(f) && WellFormed(p) && Grid(rows, p.dimensions.grid)
    requires Opens(f, setup, commitments, rows, blindings, p.dimensions.grid.rowLen)
    requires |proof.evalOutputs| == |proof.evalBlindings| == |p.finalOpenings|
    requires proof.outputOpenings == SlotOpenings(SlotsOf(p), Output, rows, blindings)
    requires proof.blindingOpenings == SlotOpenings(SlotsOf(p), Blinding, rows, blindings)
    ensures BindingsAccepted(f, setup, commitments, SlotsOf(p), proof)
       <==> ScalarsAlone(f, Flatten(rows), p.dimensions.grid.rowLen, p.finalOpenings, proof.evalOutputs,
                         proof.evalBlindings)
  {
    var slots, d := SlotsOf(p), p.dimensions.grid;
    hide VerifiedSlot, ScalarsAlone, SlotOpenings, Aligned, Count, SlotsOf, FinalOpeningCoordinates;
    SlotsAreVariables(f, p, rows, proof.evalOutputs, proof.evalBlindings);
    AlignedOpenings(slots, rows, blindings);
    var ops := Aligned(slots, proof.outputOpenings, proof.blindingOpenings);
    forall k | 0 <= k < |slots|
      ensures SlotAccepted(f, setup, commitments, slots[k], ops[k],
                           SlotValue(slots[k], proof.evalOutputs, proof.evalBlindings))
         <==> HeldAt(f, rows, slots[k].at, SlotValue(slots[k], proof.evalOutputs, proof.evalBlindings))
    {
      SlotVerifies(f, setup, d, commitments, rows, blindings, slots[k].at);
    }
  }

  /** Whatever the opening, a slot is accepted exactly when the opening is of
      that row's own commitment and holds the expected scalar alone. */
  lemma SlotAcceptedIff(f: Field, setup: Setup, commitments: seq<int>, slot: Slot, opening: Opening, expected: int)
    ensures SlotAccepted(f, setup, commitments, slot, opening, expected) <==>
      && IsPow2(|commitments|) && IsPow2(|opening.combinedVector|)
      && slot.at.row < |commitments| && slot.at.column < |opening.combinedVector| <= Capacity(setup)
      && Same(f, commitments[slot.at.row], Commit(setup, opening.combinedVector, opening.combinedBlinding))
      && HeldAt(f, [opening.combinedVector], Coordinate(0, slot.at.column), expected)
  {
    hide Commit, Bits, EqTable, Dot, Mle, IsPow2, Log2, Pow2;
    var row, column, v := slot.at.row, slot.at.column, opening.combinedVector;
    if IsPow2(|commitments|) && IsPow2(|v|) && row < |commitments| && column < |v| {
      var m, n := Log2(|commitments|), Log2(|v|);
      IsPow2Log(|commitments|);
      IsPow2Log(|v|);
      Pow2IsPow2(n);
      DotSymmetric(EqTable(Bits(row, m)), commitments);
      DotIsMle(commitments, Bits(row, m));
      MleAtVertex(commitments, row, m);
      MleAtVertex(v, column, n);
    }
  }

  // The two sumchecks.

  /** The honest opening of a grid at a point. */
  function OpenedAt(rows: seq<seq<int>>, blindings: seq<int>, d: RowDimensions, point: seq<int>): Opening
    requires Grid(rows, d) && |blindings| == |rows| && SplitDims(d) && |point| == GridVars(d)
  {
    IsPow2Log(d.rowCount);
    OpeningOf(rows, blindings, d.rowLen, point[..Log2(d.rowCount)])
  }

  /** With the error grid opened as it is, the outer phase is accepted exactly
      when the replay ends on the summand at its point. */
  lemma OuterAcceptedIff(f: Field, setup: Setup, oracle: Oracle, p: BlindFoldProtocol, folded: RelaxedInstance,
                         rows: seq<seq<int>>, blindings: seq<int>, proof: Proof, log: seq<Item>)
    requires IsField(f) && SplitDims(p.dimensions.error) && Grid(rows, p.dimensions.error)
    requires Opens(f, setup, folded.errors, rows, blindings, p.dimensions.error.rowLen)
    requires AcceptableRounds(proof.outerRounds, GridVars(p.dimensions.error), 3)
    requires proof.errorOpening
          == OpenedAt(rows, blindings, p.dimensions.error, OuterReplay(f, oracle, p, proof, log).point)
    ensures |Flatten(rows)| == Pow2(GridVars(p.dimensions.error))
    ensures var replay := OuterReplay(f, oracle, p, proof, log);
      OuterAccepted(f, setup, oracle, p, folded, proof, log) <==>
        Same(f, replay.value, EqMle(Challenges(oracle, log, GridVars(p.dimensions.error)), replay.point)
                              * (proof.az * proof.bz - folded.u * proof.cz - Mle(Flatten(rows), replay.point)))
  {
    hide ReplayRounds, VerifiedRows, OuterReplay, EqMle, Mle, Flatten, OpeningOf, Log2;
    GridOpens(f, setup, folded.errors, rows, blindings, p.dimensions.error,
              OuterReplay(f, oracle, p, proof, log).point);
  }

  /** With the witness grid opened as it is, the inner phase is accepted exactly
      when the replay ends on the column form times the witness at its point. */
  lemma InnerAcceptedIff(f: Field, setup: Setup, oracle: Oracle, p: BlindFoldProtocol, folded: RelaxedInstance,
                         rows: seq<seq<int>>, blindings: seq<int>, rx: seq<int>, proof: Proof, log: seq<Item>)
    requires IsField(f) && ValidMatrices(p.r1cs) && SplitDims(p.dimensions.grid) && Grid(rows, p.dimensions.grid)
    requires |p.r1cs.a| <= Pow2(|rx|)
    requires Opens(f, setup, folded.rows, rows, blindings, p.dimensions.grid.rowLen)
    requires AcceptableRounds(proof.innerRounds, GridVars(p.dimensions.grid), 2)
    requires proof.rowOpening
          == OpenedAt(rows, blindings, p.dimensions.grid, InnerReplay(f, oracle, p, folded.u, rx, proof, log).point)
    ensures |Flatten(rows)| == Pow2(GridVars(p.dimensions.grid))
    ensures var replay, abc := InnerReplay(f, oracle, p, folded.u, rx, proof, log), Challenges(oracle, log, 3);
      var form := LinearForm(p.r1cs, EqTable(rx)[..|p.r1cs.a|], |Flatten(rows)|, abc[0], abc[1], abc[2]);
      InnerAccepted(f, setup, oracle, p, folded, rx, proof, log) <==>
        Same(f, replay.value, Mle(form, replay.point) * Mle(Flatten(rows), replay.point))
  {
    hide ReplayRounds, VerifiedRows, InnerReplay, Mle, Flatten, OpeningOf, Log2, LinearForm, FormAt, EqTable;
    var replay := InnerReplay(f, oracle, p, folded.u, rx, proof, log);
    GridOpens(f, setup, folded.rows, rows, blindings, p.dimensions.grid, replay.point);
    FormAtPoint(p.r1cs, rx, |Flatten(rows)|, Challenges(oracle, log, 3), replay.point);
  }

  // The whole verifier.

  /** Every opening in the proof is the folded grids' own, at the points the transcript gives. */
  ghost predicate OpensFolded(f: Field, oracle: Oracle, p: BlindFoldProtocol, u: int, g: Folding, proof: Proof,
                              log: seq<Item>)
    requires WellFormed(p) && FoldingShaped(p, g) && InstancesAssemble(p, proof.commitments)
    requires SplitDims(p.dimensions.error) && SplitDims(p.dimensions.grid)
  {
    GridVarsSize(p.dimensions.error);
    && proof.outputOpenings == SlotOpenings(SlotsOf(p), Output, g.rows, g.blindings)
    && proof.blindingOpenings == SlotOpenings(SlotsOf(p), Blinding, g.rows, g.blindings)
    && AcceptableRounds(proof.outerRounds, GridVars(p.dimensions.error), 3)
    && AcceptableRounds(proof.innerRounds, GridVars(p.dimensions.grid), 2)
    && var spartan := SpartanLog(f, p, SlotsOf(p), proof, log);
    && var outer := OuterReplay(f, oracle, p, proof, spartan);
    && var inner := InnerReplay(f, oracle, p, u, outer.point, proof, OuterLogAfter(f, oracle, p, proof, spartan));
    && proof.errorOpening == OpenedAt(g.errorRows, g.errorBlindings, p.dimensions.error, outer.point)
    && proof.rowOpening == OpenedAt(g.rows, g.blindings, p.dimensions.grid, inner.point)
  }

  /** Every folded evaluation commitment opens to the scalar and the blinding the proof names. */
  ghost predicate EvalsOpen(f: Field, setup: Setup, commitments: seq<int>, outputs: seq<int>, blindings: seq<int>)
    requires 1 <= Capacity(setup)
  {
    && |outputs| == |blindings| == |commitments|
    && forall i :: 0 <= i < |commitments| ==>
         Same(f, commitments[i], outputs[i] * setup.generators[0] + blindings[i] * setup.blindingGenerator)
  }

  lemma OneScalar(setup: Setup, x: int, b: int)
    requires 1 <= Capacity(setup)
    ensures Commit(setup, [x], b) == x * setup.generators[0] + b * setup.blindingGenerator
  {
    var g := setup.generators[..1];
    assert [x][1..] == [] && g[1..] == [] && g[0] == setup.generators[0];
    assert Dot([], []) == 0;
  }

  lemma EvalsOpenIff(f: Field, setup: Setup, commitments: seq<int>, outputs: seq<int>, blindings: seq<int>)
    requires 1 <= Capacity(setup)
    ensures EvalCommitmentsOpen(f, setup, commitments, outputs, blindings)
       <==> EvalsOpen(f, setup, commitments, outputs, blindings)
  {
    hide Commit;
    if |outputs| == |blindings| == |commitments| {
      forall i | 0 <= i < |commitments|
        ensures VerifyCommitment(f, setup, commitments[i], [outputs[i]], blindings[i]) <==>
          Same(f, commitments[i], outputs[i] * setup.generators[0] + blindings[i] * setup.blindingGenerator)
      {
        OneScalar(setup, outputs[i], blindings[i]);
      }
    }
  }

  /** Everything but the two sumchecks, and the two sumchecks. */
  lemma AcceptsParts(f: Field, setup: Setup, oracle: Oracle, p: BlindFoldProtocol, instance: RelaxedInstance,
                     proof: Proof, log: seq<Item>)
    requires ValidMatrices(p.r1cs) && 1 <= Capacity(setup) && InstancesAssemble(p, proof.commitments)
    requires FoldedInstance(p, proof.commitments, oracle(FoldLog(f, p, proof.commitments, log))) == Ok(instance)
    requires FinalOpeningCoordinates(p.dimensions, p.finalOpenings).Ok? && |p.finalOpenings| == |instance.evals|
    requires Count(SlotsOf(p), Output) == |proof.outputOpenings|
    requires Count(SlotsOf(p), Blinding) == |proof.blindingOpenings|
    ensures var spartan := SpartanLog(f, p, SlotsOf(p), proof, log);
      Accepts(f, setup, oracle, p, proof, log) <==>
        && EvalCommitmentsOpen(f, setup, instance.evals, proof.evalOutputs, proof.evalBlindings)
        && BindingsAccepted(f, setup, instance.rows, SlotsOf(p), proof)
        && OuterAccepted(f, setup, oracle, p, instance, proof, spartan)
        && InnerAccepted(f, setup, oracle, p, instance, OuterReplay(f, oracle, p, proof, spartan).point, proof,
                         OuterLogAfter(f, oracle, p, proof, spartan))
  {
    hide FoldedInstance, BindingsAccepted, InnerAccepted, EvalCommitmentsOpen, SpartanLog, FinalOpeningCoordinates;
    hide FoldLog, InstancesAssemble, OuterReplay, OuterLogAfter;
  }

  lemma FoldedShape(setup: Setup, p: BlindFoldProtocol, c: Commitments, r: int, instance: RelaxedInstance)
    requires WellFormed(p) && FitsSetup(p, setup) && InstancesAssemble(p, c) && FoldedInstance(p, c, r) == Ok(instance)
    ensures |instance.evals| == |p.evalCommitments| == |p.finalOpenings|
    ensures FinalOpeningCoordinates(p.dimensions, p.finalOpenings).Ok? && ValidMatrices(p.r1cs) && 1 <= Capacity(setup)
    ensures |p.r1cs.a| <= p.dimensions.error.rowCount * p.dimensions.error.rowLen
  {
    hide AssembleRows, FoldedError, SlotsDedicated, FromCounts;
  }

  /** The outer replay ends on the summand, the error from the error rows. */
  ghost predicate OuterEnds(f: Field, oracle: Oracle, p: BlindFoldProtocol, u: int, errors: seq<int>, proof: Proof,
                            log: seq<Item>)
    requires AcceptableRounds(proof.outerRounds, GridVars(p.dimensions.error), 3)
    requires |errors| == Pow2(GridVars(p.dimensions.error))
  {
    var replay := OuterReplay(f, oracle, p, proof, log);
    Same(f, replay.value, EqMle(Challenges(oracle, log, GridVars(p.dimensions.error)), replay.point)
                          * (proof.az * proof.bz - u * proof.cz - Mle(errors, replay.point)))
  }

  /** The inner replay ends on the column form times the witness. */
  ghost predicate InnerEnds(f: Field, oracle: Oracle, p: BlindFoldProtocol, u: int, flat: seq<int>, rx: seq<int>,
                            proof: Proof, log: seq<Item>)
    requires ValidMatrices(p.r1cs) && |p.r1cs.a| <= Pow2(|rx|)
    requires AcceptableRounds(proof.innerRounds, GridVars(p.dimensions.grid), 2)
    requires |flat| == Pow2(GridVars(p.dimensions.grid))
  {
    var replay, abc := InnerReplay(f, oracle, p, u, rx, proof, log), Challenges(oracle, log, 3);
    var form := LinearForm(p.r1cs, EqTable(rx)[..|p.r1cs.a|], |flat|, abc[0], abc[1], abc[2]);
    Same(f, replay.value, Mle(form, replay.point) * Mle(flat, replay.point))
  }

  /** A proof that opens the folded grids as they are is accepted exactly when
      the named scalars open the evaluation commitments, each is alone in its
      row, and both sumchecks end on what the grids say. */
  lemma AcceptsIff(f: Field, setup: Setup, oracle: Oracle, p: BlindFoldProtocol, instance: RelaxedInstance, g: Folding,
                   proof: Proof, log: seq<Item>)
    requires IsField(f) && WellFormed(p) && FitsSetup(p, setup) && FoldingShaped(p, g)
    requires SplitDims(p.dimensions.error) && SplitDims(p.dimensions.grid) && InstancesAssemble(p, proof.commitments)
    requires FoldedInstance(p, proof.commitments, oracle(FoldLog(f, p, proof.commitments, log))) == Ok(instance)
    requires Opens(f, setup, instance.rows, g.rows, g.blindings, p.dimensions.grid.rowLen)
    requires Opens(f, setup, instance.errors, g.errorRows, g.errorBlindings, p.dimensions.error.rowLen)
    requires OpensFolded(f, oracle, p, instance.u, g, proof, log)
    ensures |instance.evals| == |p.finalOpenings| && |p.r1cs.a| <= Pow2(GridVars(p.dimensions.error))
    ensures |Flatten(g.rows)| == Pow2(GridVars(p.dimensions.grid))
    ensures |Flatten(g.errorRows)| == Pow2(GridVars(p.dimensions.error))
    ensures var spartan := SpartanLog(f, p, SlotsOf(p), proof, log);
      Accepts(f, setup, oracle, p, proof, log) <==>
        && EvalsOpen(f, setup, instance.evals, proof.evalOutputs, proof.evalBlindings)
        && ScalarsAlone(f, Flatten(g.rows), p.dimensions.grid.rowLen, p.finalOpenings, proof.evalOutputs,
                        proof.evalBlindings)
        && OuterEnds(f, oracle, p, instance.u, Flatten(g.errorRows), proof, spartan)
        && InnerEnds(f, oracle, p, instance.u, Flatten(g.rows), OuterReplay(f, oracle, p, proof, spartan).point, proof,
                     OuterLogAfter(f, oracle, p, proof, spartan))
  {
    hide *;
    FoldedShape(setup, p, proof.commitments, oracle(FoldLog(f, p, proof.commitments, log)), instance);
    FoldedOpen(f, oracle, p, instance.u, g, proof, log);
    AcceptsParts(f, setup, oracle, p, instance, proof, log);
    EvalsOpenIff(f, setup, instance.evals, proof.evalOutputs, proof.evalBlindings);
    var spartan := SpartanLog(f, p, SlotsOf(p), proof, log);
    var rx, after := OuterReplay(f, oracle, p, proof, spartan).point, OuterLogAfter(f, oracle, p, proof, spartan);
    OuterAcceptedIff(f, setup, oracle, p, instance, g.errorRows, g.errorBlindings, proof, spartan);
    InnerAcceptedIff(f, setup, oracle, p, instance, g.rows, g.blindings, rx, proof, after);
    OuterEndsIs(f, oracle, p, instance.u, Flatten(g.errorRows), proof, spartan);
    InnerEndsIs(f, oracle, p, instance.u, Flatten(g.rows), rx, proof, after);
    if EvalsOpen(f, setup, instance.evals, proof.evalOutputs, proof.evalBlindings) {
      EvalsCounted(f, setup, instance.evals, proof.evalOutputs, proof.evalBlindings);
      BindingsAcceptedIff(f, setup, p, instance.rows, g.rows, g.blindings, proof);
    }
  }

  lemma FoldedOpen(f: Field, oracle: Oracle, p: BlindFoldProtocol, u: int, g: Folding, proof: Proof, log: seq<Item>)
    requires WellFormed(p) && FoldingShaped(p, g) && InstancesAssemble(p, proof.commitments)
    requires SplitDims(p.dimensions.error) && SplitDims(p.dimensions.grid)
    requires OpensFolded(f, oracle, p, u, g, proof, log)
    ensures Grid(g.rows, p.dimensions.grid) && |g.blindings| == |g.rows|
    ensures Grid(g.errorRows, p.dimensions.error) && |g.errorBlindings| == |g.errorRows|
    ensures IsPow2(p.dimensions.error.rowCount) && IsPow2(p.dimensions.error.rowLen)
    ensures |p.r1cs.a| <= Pow2(GridVars(p.dimensions.error)) && ValidMatrices(p.r1cs)
    ensures Count(SlotsOf(p), Output) == |proof.outputOpenings|
    ensures Count(SlotsOf(p), Blinding) == |proof.blindingOpenings|
    ensures proof.outputOpenings == SlotOpenings(SlotsOf(p), Output, g.rows, g.blindings)
    ensures proof.blindingOpenings == SlotOpenings(SlotsOf(p), Blinding, g.rows, g.blindings)
    ensures AcceptableRounds(proof.outerRounds, GridVars(p.dimensions.error), 3)
    ensures AcceptableRounds(proof.innerRounds, GridVars(p.dimensions.grid), 2)
    ensures var spartan := SpartanLog(f, p, SlotsOf(p), proof, log);
      var outer := OuterReplay(f, oracle, p, proof, spartan);
      var inner := InnerReplay(f, oracle, p, u, outer.point, proof, OuterLogAfter(f, oracle, p, proof, spartan));
      && proof.errorOpening == OpenedAt(g.errorRows, g.errorBlindings, p.dimensions.error, outer.point)
      && proof.rowOpening == OpenedAt(g.rows, g.blindings, p.dimensions.grid, inner.point)
  {
    hide InstancesAssemble, SpartanLog, OuterReplay, InnerReplay, OuterLogAfter, OpenedAt, SlotsDedicated, FromCounts;
    GridVarsSize(p.dimensions.error);
  }

  lemma EvalsCounted(f: Field, setup: Setup, commitments: seq<int>, outputs: seq<int>, blindings: seq<int>)
    requires 1 <= Capacity(setup) && EvalsOpen(f, setup, commitments, outputs, blindings)
    ensures |outputs| == |blindings| == |commitments|
  {
  }

  lemma OuterEndsIs(f: Field, oracle: Oracle, p: BlindFoldProtocol, u: int, errors: seq<int>, proof: Proof,
                    log: seq<Item>)
    requires AcceptableRounds(proof.outerRounds, GridVars(p.dimensions.error), 3)
    requires |errors| == Pow2(GridVars(p.dimensions.error))
    ensures var replay := OuterReplay(f, oracle, p, proof, log);
      OuterEnds(f, oracle, p, u, errors, proof, log) <==>
        Same(f, replay.value, EqMle(Challenges(oracle, log, GridVars(p.dimensions.error)), replay.point)
                              * (proof.az * proof.bz - u * proof.cz - Mle(errors, replay.point)))
  {
  }

  lemma InnerEndsIs(f: Field, oracle: Oracle, p: BlindFoldProtocol, u: int, flat: seq<int>, rx: seq<int>,
                    proof: Proof, log: seq<Item>)
    requires ValidMatrices(p.r1cs) && |p.r1cs.a| <= Pow2(|rx|)
    requires AcceptableRounds(proof.innerRounds, GridVars(p.dimensions.grid), 2)
    requires |flat| == Pow2(GridVars(p.dimensions.grid))
    ensures var replay, abc := InnerReplay(f, oracle, p, u, rx, proof, log), Challenges(oracle, log, 3);
      var form := LinearForm(p.r1cs, EqTable(rx)[..|p.r1cs.a|], |flat|, abc[0], abc[1], abc[2]);
      InnerEnds(f, oracle, p, u, flat, rx, proof, log) <==>
        Same(f, replay.value, Mle(form, replay.point) * Mle(flat, replay.point))
  {
  }
}
