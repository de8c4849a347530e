/** Completeness from the layout up: a full assignment of a built protocol's
    variables, sliced into rows, is an honest witness. */
module BuiltRuns {
  import opened Results
  import opened Fields
  import opened Vectors
  import opened Matrices
  import opened R1cs
  import opened RowCommitment
  import opened Transcripts
  import opened Protocol
  import opened Verifier
  import opened Layouts
  import opened Prover
  import opened Built

  // Which variable a slot opens.

  /** The slot is one of the two variables of some final opening. */
  ghost predicate SlotFrom(d: Dimensions, slot: Slot, finals: seq<FinalOpening>, first: nat) {
    && first <= slot.index < first + |finals|
    && var final := finals[slot.index - first];
    var variable := if slot.kind == Output then final.evaluation else final.blinding;
    variable.Some? && WitnessCoordinate(d, variable.value) == Ok(slot.at)
  }

  lemma {:induction false} SlotsFrom(d: Dimensions, finals: seq<FinalOpening>, first: nat)
    requires FinalOpeningCoordinates(d, finals).Ok?
    ensures var slots := Slots(FinalOpeningCoordinates(d, finals).value, first);
      forall k :: 0 <= k < |slots| ==> SlotFrom(d, slots[k], finals, first)
  {
    hide *;
    if finals == [] {
      NoFinals(d, finals, first);
    } else {
      var c, rest := CoordinatesStep(d, finals);
      SlotsFrom(d, finals[1..], first + 1);
      SlotsStep(c, rest, first);
      var head, tail := HeadSlots(c, first), Slots(rest, first + 1);
      var slots := head + tail;
      forall k | 0 <= k < |slots| ensures SlotFrom(d, slots[k], finals, first) {
        if k >= |head| {
          assert slots[k] == tail[k - |head|];
          SlotFromTail(d, slots[k], finals, first);
        } else {
          assert slots[k] == head[k];
          SlotFromHead(d, c, slots[k], finals, first);
        }
      }
    }
  }

  lemma NoFinals(d: Dimensions, finals: seq<FinalOpening>, first: nat)
    requires finals == []
    ensures FinalOpeningCoordinates(d, finals) == Ok([]) && Slots([], first) == []
  {
  }

  lemma CoordinatesStep(d: Dimensions, finals: seq<FinalOpening>)
    returns (c: FinalCoordinates, rest: seq<FinalCoordinates>)
    requires finals != [] && FinalOpeningCoordinates(d, finals).Ok?
    ensures FinalOpeningCoordinates(d, finals[1..]) == Ok(rest) && FinalOpeningCoordinates(d, finals) == Ok([c] + rest)
    ensures FinalCoordinate(d, finals[0].evaluation) == Ok(c.evaluation)
    ensures FinalCoordinate(d, finals[0].blinding) == Ok(c.blinding)
  {
    rest := FinalOpeningCoordinates(d, finals[1..]).value;
    c := FinalCoordinates(FinalCoordinate(d, finals[0].evaluation).value, FinalCoordinate(d, finals[0].blinding).value);
  }

  lemma SlotsStep(c: FinalCoordinates, rest: seq<FinalCoordinates>, first: nat)
    ensures Slots([c] + rest, first) == HeadSlots(c, first) + Slots(rest, first + 1)
  {
    assert ([c] + rest)[1..] == rest;
  }

  lemma SlotFromTail(d: Dimensions, slot: Slot, finals: seq<FinalOpening>, first: nat)
    requires finals != [] && SlotFrom(d, slot, finals[1..], first + 1)
    ensures SlotFrom(d, slot, finals, first)
  {
    assert finals[1..][slot.index - (first + 1)] == finals[slot.index - first];
  }

  lemma SlotFromHead(d: Dimensions, c: FinalCoordinates, slot: Slot, finals: seq<FinalOpening>, first: nat)
    requires finals != [] && slot in HeadSlots(c, first)
    requires FinalCoordinate(d, finals[0].evaluation) == Ok(c.evaluation)
    requires FinalCoordinate(d, finals[0].blinding) == Ok(c.blinding)
    ensures SlotFrom(d, slot, finals, first)
  {
  }

  function HeadSlots(c: FinalCoordinates, first: nat): seq<Slot> {
    (if c.evaluation.Some? then [Slot(Output, first, c.evaluation.value)] else [])
    + (if c.blinding.Some? then [Slot(Blinding, first, c.blinding.value)] else [])
  }

  /** The scalars of the final openings, read off an assignment. */
  ghost predicate ReadsFinals(finals: seq<FinalOpening>, z: seq<int>, outputs: seq<int>, blindings: seq<int>) {
    && |outputs| == |blindings| == |finals|
    && (forall i :: 0 <= i < |finals| && finals[i].evaluation.Some? ==>
         finals[i].evaluation.value < |z| && outputs[i] == z[finals[i].evaluation.value])
    && (forall i :: 0 <= i < |finals| && finals[i].blinding.Some? ==>
         finals[i].blinding.value < |z| && blindings[i] == z[finals[i].blinding.value])
  }

  /** One slot's share of `SlotsHold`. */
  ghost predicate SlotHeld(f: Field, rows: seq<seq<int>>, slot: Slot, outputs: seq<int>, blindings: seq<int>)
    requires slot.index < |outputs| && slot.index < |blindings|
  {
    && slot.at.row < |rows| && slot.at.column < |rows[slot.at.row]|
    && Same(f, rows[slot.at.row][slot.at.column], SlotValue(slot, outputs, blindings))
    && DedicatedRow(f, slot.at.column, rows[slot.at.row])
  }

  /** In the grid sliced from an assignment every slot holds its scalar, alone in its row. */
  lemma SlotsHoldWhenBuilt(f: Field, p: BlindFoldProtocol, s: Statement, layout: Layout, ws: SlotValues, z: seq<int>,
                           outputs: seq<int>, blindings: seq<int>)
    requires IsField(f) && BuiltFrom(p, s, layout, ws) && WellFormed(p) && KeepsPadding(ws, z) && |z| == p.r1cs.numVars
    requires ReadsFinals(p.finalOpenings, z, outputs, blindings)
    ensures SlotsHold(f, SlotsOf(p), Chunks(z[1..], p.dimensions.grid.rowLen, p.dimensions.grid.rowCount), outputs,
                      blindings)
  {
    SlotsOfFrom(p);
    var rows, slots := Chunks(z[1..], p.dimensions.grid.rowLen, p.dimensions.grid.rowCount), SlotsOf(p);
    assert |outputs| == |blindings| == |p.finalOpenings|;
    hide WellFormed, BuiltFrom, KeepsPadding, ReadsFinals, Chunks, DedicatedRow;
    forall k | 0 <= k < |slots| ensures SlotHeld(f, rows, slots[k], outputs, blindings) {
      SlotHolds(f, p, s, layout, ws, z, slots[k], outputs, blindings);
    }
    HeldTogether(f, rows, slots, outputs, blindings);
  }

  lemma HeldTogether(f: Field, rows: seq<seq<int>>, slots: seq<Slot>, outputs: seq<int>, blindings: seq<int>)
    requires SlotsWithin(slots, |outputs|) && SlotsWithin(slots, |blindings|)
    requires forall k :: 0 <= k < |slots| ==> SlotHeld(f, rows, slots[k], outputs, blindings)
    ensures SlotsHold(f, slots, rows, outputs, blindings)
  {
  }

  lemma SlotsOfFrom(p: BlindFoldProtocol)
    requires FinalOpeningCoordinates(p.dimensions, p.finalOpenings).Ok?
    ensures forall k :: 0 <= k < |SlotsOf(p)| ==> SlotFrom(p.dimensions, SlotsOf(p)[k], p.finalOpenings, 0)
  {
    SlotsFrom(p.dimensions, p.finalOpenings, 0);
    assert SlotsOf(p) == Slots(FinalOpeningCoordinates(p.dimensions, p.finalOpenings).value, 0);
    hide *;
  }

  lemma SlotHolds(f: Field, p: BlindFoldProtocol, s: Statement, layout: Layout, ws: SlotValues, z: seq<int>, slot: Slot,
                  outputs: seq<int>, blindings: seq<int>)
    requires IsField(f) && BuiltFrom(p, s, layout, ws) && KeepsPadding(ws, z) && |z| == p.r1cs.numVars
    requires WellFormed(p) && SlotFrom(p.dimensions, slot, p.finalOpenings, 0)
    requires ReadsFinals(p.finalOpenings, z, outputs, blindings)
    ensures SlotHeld(f, Chunks(z[1..], p.dimensions.grid.rowLen, p.dimensions.grid.rowCount), slot, outputs, blindings)
  {
    var d, i := p.dimensions, slot.index;
    var variable := (if slot.kind == Output then p.finalOpenings[i].evaluation else p.finalOpenings[i].blinding).value;
    GridIsLayouts(p, s, layout, ws);
    assert FinalAt(ws, p.finalOpenings[i], s.finals[i], layout.rowLen,
                   Start(|AllDegrees(s.stages)| + |AllUnknowns(s.stages)|, layout.rowLen));
    hide DedicatedRow, AllDegrees, AllUnknowns, Chunks;
    PrivateScalarDedicated(f, d, ws, z, variable);
  }

  lemma GridIsLayouts(p: BlindFoldProtocol, s: Statement, layout: Layout, ws: SlotValues)
    requires BuiltFrom(p, s, layout, ws)
    ensures WellFormed(p) && p.dimensions.grid.rowLen == layout.rowLen && 0 < layout.rowLen
    ensures p.r1cs.numVars - 1 <= Cells(p.dimensions.grid.rowCount, p.dimensions.grid.rowLen)
  {
    BuiltIsWellFormed(p, s, layout, ws);
  }

  // The sliced assignment is an honest witness.

  lemma {:induction false} SparseDotPadded(row: SparseRow, z: seq<int>, pad: seq<int>)
    requires ColumnsBelow(row, |z|)
    ensures SparseDot(row, z + pad) == SparseDot(row, z)
  {
    if row != [] {
      assert ColumnsBelow(row[1..], |z|) by {
        assert forall i :: 0 <= i < |row[1..]| ==> row[1..][i] == row[i + 1];
      }
      SparseDotPadded(row[1..], z, pad);
    }
  }

  /** Entries past the last variable change no constraint. */
  lemma ErrorsPadded(m: ConstraintMatrices, u: int, wit: seq<int>, pad: seq<int>)
    requires ValidMatrices(m) && m.numVars <= |wit| + 1
    ensures Errors(m, u, wit + pad) == Errors(m, u, wit)
  {
    var z := ZVector(u, wit);
    assert ZVector(u, wit + pad) == z + pad;
    forall k | 0 <= k < |m.a| ensures Residual(m, k, u, z + pad) == Residual(m, k, u, z) {
      SparseDotPadded(m.a[k], z, pad);
      SparseDotPadded(m.b[k], z, pad);
      SparseDotPadded(m.c[k], z, pad);
    }
  }

  /** A witness sliced from an assignment of all variables that keeps the
      padding and satisfies the constraints, with blindings that open the
      public commitments. */
  ghost predicate SlicedWitness(f: Field, setup: Setup, p: BlindFoldProtocol, ws: SlotValues, z: seq<int>,
                                w: BlindFoldWitness)
    requires WellFormed(p)
  {
    && KeepsPadding(ws, z) && |z| == p.r1cs.numVars && z != []
    && w.rows == Chunks(z[1..], p.dimensions.grid.rowLen, p.dimensions.grid.rowCount)
    && ReadsFinals(p.finalOpenings, z, w.evalOutputs, w.evalBlindings)
    && Satisfies(f, p.r1cs, 1, z[1..], Zeros(|p.r1cs.a|))
    && |w.blindings| == p.dimensions.grid.rowCount && FitsSetup(p, setup) && WitnessShaped(p, w)
    && PublicRowsOpen(f, setup, p, w)
    && EvalCommitmentsOpen(f, setup, p.evalCommitments, w.evalOutputs, w.evalBlindings)
  }

  /** It is honest: that the slots hold their scalars follows from the layout. */
  lemma SlicedIsHonest(f: Field, setup: Setup, p: BlindFoldProtocol, s: Statement, layout: Layout, ws: SlotValues,
                       z: seq<int>, w: BlindFoldWitness)
    requires IsField(f) && BuiltFrom(p, s, layout, ws) && WellFormed(p) && SlicedWitness(f, setup, p, ws, z, w)
    ensures Honest(f, setup, p, w)
  {
    hide SlotsHold, PublicRowsOpen, EvalCommitmentsOpen, KeepsPadding, ReadsFinals, LaidOut, Chunks, Flatten;
    var d, m := p.dimensions.grid, p.r1cs;
    SlotsHoldWhenBuilt(f, p, s, layout, ws, z, w.evalOutputs, w.evalBlindings);
    GridIsLayouts(p, s, layout, ws);
    GridFlatSize(w.rows, d);
    FlattenOfChunks(z[1..], d.rowLen, d.rowCount);
    ErrorsPadded(m, 1, z[1..], Zeros(d.rowCount * d.rowLen - |z[1..]|));
  }

  // The order of the slots of a layout.

  function CountNamed(named: seq<bool>): nat {
    if named == [] then 0 else (if named[0] then 1 else 0) + CountNamed(named[1..])
  }

  /** The outputs come first exactly when at most one final opening is named. */
  lemma {:induction false} NamedOrder(d: Dimensions, ws: SlotValues, finals: seq<FinalOpening>, named: seq<bool>,
                                      len: nat, from: nat, first: nat)
    requires FinalsAt(ws, finals, named, len, from) && FinalOpeningCoordinates(d, finals).Ok?
    ensures var slots := Slots(FinalOpeningCoordinates(d, finals).value, first);
      && Count(slots, Output) == CountNamed(named) && |slots| == 2 * CountNamed(named)
      && (OutputsFirst(slots) <==> CountNamed(named) <= 1)
  {
    if finals != [] {
      TailOfFinals(ws, finals, named, len, from);
      var c, rest := CoordinatesStep(d, finals);
      NamedOrder(d, ws, finals[1..], named[1..], len, from, first + 1);
      SlotsStep(c, rest, first);
      assert FinalAt(ws, finals[0], named[0], len, from);
      var tail := Slots(rest, first + 1);
      if named[0] {
        OneMorePair(HeadSlots(c, first) + tail, tail);
      } else {
        assert HeadSlots(c, first) + tail == tail;
      }
    }
  }

  /** An output and a blinding in front: the outputs still come first only if no output follows. */
  lemma OneMorePair(slots: seq<Slot>, tail: seq<Slot>)
    requires |slots| == 2 + |tail| && slots[2..] == tail && slots[0].kind == Output && slots[1].kind == Blinding
    requires |tail| == 2 * Count(tail, Output)
    ensures Count(slots, Output) == 1 + Count(tail, Output) && (OutputsFirst(slots) <==> tail == [])
  {
    assert slots[1..][1..] == tail;
    if tail != [] {
      var k := FirstOfKind(tail, Output);
      assert slots[k + 2] == tail[k];
    }
  }

  /** Completeness for built protocols: with at most one named final opening
      every run from a sliced assignment is accepted. */
  lemma BuiltCompleteness(f: Field, setup: Setup, oracle: Oracle, p: BlindFoldProtocol, s: Statement, layout: Layout,
                          ws: SlotValues, z: seq<int>, w: BlindFoldWitness, r: Randomness, log: seq<Item>, mask: Mask,
                          partial: Proof, proof: Proof)
    requires IsField(f) && BuiltFrom(p, s, layout, ws) && WellFormed(p) && RandomnessShaped(p, r)
    requires SlicedWitness(f, setup, p, ws, z, w) && CountNamed(s.finals) <= 1
    requires Proved(f, setup, oracle, p, w, r, log, mask, partial, proof)
    ensures Accepts(f, setup, oracle, p, proof, log)
  {
    SlicedIsHonest(f, setup, p, s, layout, ws, z, w);
    LaidOutOrder(p, s, layout, ws);
    hide *;
    Completeness(f, setup, oracle, p, w, r, log, mask, partial, proof);
  }

  lemma LaidOutOrder(p: BlindFoldProtocol, s: Statement, layout: Layout, ws: SlotValues)
    requires BuiltFrom(p, s, layout, ws) && WellFormed(p)
    ensures OutputsFirst(SlotsOf(p)) <==> CountNamed(s.finals) <= 1
  {
    var from := Start(|AllDegrees(s.stages)| + |AllUnknowns(s.stages)|, layout.rowLen);
    NamedOrder(p.dimensions, ws, p.finalOpenings, s.finals, layout.rowLen, from, 0);
  }
}
