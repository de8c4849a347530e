/** Protocols as they are built: dimensions from a layout, and why a built
    protocol is well formed for the prover. */
module Built {
  import opened Results
  import opened IntDivision
  import opened Fields
  import opened Vectors
  import opened Matrices
  import opened R1cs
  import opened RowCommitment
  import opened Protocol
  import opened Verifier
  import opened Layouts
  import opened Prover

  function CeilDiv(x: nat, len: nat): (q: nat)
    requires 0 < len
    ensures Cells(q, len) < x + len && x <= Cells(q, len)
  {
    var q := (x + len - 1) / len;
    assert x + len - 1 == q * len + (x + len - 1) % len;
    q
  }

  /** The entries of so many rows. */
  function Cells(rows: nat, len: nat): nat {
    rows * len
  }

  lemma CellsLe(i: nat, j: nat, len: nat)
    ensures i <= j ==> Cells(i, len) <= Cells(j, len)
    ensures 0 < len && i < j ==> Cells(i, len) < Cells(j, len)
  {
    if i <= j {
      MulLe(i, j, len);
    }
    if i < j {
      MulLe(i + 1, j, len);
      CellsNext(i, len);
    }
  }

  lemma CellsNext(i: nat, len: nat)
    ensures Cells(i + 1, len) == Cells(i, len) + len
  {
  }

  lemma CellsAdd(a: nat, b: nat, len: nat)
    ensures Cells(a + b, len) == Cells(a, len) + Cells(b, len)
  {
  }

  function Min(a: nat, b: nat): nat {
    if a < b then a else b
  }

  /** `Layout::dimensions`. */
  function DimensionsOf(len: nat, rounds: nat, claimRows: nat, numVars: nat,
                        constraints: nat): Result<Dimensions, RelaxedError>
    requires 0 < len
  {
    var values := if numVars == 0 then 0 else numVars - 1;
    var used := Cells(rounds, len) + Cells(claimRows, len);
    if values < used then Err(RelaxedError.InconsistentDimensions(values, used))
    else
      var auxiliary := CeilDiv(values - used, len);
      var rowCount := NextPow2(Max(rounds + claimRows + auxiliary, 1));
      match FromCounts(rounds, claimRows, auxiliary, rowCount)
      case Err(e) => Err(e)
      case Ok(rows) =>
        var padded := NextPow2(Max(constraints, 1));
        var errorLen := Min(len, padded);
        Ok(Dimensions(RowDimensions(len, rowCount), RowDimensions(errorLen, padded / errorLen), rows, rounds, claimRows,
                      auxiliary))
  }

  lemma {:induction false} Pow2Quotient(p: nat, q: nat)
    requires IsPow2(p) && IsPow2(q) && q <= p
    ensures IsPow2(p / q) && p / q * q == p
    decreases q
  {
    if q > 1 {
      Pow2Quotient(p / 2, q / 2);
      HalveBoth(p / 2, q / 2);
    }
  }

  lemma HalveBoth(a: nat, b: nat)
    requires 0 < b && a / b * b == a
    ensures (2 * a) / (2 * b) == a / b && (2 * a) / (2 * b) * (2 * b) == 2 * a
  {
    var k := a / b;
    assert 2 * a == k * (2 * b) + 0;
    DivModUnique(2 * a, 2 * b, k, 0);
  }

  /** What the dimensions of a layout are. */
  lemma DimensionsAre(len: nat, rounds: nat, claimRows: nat, numVars: nat, constraints: nat)
    requires 0 < len && Cells(rounds, len) + Cells(claimRows, len) < numVars
    ensures DimensionsOf(len, rounds, claimRows, numVars, constraints).Ok?
    ensures var d, padded := DimensionsOf(len, rounds, claimRows, numVars, constraints).value,
                             NextPow2(Max(constraints, 1));
      && d.coefficientRows == rounds && d.outputClaimRows == claimRows
      && d.auxiliaryRows == CeilDiv(numVars - 1 - (Cells(rounds, len) + Cells(claimRows, len)), len)
      && d.grid == RowDimensions(len, NextPow2(Max(rounds + claimRows + d.auxiliaryRows, 1)))
      && d.error == RowDimensions(Min(len, padded), padded / Min(len, padded))
      && FromCounts(rounds, claimRows, d.auxiliaryRows, d.grid.rowCount) == Ok(d.rows)
  {
  }

  /** For every layout the dimensions exist, are powers of two, and hold all
      the variables and constraints. */
  lemma DimensionsFit(len: nat, rounds: nat, claimRows: nat, numVars: nat, constraints: nat)
    requires IsPow2(len) && 0 < len && Cells(rounds, len) + Cells(claimRows, len) < numVars
    ensures DimensionsOf(len, rounds, claimRows, numVars, constraints).Ok?
    ensures var d := DimensionsOf(len, rounds, claimRows, numVars, constraints).value;
      && WellFormedDimensions(d) && d.grid.rowLen == len && d.coefficientRows == rounds
      && d.outputClaimRows == claimRows
      && numVars - 1 <= Cells(rounds + claimRows + d.auxiliaryRows, len) <= Cells(d.grid.rowCount, len)
      && constraints <= Cells(d.error.rowCount, d.error.rowLen)
  {
    hide DimensionsOf, CeilDiv, NextPow2, FromCounts, Cells, IsPow2;
    DimensionsAre(len, rounds, claimRows, numVars, constraints);
    var d := DimensionsOf(len, rounds, claimRows, numVars, constraints).value;
    ErrorFits(len, constraints);
    GridFits(len, rounds, claimRows, numVars - 1);
    CellsLe(rounds + claimRows + d.auxiliaryRows, d.grid.rowCount, len);
  }

  /** The four row ranges partition the grid. */
  lemma RangesPartition(coefficientRows: nat, claimRows: nat, auxiliaryRows: nat, rowCount: nat)
    ensures FromCounts(coefficientRows, claimRows, auxiliaryRows, rowCount).Ok? <==>
      coefficientRows + claimRows + auxiliaryRows <= rowCount
    ensures FromCounts(coefficientRows, claimRows, auxiliaryRows, rowCount).Ok? ==>
      var r := FromCounts(coefficientRows, claimRows, auxiliaryRows, rowCount).value;
      && r.coefficients.start == 0 && r.coefficients.end == r.outputClaims.start
      && r.outputClaims.end == r.auxiliary.start
      && r.auxiliary.end == r.padding.start && r.padding.end == rowCount
      && r.coefficients.end - r.coefficients.start == coefficientRows
      && r.outputClaims.end - r.outputClaims.start == claimRows
      && r.auxiliary.end - r.auxiliary.start == auxiliaryRows && r.padding.start <= r.padding.end
  {
  }

  lemma ErrorFits(len: nat, constraints: nat)
    requires IsPow2(len) && 0 < len
    ensures var padded := NextPow2(Max(constraints, 1));
      var errorLen := Min(len, padded);
      IsPow2(errorLen) && IsPow2(padded / errorLen) && constraints <= Cells(padded / errorLen, errorLen)
  {
    var padded := NextPow2(Max(constraints, 1));
    Pow2Quotient(padded, Min(len, padded));
  }

  lemma GridFits(len: nat, rounds: nat, claimRows: nat, values: nat)
    requires 0 < len && Cells(rounds, len) + Cells(claimRows, len) <= values
    ensures values <= Cells(rounds + claimRows + CeilDiv(values - (Cells(rounds, len) + Cells(claimRows, len)), len),
                            len)
  {
    var auxiliary := CeilDiv(values - (Cells(rounds, len) + Cells(claimRows, len)), len);
    hide Cells, CeilDiv;
    CellsAdd(rounds, claimRows, len);
    CellsAdd(rounds + claimRows, auxiliary, len);
  }

  // The final openings' slots in the grid.

  /** A slot alone in an auxiliary row. */
  ghost predicate SlotPlaced(slot: Slot, d: Dimensions, from: nat, values: nat) {
    && slot.at.column == 0 && from <= Cells(slot.at.row, d.grid.rowLen)
    && Cells(slot.at.row + 1, d.grid.rowLen) <= values
  }

  ghost predicate RowsRise(slots: seq<Slot>) {
    forall j, k :: 0 <= j < k < |slots| ==> slots[j].at.row < slots[k].at.row
  }

  /** The coordinate of a variable that starts a row. */
  lemma RowStartCoordinate(d: Dimensions, variable: nat, values: nat)
    requires 0 < d.grid.rowLen && 1 <= variable && (variable - 1) % d.grid.rowLen == 0
    requires variable - 1 + d.grid.rowLen <= values <= Cells(d.grid.rowCount, d.grid.rowLen)
    ensures WitnessCoordinate(d, variable).Ok?
    ensures var c := WitnessCoordinate(d, variable).value;
      c.column == 0 && Cells(c.row, d.grid.rowLen) == variable - 1 && Cells(c.row + 1, d.grid.rowLen) <= values
  {
    var row := (variable - 1) / d.grid.rowLen;
    assert variable - 1 == row * d.grid.rowLen + 0;
    CellsNext(row, d.grid.rowLen);
  }

  lemma LaterRow(p: nat, q: nat, len: nat)
    requires Cells(p, len) < Cells(q, len)
    ensures p < q
  {
    CellsLe(q, p, len);
  }

  /** Listed in the verifier's order, the slots are in ever later rows, each
      first in its row. */
  lemma {:induction false} SlotsRise(d: Dimensions, ws: SlotValues, finals: seq<FinalOpening>, named: seq<bool>,
                                     from: nat, values: nat, first: nat)
    requires 0 < d.grid.rowLen && values <= Cells(d.grid.rowCount, d.grid.rowLen) && |ws| <= values + 1 && 1 <= from
    requires FinalsAt(ws, finals, named, d.grid.rowLen, from) && LaterRows(finals, d.grid.rowLen)
    ensures FinalOpeningCoordinates(d, finals).Ok?
    ensures var slots := Slots(FinalOpeningCoordinates(d, finals).value, first);
      RowsRise(slots) && forall k :: 0 <= k < |slots| ==> SlotPlaced(slots[k], d, from - 1, values)
  {
    hide Cells;
    if finals != [] {
      var len, head, tail := d.grid.rowLen, finals[0], finals[1..];
      assert FinalAt(ws, head, named[0], len, from);
      assert LaterRows(tail, len);
      if named[0] {
        var e, b := head.evaluation.value, head.blinding.value;
        RowStartCoordinate(d, e, values);
        RowStartCoordinate(d, b, values);
        TailFrom(ws, finals, named, len, from, b + len);
        SlotsRise(d, ws, tail, named[1..], b + len, values, first + 1);
        HeadBeforeTail(d, finals, named, first, values);
      } else {
        TailOfFinals(ws, finals, named, len, from);
        SlotsRise(d, ws, tail, named[1..], from, values, first + 1);
        assert [] + [] + Slots(FinalOpeningCoordinates(d, tail).value, first + 1)
            == Slots(FinalOpeningCoordinates(d, tail).value, first + 1);
      }
    }
  }

  lemma TailOfFinals(ws: SlotValues, finals: seq<FinalOpening>, named: seq<bool>, len: nat, from: nat)
    requires finals != [] && FinalsAt(ws, finals, named, len, from)
    ensures FinalsAt(ws, finals[1..], named[1..], len, from)
  {
    forall i | 0 <= i < |finals[1..]| ensures FinalAt(ws, finals[1..][i], named[1..][i], len, from) {
      assert FinalAt(ws, finals[i + 1], named[i + 1], len, from);
    }
  }

  lemma TailFrom(ws: SlotValues, finals: seq<FinalOpening>, named: seq<bool>, len: nat, from: nat, later: nat)
    requires finals != [] && FinalsAt(ws, finals, named, len, from) && LaterRows(finals, len)
    requires named[0] && later == finals[0].blinding.value + len
    ensures FinalsAt(ws, finals[1..], named[1..], len, later)
  {
    forall i | 0 <= i < |finals[1..]| ensures FinalAt(ws, finals[1..][i], named[1..][i], len, later) {
      assert FinalAt(ws, finals[i + 1], named[i + 1], len, from) && FinalAt(ws, finals[0], named[0], len, from);
    }
  }

  lemma HeadBeforeTail(d: Dimensions, finals: seq<FinalOpening>, named: seq<bool>, first: nat, values: nat)
    requires finals != [] && |finals| == |named| && named[0] && 0 < d.grid.rowLen
    requires finals[0].evaluation.Some? && finals[0].blinding.Some? && FinalOpeningCoordinates(d, finals[1..]).Ok?
    requires var len, e, b := d.grid.rowLen, finals[0].evaluation.value, finals[0].blinding.value;
      && WitnessCoordinate(d, e).Ok? && WitnessCoordinate(d, b).Ok? && 1 <= e && e + len <= b
      && Cells(WitnessCoordinate(d, e).value.row, len) == e - 1
      && Cells(WitnessCoordinate(d, b).value.row, len) == b - 1
    requires var tail := Slots(FinalOpeningCoordinates(d, finals[1..]).value, first + 1);
      RowsRise(tail) && forall k :: 0 <= k < |tail| ==> SlotPlaced(tail[k], d,
                                                                   finals[0].blinding.value + d.grid.rowLen - 1, values)
    ensures FinalOpeningCoordinates(d, finals).Ok?
    ensures var slots := Slots(FinalOpeningCoordinates(d, finals).value, first);
      && RowsRise(slots) && |slots| >= 2
      && slots[2..] == Slots(FinalOpeningCoordinates(d, finals[1..]).value, first + 1)
      && slots[0].at == WitnessCoordinate(d, finals[0].evaluation.value).value
      && slots[1].at == WitnessCoordinate(d, finals[0].blinding.value).value
  {
    var len, e, b := d.grid.rowLen, finals[0].evaluation.value, finals[0].blinding.value;
    var ce, cb := WitnessCoordinate(d, e).value, WitnessCoordinate(d, b).value;
    var coordinates, rest := FinalOpeningCoordinates(d, finals).value, FinalOpeningCoordinates(d, finals[1..]).value;
    assert coordinates == [FinalCoordinates(Some(ce), Some(cb))] + rest;
    assert coordinates[1..] == rest;
    var slots, tail := Slots(coordinates, first), Slots(rest, first + 1);
    assert slots == [Slot(Output, first, ce), Slot(Blinding, first, cb)] + tail;
    LaterRow(ce.row, cb.row, len);
    forall k | 0 <= k < |tail| ensures cb.row < tail[k].at.row {
      assert SlotPlaced(tail[k], d, b + len - 1, values);
      LaterRow(cb.row, tail[k].at.row, len);
    }
    forall j, k | 0 <= j < k < |slots| ensures slots[j].at.row < slots[k].at.row {
      if k >= 2 {
        assert slots[k] == tail[k - 2];
        if j >= 2 {
          assert slots[j] == tail[j - 2];
        }
      }
    }
  }

  // A built protocol.

  /** The protocol `from_parts` assembles from a layout and the matrices built
      on it; the builder may have allocated more variables after the layout. */
  ghost predicate BuiltFrom(p: BlindFoldProtocol, s: Statement, layout: Layout, ws: SlotValues) {
    var rounds, claims := |AllDegrees(s.stages)|, |AllUnknowns(s.stages)|;
    && LaidOut(s, layout, ws) && ValidMatrices(p.r1cs) && |ws| <= p.r1cs.numVars
    && DimensionsOf(layout.rowLen, rounds, claims, p.r1cs.numVars, |p.r1cs.a|) == Ok(p.dimensions)
    && |p.roundCommitments| == rounds && |p.outputClaimCommitments| == claims
    && p.finalOpenings == layout.finals && |p.evalCommitments| == |layout.finals|
  }

  /** Every built protocol is well formed: what the prover asks of one is what
      the layout gives. */
  lemma BuiltIsWellFormed(p: BlindFoldProtocol, s: Statement, layout: Layout, ws: SlotValues)
    requires BuiltFrom(p, s, layout, ws)
    ensures WellFormed(p)
  {
    var len, rounds, claims := layout.rowLen, |AllDegrees(s.stages)|, |AllUnknowns(s.stages)|;
    var d, values := p.dimensions, p.r1cs.numVars - 1;
    CellsAdd(rounds, claims, len);
    DimensionsFit(len, rounds, claims, p.r1cs.numVars, |p.r1cs.a|);
    assert Start(rounds + claims, len) - 1 == Cells(rounds + claims, len);
    assert p.r1cs.numVars <= d.grid.rowCount * d.grid.rowLen + 1 && |p.r1cs.a| <= d.error.rowCount * d.error.rowLen;
    hide Cells, Start, DimensionsOf, WellFormedDimensions;
    SlotsRise(d, ws, p.finalOpenings, s.finals, Start(rounds + claims, len), values, 0);
    DedicatedSlots(d, SlotsOf(p), rounds + claims, values);
  }

  lemma DedicatedSlots(d: Dimensions, slots: seq<Slot>, start: nat, values: nat)
    requires 0 < d.grid.rowLen && RowsRise(slots) && forall k :: 0 <= k < |slots| ==>
      SlotPlaced(slots[k], d, Cells(start, d.grid.rowLen), values)
    requires WellFormedDimensions(d) && start == d.rows.auxiliary.start
    requires values <= Cells(start + d.auxiliaryRows, d.grid.rowLen)
    ensures SlotsDedicated(d, slots)
  {
    var len := d.grid.rowLen;
    forall k | 0 <= k < |slots|
      ensures d.rows.auxiliary.start <= slots[k].at.row < d.rows.auxiliary.end && slots[k].at.column < len
    {
      assert SlotPlaced(slots[k], d, Cells(start, len), values);
      InAuxiliary(start, slots[k].at.row, start + d.auxiliaryRows, len, values);
    }
    forall j, k | 0 <= j < k < |slots| ensures slots[j].at.row != slots[k].at.row {
    }
  }

  lemma InAuxiliary(start: nat, row: nat, end: nat, len: nat, values: nat)
    requires 0 < len && Cells(start, len) <= Cells(row, len) && Cells(row + 1, len) <= values <= Cells(end, len)
    ensures start <= row < end
  {
    CellsLe(row, start, len);
    CellsLe(end, row + 1, len);
  }

  // Final openings in an assigned witness.

  /** A full witness that keeps the values fixed at allocation. */
  ghost predicate KeepsPadding(ws: SlotValues, z: seq<int>) {
    |ws| <= |z| && forall i :: 0 <= i < |ws| && ws[i].Some? ==> z[i] == ws[i].value
  }

  /** In the grid over an assigned witness the row of a private scalar holds
      the scalar in its first column and nothing else. */
  lemma PrivateScalarDedicated(f: Field, d: Dimensions, ws: SlotValues, z: seq<int>, variable: nat)
    requires IsField(f) && AloneInRow(ws, d.grid.rowLen, variable) && KeepsPadding(ws, z)
    requires |z| - 1 <= Cells(d.grid.rowCount, d.grid.rowLen)
    ensures WitnessCoordinate(d, variable).Ok?
    ensures var c, rows := WitnessCoordinate(d, variable).value, Chunks(z[1..], d.grid.rowLen, d.grid.rowCount);
      && c.column == 0 && c.row < |rows| && rows[c.row][0] == z[variable] && DedicatedRow(f, 0, rows[c.row])
  {
    var len, rows := d.grid.rowLen, Chunks(z[1..], d.grid.rowLen, d.grid.rowCount);
    RowStartCoordinate(d, variable, |z| - 1);
    var c := WitnessCoordinate(d, variable).value;
    LaterRowOrLast(c.row, d.grid.rowCount, len, |z| - 1);
    forall e | 0 <= e < len ensures rows[c.row][e] == z[variable + e] {
      assert rows[c.row][e] == At(z[1..], c.row * len + e);
      assert Cells(c.row, len) == c.row * len;
    }
  }

  lemma LaterRowOrLast(row: nat, rowCount: nat, len: nat, values: nat)
    requires 0 < len && Cells(row + 1, len) <= values <= Cells(rowCount, len)
    ensures row < rowCount
  {
    CellsLe(rowCount, row + 1, len);
    CellsLe(rowCount, row, len);
    CellsNext(row, len);
  }
}
