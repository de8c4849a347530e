/** What folding hides: for any other witness of the same commitments there is
    other randomness under which the proof commits to the same elements, draws
    the same folding challenge and folds to the same grids. */
module Hiding {
  import opened Results
  import opened Fields
  import opened Vectors
  import opened Multilinear
  import opened Matrices
  import opened R1cs
  import opened RowCommitment
  import opened Transcripts
  import opened Protocol
  import opened Verifier
  import opened Prover
  import opened Absorption

  // Moving what was drawn to make up for a moved witness.

  /** `r` moved so that folding it onto `b` is folding the old one onto `a`. */
  function Shifted(r: seq<int>, a: seq<int>, b: seq<int>, k: int): (s: seq<int>)
    requires |a| == |b| == |r|
    ensures |s| == |r|
  {
    VAdd(r, Scale(k, VAdd(a, Scale(-1, b))))
  }

  function ShiftedScalar(r: int, a: int, b: int, k: int): int {
    r + k * (a - b)
  }

  lemma ShiftedAt(r: seq<int>, a: seq<int>, b: seq<int>, k: int, i: nat)
    requires |a| == |b| == |r| && i < |r|
    ensures Shifted(r, a, b, k)[i] == ShiftedScalar(r[i], a[i], b[i], k)
  {
  }

  lemma FoldScalarAlike(f: Field, r: int, a: int, b: int, s: int, c: int, k: int)
    requires IsField(f) && Same(f, c * k, 1) && Same(f, s, ShiftedScalar(r, a, b, k))
    ensures Same(f, b + c * s, a + c * r)
  {
    SameMul(f, c, c, s, r + k * (a - b));
    SameMul(f, c * k, 1, a - b, a - b);
    SameAdd(f, c * r, c * r, (c * k) * (a - b), 1 * (a - b));
    Regroup(r, a - b, c, k);
    SameAdd(f, b, b, c * s, c * r + (a - b));
    SameAdd(f, b, b, c * r + (c * k) * (a - b), c * r + (a - b));
  }

  lemma Regroup(r: int, d: int, c: int, k: int)
    ensures c * (r + k * d) == c * r + (c * k) * d && 1 * d == d
  {
  }

  lemma FoldAlike(f: Field, r: seq<int>, a: seq<int>, b: seq<int>, s: seq<int>, c: int, k: int)
    requires IsField(f) && Same(f, c * k, 1) && |a| == |b| == |r| && SameVec(f, s, Shifted(r, a, b, k))
    ensures SameVec(f, Folded(b, s, c), Folded(a, r, c))
  {
    forall i | 0 <= i < |r| ensures Same(f, Folded(b, s, c)[i], Folded(a, r, c)[i]) {
      ShiftedAt(r, a, b, k, i);
      FoldScalarAlike(f, r[i], a[i], b[i], s[i], c, k);
    }
  }

  lemma SameCommit(f: Field, setup: Setup, xs: seq<int>, x: int, ys: seq<int>, y: int)
    requires IsField(f) && |xs| <= Capacity(setup) && SameVec(f, xs, ys) && Same(f, x, y)
    ensures Same(f, Commit(setup, xs, x), Commit(setup, ys, y))
  {
    var g, h := setup.generators[..|xs|], setup.blindingGenerator;
    DotSame(f, xs, g, ys, g);
    SameMul(f, x, y, h, h);
    SameAdd(f, Dot(xs, g), Dot(ys, g), x * h, y * h);
  }

  /** When two rows have one commitment, moving by their difference does not show. */
  lemma ShiftedCommit(f: Field, setup: Setup, r: seq<int>, x: int, a: seq<int>, u: int, b: seq<int>, v: int, k: int)
    requires IsField(f) && |a| == |b| == |r| <= Capacity(setup)
    requires Same(f, Commit(setup, a, u), Commit(setup, b, v))
    ensures Same(f, Commit(setup, Shifted(r, a, b, k), ShiftedScalar(x, u, v, k)), Commit(setup, r, x))
  {
    hide Commit;
    var d := VAdd(a, Scale(-1, b));
    assert ShiftedScalar(x, u, v, k) == x + k * (u + -1 * v);
    CommitAdd(setup, r, Scale(k, d), x, k * (u + -1 * v));
    CommitScale(setup, k, d, u + -1 * v);
    CommitAdd(setup, a, Scale(-1, b), u, -1 * v);
    CommitScale(setup, -1, b, v);
    SameSub(f, Commit(setup, a, u), Commit(setup, b, v), Commit(setup, b, v), Commit(setup, b, v));
    SameMul(f, k, k, Commit(setup, a, u) - Commit(setup, b, v), 0);
    SameAdd(f, Commit(setup, r, x), Commit(setup, r, x), k * (Commit(setup, a, u) - Commit(setup, b, v)), k * 0);
  }

  // The randomness for the other witness.

  /** Two witnesses with the same row commitments; where the prover draws no
      blinding they agree on it, and in the padding rows altogether. */
  ghost predicate Alike(f: Field, setup: Setup, p: BlindFoldProtocol, w: BlindFoldWitness, v: BlindFoldWitness)
    requires WellFormed(p) && FitsSetup(p, setup) && WitnessShaped(p, w) && WitnessShaped(p, v)
  {
    var d := p.dimensions;
    && (forall i :: 0 <= i < d.grid.rowCount ==>
         Same(f, Commit(setup, w.rows[i], w.blindings[i]), Commit(setup, v.rows[i], v.blindings[i])))
    && (forall i :: 0 <= i < d.grid.rowCount && (d.rows.padding.start <= i || IsSlotRow(SlotsOf(p), i)) ==>
         Same(f, w.blindings[i], v.blindings[i]))
    && (forall i :: d.rows.padding.start <= i < d.grid.rowCount ==> SameVec(f, w.rows[i], v.rows[i]))
  }

  ghost function SlotAt(slots: seq<Slot>, row: nat): (k: nat)
    requires IsSlotRow(slots, row)
    ensures k < |slots| && slots[k].at.row == row
  {
    var k :| 0 <= k < |slots| && slots[k].at.row == row;
    k
  }

  /** The mask that is prepared from given draws, row by row. */
  ghost function MaskRow(p: BlindFoldProtocol, r: Randomness, i: nat): (row: seq<int>)
    requires WellFormed(p) && RandomnessShaped(p, r) && i < p.dimensions.grid.rowCount
    ensures |row| == p.dimensions.grid.rowLen
  {
    var d, slots := p.dimensions, SlotsOf(p);
    if d.rows.padding.start <= i then Zeros(d.grid.rowLen)
    else if IsSlotRow(slots, i) then
      var slot := slots[SlotAt(slots, i)];
      Zeros(d.grid.rowLen)[slot.at.column := SlotValue(slot, r.evalOutputs, r.evalBlindings)]
    else r.rows[i]
  }

  ghost function MaskBlinding(p: BlindFoldProtocol, r: Randomness, i: nat): int
    requires WellFormed(p) && RandomnessShaped(p, r) && i < p.dimensions.grid.rowCount
  {
    if p.dimensions.rows.padding.start <= i || IsSlotRow(SlotsOf(p), i) then 0 else r.blindings[i]
  }

  ghost function MaskOf(p: BlindFoldProtocol, r: Randomness): (mask: Mask)
    requires WellFormed(p) && RandomnessShaped(p, r)
    ensures Grid(mask.rows, p.dimensions.grid) && |mask.blindings| == p.dimensions.grid.rowCount
    ensures forall i :: 0 <= i < p.dimensions.grid.rowCount ==> mask.rows[i] == MaskRow(p, r, i)
    ensures forall i :: 0 <= i < p.dimensions.grid.rowCount ==> mask.blindings[i] == MaskBlinding(p, r, i)
  {
    var count := p.dimensions.grid.rowCount;
    Mask(seq(count, i requires 0 <= i < count => MaskRow(p, r, i)),
         seq(count, i requires 0 <= i < count => MaskBlinding(p, r, i)))
  }

  lemma SlotRow(p: BlindFoldProtocol, k: nat)
    requires WellFormed(p) && k < |SlotsOf(p)|
    ensures var at := SlotsOf(p)[k].at;
      && IsSlotRow(SlotsOf(p), at.row) && at.row < p.dimensions.rows.padding.start <= p.dimensions.grid.rowCount
      && SlotAt(SlotsOf(p), at.row) == k && at.column < p.dimensions.grid.rowLen
  {
  }

  lemma MaskOfPrepared(p: BlindFoldProtocol, r: Randomness)
    requires WellFormed(p) && RandomnessShaped(p, r)
    ensures MaskPrepared(p, r, MaskOf(p, r))
  {
    var d, slots, mask := p.dimensions, SlotsOf(p), MaskOf(p, r);
    forall k | 0 <= k < |slots|
      ensures mask.rows[slots[k].at.row]
           == Zeros(d.grid.rowLen)[slots[k].at.column := SlotValue(slots[k], r.evalOutputs, r.evalBlindings)]
      ensures mask.blindings[slots[k].at.row] == 0
    {
      SlotRow(p, k);
    }
  }

  function RowsShifted(rows: seq<seq<int>>, a: seq<seq<int>>, b: seq<seq<int>>, len: nat, k: int): (s: seq<seq<int>>)
    requires |a| == |b| == |rows| && Uniform(a, len) && Uniform(b, len) && Uniform(rows, len)
    ensures |s| == |rows| && Uniform(s, len)
  {
    seq(|rows|, i requires 0 <= i < |rows| => Shifted(rows[i], a[i], b[i], k))
  }

  /** Blindings that make other rows commit to the same elements. */
  function Rebound(setup: Setup, blindings: seq<int>, rows: seq<seq<int>>, other: seq<seq<int>>, len: nat,
                   hInv: int): (b: seq<int>)
    requires |rows| == |other| == |blindings| && Uniform(rows, len) && Uniform(other, len) && len <= Capacity(setup)
    ensures |b| == |blindings|
  {
    seq(|blindings|, i requires 0 <= i < |blindings| =>
      blindings[i] + hInv * (Commit(setup, rows[i], 0) - Commit(setup, other[i], 0)))
  }

  lemma ReboundCommits(f: Field, setup: Setup, blindings: seq<int>, rows: seq<seq<int>>, other: seq<seq<int>>,
                       len: nat, hInv: int)
    requires IsField(f) && |rows| == |other| == |blindings| && Uniform(rows, len) && Uniform(other, len)
    requires len <= Capacity(setup) && Same(f, setup.blindingGenerator * hInv, 1)
    ensures SameVec(f, CommitRows(setup, other, Rebound(setup, blindings, rows, other, len, hInv), len),
                    CommitRows(setup, rows, blindings, len))
  {
    forall i | 0 <= i < |rows|
      ensures Same(f, Commit(setup, other[i], Rebound(setup, blindings, rows, other, len, hInv)[i]),
                   Commit(setup, rows[i], blindings[i]))
    {
      ReboundRow(f, setup, blindings[i], rows[i], other[i], hInv);
    }
  }

  lemma ReboundRow(f: Field, setup: Setup, b: int, row: seq<int>, other: seq<int>, hInv: int)
    requires IsField(f) && |row| == |other| <= Capacity(setup) && Same(f, setup.blindingGenerator * hInv, 1)
    ensures Same(f, Commit(setup, other, b + hInv * (Commit(setup, row, 0) - Commit(setup, other, 0))),
                 Commit(setup, row, b))
  {
    var g, h := setup.generators[..|row|], setup.blindingGenerator;
    var x, y := Dot(row, g), Dot(other, g);
    assert 0 * h == 0;
    SameMul(f, h * hInv, 1, x - y, x - y);
    SameAdd(f, y + b * h, y + b * h, (h * hInv) * (x - y), 1 * (x - y));
    ReboundAlgebra(y, b, hInv, x - y, h);
  }

  lemma ReboundAlgebra(y: int, b: int, hInv: int, d: int, h: int)
    ensures y + (b + hInv * d) * h == y + b * h + (h * hInv) * d && 1 * d == d
  {
  }

  /** The draws that make `v` look like `w` drawn with `r`, for the challenge whose inverse is `k`. */
  ghost function OtherDraws(setup: Setup, p: BlindFoldProtocol, w: BlindFoldWitness, v: BlindFoldWitness, r: Randomness,
                            mask: Mask, k: int, hInv: int): (s: Randomness)
    requires Ready(setup, p, w, r, mask) && WitnessShaped(p, v) && FlatSize(v.rows, p.dimensions.grid)
    ensures RandomnessShaped(p, s) && s.u == r.u
  {
    var d := p.dimensions;
    var rows := RowsShifted(r.rows, w.rows, v.rows, d.grid.rowLen, k);
    var blindings := Shifted(r.blindings, w.blindings, v.blindings, k);
    var outputs, blinds := Shifted(r.evalOutputs, w.evalOutputs, v.evalOutputs, k),
                           Shifted(r.evalBlindings, w.evalBlindings, v.evalBlindings, k);
    var drawn := Randomness(r.u, rows, blindings, outputs, blinds, r.errorBlindings, r.crossBlindings);
    var other := MaskOf(p, drawn);
    GridFlatSize(other.rows, d.grid);
    drawn.(errorBlindings := Rebound(setup, r.errorBlindings, ErrorRows(p, r.u, mask.rows),
                                     ErrorRows(p, r.u, other.rows), d.error.rowLen, hInv),
           crossBlindings := Rebound(setup, r.crossBlindings, CrossRows(p, w.rows, r.u, mask.rows),
                                     CrossRows(p, v.rows, r.u, other.rows), d.error.rowLen, hInv))
  }

  // Row by row the prepared mask moves with the draws.

  lemma ZeroShifted(f: Field, a: seq<int>, b: seq<int>, k: int)
    requires IsField(f) && SameVec(f, a, b)
    ensures SameVec(f, Zeros(|a|), Shifted(Zeros(|a|), a, b, k))
  {
    forall i | 0 <= i < |a| ensures Same(f, 0, Shifted(Zeros(|a|), a, b, k)[i]) {
      ShiftedAt(Zeros(|a|), a, b, k, i);
      ScalarKept(f, 0, a[i], b[i], k);
    }
  }

  lemma ScalarKept(f: Field, r: int, a: int, b: int, k: int)
    requires IsField(f) && Same(f, a, b)
    ensures Same(f, r, ShiftedScalar(r, a, b, k))
  {
    SameDifference(f, a, b);
    SameMul(f, k, k, a - b, 0);
    SameAdd(f, r, r, k * (a - b), k * 0);
  }

  lemma ScalarMoved(f: Field, r: int, a: int, b: int, x: int, y: int, k: int)
    requires IsField(f) && Same(f, a, x) && Same(f, b, y)
    ensures Same(f, ShiftedScalar(r, x, y, k), ShiftedScalar(r, a, b, k))
  {
    SameSub(f, a, x, b, y);
    SameMul(f, k, k, a - b, x - y);
    SameAdd(f, r, r, k * (a - b), k * (x - y));
  }

  /** Scalars alone in their rows: the mask's scalar moves by theirs. */
  lemma AloneShifted(f: Field, a: seq<int>, b: seq<int>, column: nat, x: int, y: int, r: int, k: int)
    requires IsField(f) && column < |a| == |b| && Same(f, a[column], x) && Same(f, b[column], y)
    requires DedicatedRow(f, column, a) && DedicatedRow(f, column, b)
    ensures SameVec(f, Zeros(|a|)[column := ShiftedScalar(r, x, y, k)],
                    Shifted(Zeros(|a|)[column := r], a, b, k))
  {
    var left, right := Zeros(|a|)[column := ShiftedScalar(r, x, y, k)], Shifted(Zeros(|a|)[column := r], a, b, k);
    forall i | 0 <= i < |a| ensures Same(f, left[i], right[i]) {
      ShiftedAt(Zeros(|a|)[column := r], a, b, k, i);
      if i == column {
        ScalarMoved(f, r, a[i], b[i], x, y, k);
      } else {
        ScalarKept(f, 0, a[i], b[i], k);
      }
    }
  }

  /** The draws with every part but the error blindings moved. */
  ghost predicate MovedDraws(p: BlindFoldProtocol, w: BlindFoldWitness, v: BlindFoldWitness, r: Randomness,
                             s: Randomness, k: int)
    requires WellFormed(p) && WitnessShaped(p, w) && WitnessShaped(p, v) && RandomnessShaped(p, r)
  {
    && RandomnessShaped(p, s) && s.u == r.u
    && s.rows == RowsShifted(r.rows, w.rows, v.rows, p.dimensions.grid.rowLen, k)
    && s.blindings == Shifted(r.blindings, w.blindings, v.blindings, k)
    && s.evalOutputs == Shifted(r.evalOutputs, w.evalOutputs, v.evalOutputs, k)
    && s.evalBlindings == Shifted(r.evalBlindings, w.evalBlindings, v.evalBlindings, k)
  }

  ghost predicate RowMoved(f: Field, mask: Mask, other: Mask, w: BlindFoldWitness, v: BlindFoldWitness, k: int, i: nat)
    requires |mask.rows| == |mask.blindings| == |other.rows| == |other.blindings|
    requires |w.rows| == |w.blindings| == |v.rows| == |v.blindings| == |mask.rows| && i < |mask.rows|
    requires |mask.rows[i]| == |w.rows[i]| == |v.rows[i]|
  {
    && SameVec(f, other.rows[i], Shifted(mask.rows[i], w.rows[i], v.rows[i], k))
    && Same(f, other.blindings[i], ShiftedScalar(mask.blindings[i], w.blindings[i], v.blindings[i], k))
  }

  lemma SlotMoved(f: Field, p: BlindFoldProtocol, w: BlindFoldWitness, v: BlindFoldWitness, r: Randomness, mask: Mask,
                  s: Randomness, k: int, j: nat)
    requires IsField(f) && WellFormed(p) && WitnessShaped(p, w) && WitnessShaped(p, v) && RandomnessShaped(p, r)
    requires MaskPrepared(p, r, mask) && MovedDraws(p, w, v, r, s, k) && j < |SlotsOf(p)|
    requires SlotsHold(f, SlotsOf(p), w.rows, w.evalOutputs, w.evalBlindings)
    requires SlotsHold(f, SlotsOf(p), v.rows, v.evalOutputs, v.evalBlindings)
    requires Same(f, w.blindings[SlotsOf(p)[j].at.row], v.blindings[SlotsOf(p)[j].at.row])
    ensures RowMoved(f, mask, MaskOf(p, s), w, v, k, SlotsOf(p)[j].at.row)
  {
    hide Shifted, Same, SlotsOf, SlotsDedicated, FromCounts;
    var slot := SlotsOf(p)[j];
    var i, column := slot.at.row, slot.at.column;
    SlotRow(p, j);
    var x, y := SlotValue(slot, w.evalOutputs, w.evalBlindings), SlotValue(slot, v.evalOutputs, v.evalBlindings);
    var drawn := SlotValue(slot, r.evalOutputs, r.evalBlindings);
    SlotValueMoved(slot, r, w, v, s, k);
    AloneShifted(f, w.rows[i], v.rows[i], column, x, y, drawn, k);
    ScalarKept(f, 0, w.blindings[i], v.blindings[i], k);
  }

  lemma SlotValueMoved(slot: Slot, r: Randomness, w: BlindFoldWitness, v: BlindFoldWitness, s: Randomness, k: int)
    requires |r.evalOutputs| == |w.evalOutputs| == |v.evalOutputs| && slot.index < |r.evalOutputs|
    requires |r.evalBlindings| == |w.evalBlindings| == |v.evalBlindings| && slot.index < |r.evalBlindings|
    requires s.evalOutputs == Shifted(r.evalOutputs, w.evalOutputs, v.evalOutputs, k)
    requires s.evalBlindings == Shifted(r.evalBlindings, w.evalBlindings, v.evalBlindings, k)
    ensures SlotValue(slot, s.evalOutputs, s.evalBlindings)
         == ShiftedScalar(SlotValue(slot, r.evalOutputs, r.evalBlindings),
                          SlotValue(slot, w.evalOutputs, w.evalBlindings),
                          SlotValue(slot, v.evalOutputs, v.evalBlindings), k)
  {
    ShiftedAt(r.evalOutputs, w.evalOutputs, v.evalOutputs, k, slot.index);
    ShiftedAt(r.evalBlindings, w.evalBlindings, v.evalBlindings, k, slot.index);
  }

  lemma SameVecReflexive(f: Field, xs: seq<int>)
    ensures SameVec(f, xs, xs)
  {
  }

  lemma EveryRowMoved(f: Field, setup: Setup, p: BlindFoldProtocol, w: BlindFoldWitness, v: BlindFoldWitness,
                      r: Randomness, mask: Mask, s: Randomness, k: int, i: nat)
    requires IsField(f) && WellFormed(p) && WitnessShaped(p, w) && WitnessShaped(p, v) && RandomnessShaped(p, r)
    requires FitsSetup(p, setup) && Alike(f, setup, p, w, v) && i < p.dimensions.grid.rowCount
    requires MaskPrepared(p, r, mask) && MovedDraws(p, w, v, r, s, k)
    requires SlotsHold(f, SlotsOf(p), w.rows, w.evalOutputs, w.evalBlindings)
    requires SlotsHold(f, SlotsOf(p), v.rows, v.evalOutputs, v.evalBlindings)
    ensures RowMoved(f, mask, MaskOf(p, s), w, v, k, i)
  {
    hide Shifted, SlotsHold, SlotsOf, SlotsDedicated, FromCounts, Commit, ShiftedScalar;
    if p.dimensions.rows.padding.start <= i {
      ZeroShifted(f, w.rows[i], v.rows[i], k);
      ScalarKept(f, 0, w.blindings[i], v.blindings[i], k);
    } else if IsSlotRow(SlotsOf(p), i) {
      var j := SlotAt(SlotsOf(p), i);
      SlotMoved(f, p, w, v, r, mask, s, k, j);
    } else {
      ShiftedAt(r.blindings, w.blindings, v.blindings, k, i);
      SameVecReflexive(f, Shifted(mask.rows[i], w.rows[i], v.rows[i], k));
    }
  }

  // The folded grids.

  ghost predicate RowsAlike(f: Field, a: seq<seq<int>>, b: seq<seq<int>>) {
    |a| == |b| && forall i :: 0 <= i < |a| ==> SameVec(f, a[i], b[i])
  }

  lemma {:induction false} FlattenAlike(f: Field, a: seq<seq<int>>, b: seq<seq<int>>)
    requires RowsAlike(f, a, b)
    ensures SameVec(f, Flatten(a), Flatten(b))
  {
    if a != [] {
      assert RowsAlike(f, a[1..], b[1..]) by {
        assert forall i :: 0 <= i < |a[1..]| ==> a[1..][i] == a[i + 1] && b[1..][i] == b[i + 1];
      }
      FlattenAlike(f, a[1..], b[1..]);
      SameParts(f, a[0], Flatten(a[1..]), b[0], Flatten(b[1..]));
    }
  }

  lemma EntryOf(a: seq<seq<int>>, b: seq<seq<int>>, len: nat, i: nat, e: nat) returns (j: nat)
    requires |a| == |b| && Uniform(a, len) && Uniform(b, len) && i < |a| && e < len
    ensures j < |Flatten(a)| && j < |Flatten(b)| && Flatten(a)[j] == a[i][e] && Flatten(b)[j] == b[i][e]
  {
    hide *;
    FlattenAt(a, len, i, e);
    FlattenAt(b, len, i, e);
    j := i * len + e;
  }

  lemma RowsFromFlat(f: Field, a: seq<seq<int>>, b: seq<seq<int>>, len: nat)
    requires |a| == |b| && Uniform(a, len) && Uniform(b, len) && SameVec(f, Flatten(a), Flatten(b))
    ensures RowsAlike(f, a, b)
  {
    hide Flatten, Same;
    forall i, e | 0 <= i < |a| && 0 <= e < len ensures Same(f, a[i][e], b[i][e]) {
      var j := EntryOf(a, b, len, i, e);
      assert Same(f, Flatten(a)[j], Flatten(b)[j]);
    }
  }

  lemma {:induction false} SparseDotAlike(f: Field, row: SparseRow, y: seq<int>, z: seq<int>)
    requires IsField(f) && SameVec(f, y, z) && ColumnsBelow(row, |y|)
    ensures Same(f, SparseDot(row, y), SparseDot(row, z))
  {
    if row != [] {
      SparseDotAlike(f, row[1..], y, z);
      var (column, c) := row[0];
      SameMul(f, c, c, y[column], z[column]);
      SameAdd(f, c * y[column], c * z[column], SparseDot(row[1..], y), SparseDot(row[1..], z));
    }
  }

  lemma ResidualAlike(f: Field, m: ConstraintMatrices, k: nat, u: int, y: seq<int>, z: seq<int>)
    requires IsField(f) && ValidMatrices(m) && k < |m.a| && m.numVars <= |y| && SameVec(f, y, z)
    ensures Same(f, Residual(m, k, u, y), Residual(m, k, u, z))
  {
    WiderColumns(m.a[k], m.numVars, |y|);
    WiderColumns(m.b[k], m.numVars, |y|);
    WiderColumns(m.c[k], m.numVars, |y|);
    SparseDotAlike(f, m.a[k], y, z);
    SparseDotAlike(f, m.b[k], y, z);
    SparseDotAlike(f, m.c[k], y, z);
    SameMul(f, SparseDot(m.a[k], y), SparseDot(m.a[k], z), SparseDot(m.b[k], y), SparseDot(m.b[k], z));
    SameMul(f, u, u, SparseDot(m.c[k], y), SparseDot(m.c[k], z));
    SameSub(f, SparseDot(m.a[k], y) * SparseDot(m.b[k], y), SparseDot(m.a[k], z) * SparseDot(m.b[k], z),
            u * SparseDot(m.c[k], y), u * SparseDot(m.c[k], z));
  }

  lemma WiderColumns(row: SparseRow, n: nat, more: nat)
    requires ColumnsBelow(row, n) && n <= more
    ensures ColumnsBelow(row, more)
  {
  }

  /** Exact errors are a function of the witness, in the field. */
  lemma ErrorsAlike(f: Field, m: ConstraintMatrices, u: int, x: seq<int>, y: seq<int>, e: seq<int>, g: seq<int>)
    requires IsField(f) && ValidMatrices(m) && m.numVars <= |x| + 1 && SameVec(f, x, y) && |e| == |g|
    requires ErrorsExact(f, m, u, x, e) && ErrorsExact(f, m, u, y, g)
    ensures SameVec(f, e, g)
  {
    hide Residual;
    assert SameVec(f, ZVector(u, x), ZVector(u, y));
    forall k | 0 <= k < |e| ensures Same(f, e[k], g[k]) {
      if k < |m.a| {
        ResidualAlike(f, m, k, u, ZVector(u, x), ZVector(u, y));
        assert Same(f, Residual(m, k, u, ZVector(u, x)), e[k]);
        assert Same(f, Residual(m, k, u, ZVector(u, y)), g[k]);
      } else {
        assert Same(f, e[k], 0) && Same(f, g[k], 0);
      }
    }
  }

  /** Two folded witnesses the openings cannot tell apart. */
  ghost predicate SameFolding(f: Field, x: Folding, y: Folding) {
    && Same(f, x.u, y.u) && RowsAlike(f, x.rows, y.rows) && SameVec(f, x.blindings, y.blindings)
    && RowsAlike(f, x.errorRows, y.errorRows) && SameVec(f, x.errorBlindings, y.errorBlindings)
    && SameVec(f, x.evalOutputs, y.evalOutputs) && SameVec(f, x.evalBlindings, y.evalBlindings)
  }

  lemma FoldedRowsAlike(f: Field, len: nat, mask: Mask, other: Mask, w: BlindFoldWitness, v: BlindFoldWitness, c: int,
                        k: int)
    requires IsField(f) && Same(f, c * k, 1)
    requires |mask.rows| == |mask.blindings| == |other.rows| == |other.blindings|
    requires |w.rows| == |w.blindings| == |v.rows| == |v.blindings| == |mask.rows|
    requires Uniform(mask.rows, len) && Uniform(other.rows, len) && Uniform(w.rows, len) && Uniform(v.rows, len)
    requires forall i :: 0 <= i < |mask.rows| ==> RowMoved(f, mask, other, w, v, k, i)
    ensures RowsAlike(f, FoldRows(v.rows, other.rows, len, c), FoldRows(w.rows, mask.rows, len, c))
    ensures SameVec(f, Folded(v.blindings, other.blindings, c), Folded(w.blindings, mask.blindings, c))
  {
    hide Shifted, ShiftedScalar, Same, Folded;
    forall i | 0 <= i < |mask.rows|
      ensures SameVec(f, FoldRows(v.rows, other.rows, len, c)[i], FoldRows(w.rows, mask.rows, len, c)[i])
    {
      assert RowMoved(f, mask, other, w, v, k, i);
      FoldAlike(f, mask.rows[i], w.rows[i], v.rows[i], other.rows[i], c, k);
    }
    forall i | 0 <= i < |mask.rows|
      ensures Same(f, other.blindings[i], ShiftedScalar(mask.blindings[i], w.blindings[i], v.blindings[i], k))
    {
      assert RowMoved(f, mask, other, w, v, k, i);
    }
    FoldedBlindingsAlike(f, mask.blindings, other.blindings, w.blindings, v.blindings, c, k);
  }

  lemma FoldedBlindingsAlike(f: Field, r: seq<int>, s: seq<int>, a: seq<int>, b: seq<int>, c: int, k: int)
    requires IsField(f) && Same(f, c * k, 1) && |r| == |s| == |a| == |b|
    requires forall i :: 0 <= i < |r| ==> Same(f, s[i], ShiftedScalar(r[i], a[i], b[i], k))
    ensures SameVec(f, Folded(b, s, c), Folded(a, r, c))
  {
    forall i | 0 <= i < |r| ensures Same(f, Folded(b, s, c)[i], Folded(a, r, c)[i]) {
      FoldScalarAlike(f, r[i], a[i], b[i], s[i], c, k);
    }
  }

  /** The masked rows commit to the same elements. */
  lemma RowCommitsAlike(f: Field, setup: Setup, mask: Mask, other: Mask, w: BlindFoldWitness, v: BlindFoldWitness,
                        k: int, i: nat)
    requires IsField(f) && |mask.rows| == |mask.blindings| == |other.rows| == |other.blindings|
    requires |w.rows| == |w.blindings| == |v.rows| == |v.blindings| == |mask.rows| && i < |mask.rows|
    requires |mask.rows[i]| == |other.rows[i]| == |w.rows[i]| == |v.rows[i]| <= Capacity(setup)
    requires RowMoved(f, mask, other, w, v, k, i)
    requires Same(f, Commit(setup, w.rows[i], w.blindings[i]), Commit(setup, v.rows[i], v.blindings[i]))
    ensures Same(f, Commit(setup, other.rows[i], other.blindings[i]), Commit(setup, mask.rows[i], mask.blindings[i]))
  {
    hide Commit, Shifted, ShiftedScalar;
    SameCommit(f, setup, other.rows[i], other.blindings[i], Shifted(mask.rows[i], w.rows[i], v.rows[i], k),
               ShiftedScalar(mask.blindings[i], w.blindings[i], v.blindings[i], k));
    ShiftedCommit(f, setup, mask.rows[i], mask.blindings[i], w.rows[i], w.blindings[i], v.rows[i], v.blindings[i], k);
  }

  lemma RangeAlike(f: Field, setup: Setup, rows: seq<seq<int>>, b: seq<int>, rows': seq<seq<int>>, b': seq<int>,
                   d: RowDimensions, range: Range)
    requires Grid(rows, d) && |b| == |rows| && Grid(rows', d) && |b'| == |rows'| && d.rowLen <= Capacity(setup)
    requires range.start <= range.end <= |rows|
    requires forall i :: range.start <= i < range.end ==>
      Same(f, Commit(setup, rows[i], b[i]), Commit(setup, rows'[i], b'[i]))
    ensures SameVec(f, CommitRange(setup, rows, b, d, range), CommitRange(setup, rows', b', d, range))
  {
    hide Commit;
    var x, y := CommitRange(setup, rows, b, d, range), CommitRange(setup, rows', b', d, range);
    forall i | 0 <= i < |x| ensures Same(f, x[i], y[i]) {
      assert range.start <= range.start + i < range.end;
    }
  }

  lemma EvalsAlike(f: Field, setup: Setup, commitments: seq<int>, r: seq<int>, rb: seq<int>, a: seq<int>, ab: seq<int>,
                   b: seq<int>, bb: seq<int>, k: int)
    requires IsField(f) && 1 <= Capacity(setup)
    requires |r| == |rb| == |a| == |ab| == |b| == |bb| == |commitments|
    requires EvalCommitmentsOpen(f, setup, commitments, a, ab) && EvalCommitmentsOpen(f, setup, commitments, b, bb)
    ensures SameVec(f, CommitScalars(setup, Shifted(r, a, b, k), Shifted(rb, ab, bb, k)), CommitScalars(setup, r, rb))
  {
    hide Commit;
    var s, sb := Shifted(r, a, b, k), Shifted(rb, ab, bb, k);
    forall i | 0 <= i < |r| ensures Same(f, Commit(setup, [s[i]], sb[i]), Commit(setup, [r[i]], rb[i])) {
      assert VerifyCommitment(f, setup, commitments[i], [a[i]], ab[i]);
      assert VerifyCommitment(f, setup, commitments[i], [b[i]], bb[i]);
      ShiftedCommit(f, setup, [r[i]], rb[i], [a[i]], ab[i], [b[i]], bb[i], k);
      ShiftedAt(rb, ab, bb, k, i);
      assert Shifted([r[i]], [a[i]], [b[i]], k) == [s[i]];
    }
  }

  // The whole view.

  lemma OtherDrawsAre(setup: Setup, p: BlindFoldProtocol, w: BlindFoldWitness, v: BlindFoldWitness, r: Randomness,
                      mask: Mask, k: int, hInv: int)
    requires Ready(setup, p, w, r, mask) && WitnessShaped(p, v) && FlatSize(v.rows, p.dimensions.grid)
    ensures var s := OtherDraws(setup, p, w, v, r, mask, k, hInv);
      && MovedDraws(p, w, v, r, s, k) && FlatSize(MaskOf(p, s).rows, p.dimensions.grid)
      && s.errorBlindings == Rebound(setup, r.errorBlindings, ErrorRows(p, r.u, mask.rows),
                                     ErrorRows(p, r.u, MaskOf(p, s).rows), p.dimensions.error.rowLen, hInv)
      && s.crossBlindings == Rebound(setup, r.crossBlindings, CrossRows(p, w.rows, r.u, mask.rows),
                                     CrossRows(p, v.rows, r.u, MaskOf(p, s).rows), p.dimensions.error.rowLen, hInv)
  {
    hide MaskRow, MaskBlinding, Shifted, RowsShifted, ErrorRows, CrossRows, Rebound, MaskPrepared, Flatten;
    var s := OtherDraws(setup, p, w, v, r, mask, k, hInv);
    var d := p.dimensions;
    var drawn := Randomness(r.u, RowsShifted(r.rows, w.rows, v.rows, d.grid.rowLen, k),
                            Shifted(r.blindings, w.blindings, v.blindings, k),
                            Shifted(r.evalOutputs, w.evalOutputs, v.evalOutputs, k),
                            Shifted(r.evalBlindings, w.evalBlindings, v.evalBlindings, k),
                            r.errorBlindings, r.crossBlindings);
    SameMasks(p, drawn, s);
    GridFlatSize(MaskOf(p, s).rows, d.grid);
  }

  /** The mask does not depend on the error blindings. */
  lemma SameMasks(p: BlindFoldProtocol, r: Randomness, s: Randomness)
    requires WellFormed(p) && RandomnessShaped(p, r) && RandomnessShaped(p, s)
    requires r.rows == s.rows && r.blindings == s.blindings
    requires r.evalOutputs == s.evalOutputs && r.evalBlindings == s.evalBlindings
    ensures MaskOf(p, r) == MaskOf(p, s)
  {
    forall i | 0 <= i < p.dimensions.grid.rowCount
      ensures MaskRow(p, r, i) == MaskRow(p, s, i) && MaskBlinding(p, r, i) == MaskBlinding(p, s, i)
    {
    }
  }

  /** What the other witness's run starts from. */
  lemma OtherReady(f: Field, setup: Setup, p: BlindFoldProtocol, w: BlindFoldWitness, v: BlindFoldWitness,
                   r: Randomness, mask: Mask, k: int, hInv: int)
    requires Ready(setup, p, w, r, mask) && Honest(f, setup, p, v)
    ensures var s := OtherDraws(setup, p, w, v, r, mask, k, hInv);
      Ready(setup, p, v, s, MaskOf(p, s))
  {
    hide *;
    ReadyParts(setup, p, w, r, mask);
    HonestParts(f, setup, p, v);
    var s := OtherDraws(setup, p, w, v, r, mask, k, hInv);
    OtherDrawsAre(setup, p, w, v, r, mask, k, hInv);
    MaskOfPrepared(p, s);
    ReadyFrom(setup, p, v, s, MaskOf(p, s));
  }

  lemma ReadyParts(setup: Setup, p: BlindFoldProtocol, w: BlindFoldWitness, r: Randomness, mask: Mask)
    requires Ready(setup, p, w, r, mask)
    ensures WellFormed(p) && WitnessShaped(p, w) && RandomnessShaped(p, r) && FitsSetup(p, setup)
    ensures MaskPrepared(p, r, mask)
  {
  }

  lemma ReadyFrom(setup: Setup, p: BlindFoldProtocol, w: BlindFoldWitness, r: Randomness, mask: Mask)
    requires WellFormed(p) && WitnessShaped(p, w) && RandomnessShaped(p, r) && FitsSetup(p, setup)
    requires MaskPrepared(p, r, mask) && FlatSize(w.rows, p.dimensions.grid) && FlatSize(mask.rows, p.dimensions.grid)
    ensures Ready(setup, p, w, r, mask)
  {
  }

  lemma HonestParts(f: Field, setup: Setup, p: BlindFoldProtocol, w: BlindFoldWitness)
    requires WellFormed(p) && Honest(f, setup, p, w)
    ensures WitnessShaped(p, w) && FitsSetup(p, setup) && FlatSize(w.rows, p.dimensions.grid)
    ensures SlotsHold(f, SlotsOf(p), w.rows, w.evalOutputs, w.evalBlindings) && 1 <= Capacity(setup)
    ensures EvalCommitmentsOpen(f, setup, p.evalCommitments, w.evalOutputs, w.evalBlindings)
    ensures Satisfies(f, p.r1cs, 1, Flatten(w.rows), Zeros(|p.r1cs.a|))
    ensures |p.evalCommitments| == |w.evalOutputs| == |w.evalBlindings|
  {
    hide SlotsHold, Satisfies, EvalCommitmentsOpen, PublicRowsOpen, FlatSize, Flatten;
  }

  /** Every row of the prepared mask moves with the witness. */
  lemma MaskMoved(f: Field, setup: Setup, p: BlindFoldProtocol, w: BlindFoldWitness, v: BlindFoldWitness, r: Randomness,
                  mask: Mask, s: Randomness, k: int)
    requires IsField(f) && Ready(setup, p, w, r, mask) && Honest(f, setup, p, w) && Honest(f, setup, p, v)
    requires Alike(f, setup, p, w, v) && MovedDraws(p, w, v, r, s, k)
    ensures var d, other := p.dimensions.grid, MaskOf(p, s);
      && Grid(mask.rows, d) && |mask.blindings| == d.rowCount && Grid(other.rows, d) && |other.blindings| == d.rowCount
      && Grid(w.rows, d) && |w.blindings| == d.rowCount && Grid(v.rows, d) && |v.blindings| == d.rowCount
      && forall i :: 0 <= i < d.rowCount ==> RowMoved(f, mask, other, w, v, k, i)
  {
    hide SlotsHold, Satisfies, EvalCommitmentsOpen, PublicRowsOpen, FlatSize, Flatten, RowMoved, Alike, Commit, Shifted;
    hide WellFormed, FitsSetup, ShiftedScalar, RowsShifted, MaskRow, MaskBlinding, Same;
    forall i | 0 <= i < p.dimensions.grid.rowCount ensures RowMoved(f, mask, MaskOf(p, s), w, v, k, i) {
      EveryRowMoved(f, setup, p, w, v, r, mask, s, k, i);
    }
  }

  lemma SameVecSymmetric(f: Field, xs: seq<int>, ys: seq<int>)
    requires SameVec(f, xs, ys)
    ensures SameVec(f, ys, xs)
  {
  }

  lemma RangesFit(setup: Setup, p: BlindFoldProtocol)
    requires WellFormed(p) && FitsSetup(p, setup)
    ensures var d := p.dimensions;
      && d.rows.coefficients.start <= d.rows.coefficients.end <= d.grid.rowCount
      && d.rows.outputClaims.start <= d.rows.outputClaims.end <= d.grid.rowCount
      && d.rows.auxiliary.start <= d.rows.auxiliary.end <= d.grid.rowCount
      && d.grid.rowLen <= Capacity(setup) && d.error.rowLen <= Capacity(setup) && 1 <= Capacity(setup)
  {
  }

  /** Every range of rows commits to the same elements, the mask's and the witness's own. */
  ghost predicate RowsCommitted(f: Field, setup: Setup, p: BlindFoldProtocol, rows: seq<seq<int>>, b: seq<int>,
                                rows': seq<seq<int>>, b': seq<int>)
    requires WellFormed(p) && FitsSetup(p, setup)
    requires Grid(rows, p.dimensions.grid) && |b| == |rows| && Grid(rows', p.dimensions.grid) && |b'| == |rows'|
  {
    var d := p.dimensions;
    && SameVec(f, CommitRange(setup, rows, b, d.grid, d.rows.coefficients),
               CommitRange(setup, rows', b', d.grid, d.rows.coefficients))
    && SameVec(f, CommitRange(setup, rows, b, d.grid, d.rows.outputClaims),
               CommitRange(setup, rows', b', d.grid, d.rows.outputClaims))
    && SameVec(f, CommitRange(setup, rows, b, d.grid, d.rows.auxiliary),
               CommitRange(setup, rows', b', d.grid, d.rows.auxiliary))
  }

  lemma EveryRange(f: Field, setup: Setup, p: BlindFoldProtocol, rows: seq<seq<int>>, b: seq<int>,
                   rows': seq<seq<int>>, b': seq<int>)
    requires WellFormed(p) && FitsSetup(p, setup)
    requires Grid(rows, p.dimensions.grid) && |b| == |rows| && Grid(rows', p.dimensions.grid) && |b'| == |rows'|
    requires forall i :: 0 <= i < p.dimensions.grid.rowCount ==>
      Same(f, Commit(setup, rows[i], b[i]), Commit(setup, rows'[i], b'[i]))
    ensures RowsCommitted(f, setup, p, rows, b, rows', b')
  {
    hide Commit, CommitRange, SlotsDedicated, SlotsOf, Same, SameVec;
    var d := p.dimensions;
    RangeAlike(f, setup, rows, b, rows', b', d.grid, d.rows.coefficients);
    RangeAlike(f, setup, rows, b, rows', b', d.grid, d.rows.outputClaims);
    RangeAlike(f, setup, rows, b, rows', b', d.grid, d.rows.auxiliary);
  }

  lemma MaskCommits(f: Field, setup: Setup, p: BlindFoldProtocol, w: BlindFoldWitness, v: BlindFoldWitness,
                    mask: Mask, other: Mask, k: int)
    requires IsField(f) && WellFormed(p) && FitsSetup(p, setup) && WitnessShaped(p, w) && WitnessShaped(p, v)
    requires Grid(mask.rows, p.dimensions.grid) && |mask.blindings| == p.dimensions.grid.rowCount
    requires Grid(other.rows, p.dimensions.grid) && |other.blindings| == p.dimensions.grid.rowCount
    requires Alike(f, setup, p, w, v)
    requires forall i :: 0 <= i < p.dimensions.grid.rowCount ==> RowMoved(f, mask, other, w, v, k, i)
    ensures RowsCommitted(f, setup, p, mask.rows, mask.blindings, other.rows, other.blindings)
    ensures RowsCommitted(f, setup, p, w.rows, w.blindings, v.rows, v.blindings)
  {
    hide Commit, RowsCommitted, SlotsDedicated, SlotsOf, RowMoved, WellFormed;
    forall i | 0 <= i < p.dimensions.grid.rowCount
      ensures Same(f, Commit(setup, mask.rows[i], mask.blindings[i]), Commit(setup, other.rows[i], other.blindings[i]))
    {
      RowCommitsAlike(f, setup, mask, other, w, v, k, i);
    }
    EveryRange(f, setup, p, mask.rows, mask.blindings, other.rows, other.blindings);
    EveryRange(f, setup, p, w.rows, w.blindings, v.rows, v.blindings);
  }

  /** The errors and the cross terms, each under its own new blindings. */
  lemma ErrorsCommit(f: Field, setup: Setup, p: BlindFoldProtocol, w: BlindFoldWitness, v: BlindFoldWitness,
                     r: Randomness, mask: Mask, s: Randomness, other: Mask, hInv: int)
    requires IsField(f) && Ready(setup, p, w, r, mask) && Ready(setup, p, v, s, other) && s.u == r.u
    requires Same(f, setup.blindingGenerator * hInv, 1)
    requires s.errorBlindings == Rebound(setup, r.errorBlindings, ErrorRows(p, r.u, mask.rows),
                                         ErrorRows(p, r.u, other.rows), p.dimensions.error.rowLen, hInv)
    requires s.crossBlindings == Rebound(setup, r.crossBlindings, CrossRows(p, w.rows, r.u, mask.rows),
                                         CrossRows(p, v.rows, r.u, other.rows), p.dimensions.error.rowLen, hInv)
    ensures SameVec(f, CommitmentsOf(setup, p, w, r, mask).randomErrors,
                    CommitmentsOf(setup, p, v, s, other).randomErrors)
    ensures SameVec(f, CommitmentsOf(setup, p, w, r, mask).crossErrors,
                    CommitmentsOf(setup, p, v, s, other).crossErrors)
  {
    hide Rebound, ErrorRows, CrossRows, CommitRows, CommitRange, CommitScalars, MaskPrepared, Same, SameVec;
    var d := p.dimensions.error;
    var e, e' := ErrorRows(p, r.u, mask.rows), ErrorRows(p, r.u, other.rows);
    var x, x' := CrossRows(p, w.rows, r.u, mask.rows), CrossRows(p, v.rows, r.u, other.rows);
    ReboundCommits(f, setup, r.errorBlindings, e, e', d.rowLen, hInv);
    ReboundCommits(f, setup, r.crossBlindings, x, x', d.rowLen, hInv);
    SameVecSymmetric(f, CommitRows(setup, e', s.errorBlindings, d.rowLen),
                     CommitRows(setup, e, r.errorBlindings, d.rowLen));
    SameVecSymmetric(f, CommitRows(setup, x', s.crossBlindings, d.rowLen),
                     CommitRows(setup, x, r.crossBlindings, d.rowLen));
  }

  lemma PartsAlike(f: Field, setup: Setup, p: BlindFoldProtocol, w: BlindFoldWitness, v: BlindFoldWitness,
                   r: Randomness, mask: Mask, s: Randomness, other: Mask)
    requires Ready(setup, p, w, r, mask) && Ready(setup, p, v, s, other) && s.u == r.u
    requires RowsCommitted(f, setup, p, mask.rows, mask.blindings, other.rows, other.blindings)
    requires RowsCommitted(f, setup, p, w.rows, w.blindings, v.rows, v.blindings)
    requires SameVec(f, CommitmentsOf(setup, p, w, r, mask).randomErrors,
                     CommitmentsOf(setup, p, v, s, other).randomErrors)
    requires SameVec(f, CommitmentsOf(setup, p, w, r, mask).crossErrors,
                     CommitmentsOf(setup, p, v, s, other).crossErrors)
    requires SameVec(f, CommitScalars(setup, s.evalOutputs, s.evalBlindings),
                     CommitScalars(setup, r.evalOutputs, r.evalBlindings))
    ensures SameCommitments(f, CommitmentsOf(setup, p, w, r, mask), CommitmentsOf(setup, p, v, s, other))
  {
    hide CommitRows, CommitRange, CommitScalars, MaskPrepared, SameVec, ErrorRows, CrossRows;
    SameVecSymmetric(f, CommitScalars(setup, s.evalOutputs, s.evalBlindings),
                     CommitScalars(setup, r.evalOutputs, r.evalBlindings));
  }

  /** The commitments of the two runs are the same elements. */
  lemma CommitmentsAlike(f: Field, setup: Setup, p: BlindFoldProtocol, w: BlindFoldWitness, v: BlindFoldWitness,
                         r: Randomness, mask: Mask, k: int, hInv: int)
    requires IsField(f) && Ready(setup, p, w, r, mask) && Honest(f, setup, p, w) && Honest(f, setup, p, v)
    requires Alike(f, setup, p, w, v) && Same(f, setup.blindingGenerator * hInv, 1)
    ensures var s := OtherDraws(setup, p, w, v, r, mask, k, hInv);
      && Ready(setup, p, v, s, MaskOf(p, s))
      && SameCommitments(f, CommitmentsOf(setup, p, w, r, mask), CommitmentsOf(setup, p, v, s, MaskOf(p, s)))
  {
    hide *;
    ReadyParts(setup, p, w, r, mask);
    HonestParts(f, setup, p, w);
    HonestParts(f, setup, p, v);
    OtherReady(f, setup, p, w, v, r, mask, k, hInv);
    OtherDrawsAre(setup, p, w, v, r, mask, k, hInv);
    var s := OtherDraws(setup, p, w, v, r, mask, k, hInv);
    var other := MaskOf(p, s);
    MaskMoved(f, setup, p, w, v, r, mask, s, k);
    MaskCommits(f, setup, p, w, v, mask, other, k);
    ErrorsCommit(f, setup, p, w, v, r, mask, s, other, hInv);
    MovedEvals(p, w, v, r, s, k);
    EvalsAlike(f, setup, p.evalCommitments, r.evalOutputs, r.evalBlindings, w.evalOutputs, w.evalBlindings,
               v.evalOutputs, v.evalBlindings, k);
    PartsAlike(f, setup, p, w, v, r, mask, s, other);
  }

  lemma MovedEvals(p: BlindFoldProtocol, w: BlindFoldWitness, v: BlindFoldWitness, r: Randomness, s: Randomness, k: int)
    requires WellFormed(p) && WitnessShaped(p, w) && WitnessShaped(p, v) && RandomnessShaped(p, r)
    requires MovedDraws(p, w, v, r, s, k)
    ensures |r.evalOutputs| == |r.evalBlindings| == |p.evalCommitments| && s.u == r.u
    ensures |w.evalOutputs| == |w.evalBlindings| == |p.evalCommitments|
    ensures |v.evalOutputs| == |v.evalBlindings| == |p.evalCommitments|
    ensures s.evalOutputs == Shifted(r.evalOutputs, w.evalOutputs, v.evalOutputs, k)
    ensures s.evalBlindings == Shifted(r.evalBlindings, w.evalBlindings, v.evalBlindings, k)
  {
  }

  lemma FoldedGrids(f: Field, setup: Setup, p: BlindFoldProtocol, w: BlindFoldWitness, v: BlindFoldWitness,
                    r: Randomness, mask: Mask, s: Randomness, other: Mask, c: int, k: int)
    requires IsField(f) && Ready(setup, p, w, r, mask) && Ready(setup, p, v, s, other) && Same(f, c * k, 1)
    requires MovedDraws(p, w, v, r, s, k)
    requires forall i :: 0 <= i < p.dimensions.grid.rowCount ==> RowMoved(f, mask, other, w, v, k, i)
    ensures var x, y := FoldWitness(setup, p, v, s, other, c), FoldWitness(setup, p, w, r, mask, c);
      && x.u == y.u && RowsAlike(f, x.rows, y.rows) && SameVec(f, x.blindings, y.blindings)
      && SameVec(f, x.evalOutputs, y.evalOutputs) && SameVec(f, x.evalBlindings, y.evalBlindings)
  {
    hide RowMoved, Folded, FoldRows, FoldErrorRows, FoldedError, SameVec, RowsAlike, Shifted, ErrorRows, CrossRows;
    hide Same, ZeroRows, FlatSize, WellFormed, FitsSetup;
    FoldedRowsAlike(f, p.dimensions.grid.rowLen, mask, other, w, v, c, k);
    SameVecReflexive(f, s.evalOutputs);
    SameVecReflexive(f, s.evalBlindings);
    FoldAlike(f, r.evalOutputs, w.evalOutputs, v.evalOutputs, s.evalOutputs, c, k);
    FoldAlike(f, r.evalBlindings, w.evalBlindings, v.evalBlindings, s.evalBlindings, c, k);
  }

  /** Both errors are the exact residuals of grids that agree. */
  lemma FoldedErrorRows(f: Field, p: BlindFoldProtocol, x: Folding, y: Folding)
    requires IsField(f) && WellFormed(p) && FoldingShaped(p, x) && FoldingShaped(p, y) && x.u == y.u
    requires RowsAlike(f, x.rows, y.rows) && FlatSize(x.rows, p.dimensions.grid) && FlatSize(y.rows, p.dimensions.grid)
    requires ErrorsExact(f, p.r1cs, x.u, Flatten(x.rows), Flatten(x.errorRows))
    requires ErrorsExact(f, p.r1cs, y.u, Flatten(y.rows), Flatten(y.errorRows))
    ensures RowsAlike(f, x.errorRows, y.errorRows)
  {
    hide ErrorsExact, Flatten, RowsAlike, SlotsDedicated, SlotsOf;
    FlattenAlike(f, x.rows, y.rows);
    FlatLengths(x.errorRows, y.errorRows, p.dimensions.error.rowLen);
    ErrorsAlike(f, p.r1cs, x.u, Flatten(x.rows), Flatten(y.rows), Flatten(x.errorRows), Flatten(y.errorRows));
    RowsFromFlat(f, x.errorRows, y.errorRows, p.dimensions.error.rowLen);
  }

  lemma FlatLengths(a: seq<seq<int>>, b: seq<seq<int>>, len: nat)
    requires |a| == |b| && Uniform(a, len) && Uniform(b, len)
    ensures |Flatten(a)| == |Flatten(b)|
  {
    hide *;
    FlattenLength(a, len);
    FlattenLength(b, len);
  }

  lemma FoldedErrorAlike(f: Field, base: seq<int>, x: seq<int>, e: seq<int>, y: seq<int>, g: seq<int>, c: int)
    requires IsField(f) && |base| == |x| == |e| && SameVec(f, x, y) && SameVec(f, e, g)
    ensures SameVec(f, FoldedError(base, x, e, c), FoldedError(base, y, g, c))
  {
    forall i | 0 <= i < |base| ensures Same(f, FoldedError(base, x, e, c)[i], FoldedError(base, y, g, c)[i]) {
      SameMul(f, c, c, x[i], y[i]);
      SameMul(f, c * c, c * c, e[i], g[i]);
      SameAdd(f, base[i], base[i], c * x[i], c * y[i]);
      SameAdd(f, base[i] + c * x[i], base[i] + c * y[i], c * c * e[i], c * c * g[i]);
    }
  }

  /** One commitment and one row leave one blinding. */
  lemma BlindingTold(f: Field, setup: Setup, e: seq<int>, b: int, g: seq<int>, d: int, hInv: int)
    requires IsField(f) && |e| <= Capacity(setup) && SameVec(f, e, g) && Same(f, setup.blindingGenerator * hInv, 1)
    requires Same(f, Commit(setup, e, b), Commit(setup, g, d))
    ensures Same(f, b, d)
  {
    var gens, h := setup.generators[..|e|], setup.blindingGenerator;
    DotSame(f, e, gens, g, gens);
    SameSub(f, Commit(setup, e, b), Commit(setup, g, d), Dot(e, gens), Dot(g, gens));
    SameMul(f, b * h, d * h, hInv, hInv);
    SameMul(f, b, b, h * hInv, 1);
    SameMul(f, d, d, h * hInv, 1);
    assert b * h * hInv == b * (h * hInv) && d * h * hInv == d * (h * hInv);
  }

  lemma FoldedErrorBlindings(f: Field, setup: Setup, p: BlindFoldProtocol, kx: Commitments, x: Folding,
                             ky: Commitments, y: Folding, c: int, hInv: int)
    requires IsField(f) && Same(f, setup.blindingGenerator * hInv, 1) && SameCommitments(f, ky, kx)
    requires |kx.crossErrors| == |kx.randomErrors| == |ky.crossErrors| == |ky.randomErrors|
          == p.dimensions.error.rowCount
    requires Opens(f, setup, FoldedError(Zeros(p.dimensions.error.rowCount), kx.crossErrors, kx.randomErrors, c),
                   x.errorRows, x.errorBlindings, p.dimensions.error.rowLen)
    requires Opens(f, setup, FoldedError(Zeros(p.dimensions.error.rowCount), ky.crossErrors, ky.randomErrors, c),
                   y.errorRows, y.errorBlindings, p.dimensions.error.rowLen)
    requires RowsAlike(f, x.errorRows, y.errorRows)
    ensures SameVec(f, x.errorBlindings, y.errorBlindings)
  {
    hide Commit, FoldedError;
    var zero := Zeros(p.dimensions.error.rowCount);
    FoldedErrorAlike(f, zero, ky.crossErrors, ky.randomErrors, kx.crossErrors, kx.randomErrors, c);
    forall i | 0 <= i < |x.errorBlindings| ensures Same(f, x.errorBlindings[i], y.errorBlindings[i]) {
      BlindingTold(f, setup, x.errorRows[i], x.errorBlindings[i], y.errorRows[i], y.errorBlindings[i], hInv);
    }
  }

  lemma ErrorCounts(setup: Setup, p: BlindFoldProtocol, w: BlindFoldWitness, r: Randomness, mask: Mask)
    requires Ready(setup, p, w, r, mask)
    ensures |CommitmentsOf(setup, p, w, r, mask).crossErrors| == p.dimensions.error.rowCount
    ensures |CommitmentsOf(setup, p, w, r, mask).randomErrors| == p.dimensions.error.rowCount
  {
    hide CommitRange, MaskPrepared;
  }

  lemma FoldingIs(f: Field, x: Folding, y: Folding)
    requires x.u == y.u && RowsAlike(f, x.rows, y.rows) && SameVec(f, x.blindings, y.blindings)
    requires RowsAlike(f, x.errorRows, y.errorRows) && SameVec(f, x.errorBlindings, y.errorBlindings)
    requires SameVec(f, x.evalOutputs, y.evalOutputs) && SameVec(f, x.evalBlindings, y.evalBlindings)
    ensures SameFolding(f, x, y)
  {
  }

  /** And so are the two foldings, for the challenge whose inverse the draws were moved by. */
  lemma FoldingsAlike(f: Field, setup: Setup, p: BlindFoldProtocol, w: BlindFoldWitness, v: BlindFoldWitness,
                      r: Randomness, mask: Mask, c: int, k: int, hInv: int)
    requires IsField(f) && Ready(setup, p, w, r, mask) && Honest(f, setup, p, w) && Honest(f, setup, p, v)
    requires Alike(f, setup, p, w, v) && Same(f, setup.blindingGenerator * hInv, 1) && Same(f, c * k, 1)
    ensures var s := OtherDraws(setup, p, w, v, r, mask, k, hInv);
      && Ready(setup, p, v, s, MaskOf(p, s))
      && SameFolding(f, FoldWitness(setup, p, v, s, MaskOf(p, s), c), FoldWitness(setup, p, w, r, mask, c))
  {
    hide *;
    ReadyParts(setup, p, w, r, mask);
    HonestParts(f, setup, p, w);
    HonestParts(f, setup, p, v);
    OtherReady(f, setup, p, w, v, r, mask, k, hInv);
    OtherDrawsAre(setup, p, w, v, r, mask, k, hInv);
    var s := OtherDraws(setup, p, w, v, r, mask, k, hInv);
    var other := MaskOf(p, s);
    var x, y := FoldWitness(setup, p, v, s, other, c), FoldWitness(setup, p, w, r, mask, c);
    MaskMoved(f, setup, p, w, v, r, mask, s, k);
    FoldedGrids(f, setup, p, w, v, r, mask, s, other, c, k);
    FoldedErrorsExact(f, setup, p, v, s, other, c);
    FoldedErrorsExact(f, setup, p, w, r, mask, c);
    FoldedErrorRows(f, p, x, y);
    CommitmentsAlike(f, setup, p, w, v, r, mask, k, hInv);
    FoldedErrorsOpen(f, setup, p, v, s, other, c);
    FoldedErrorsOpen(f, setup, p, w, r, mask, c);
    ErrorCounts(setup, p, v, s, other);
    ErrorCounts(setup, p, w, r, mask);
    FoldedErrorBlindings(f, setup, p, CommitmentsOf(setup, p, v, s, other), x, CommitmentsOf(setup, p, w, r, mask), y,
                         c, hInv);
    FoldingIs(f, x, y);
  }

  /** Witness indistinguishability of the fold. Whatever was drawn for one honest
      witness, and whatever nonzero challenge the transcript answers, any other
      honest witness of the same row commitments has draws under which the proof
      carries the same commitments, the same challenge is drawn, and the folded
      grids, errors, scalars and all their blindings are the same: what is opened
      afterwards cannot depend on which of the two was held. */
  lemma OtherWitness(f: Field, setup: Setup, oracle: Oracle, p: BlindFoldProtocol, w: BlindFoldWitness,
                     v: BlindFoldWitness, r: Randomness, mask: Mask, log: seq<Item>)
    returns (s: Randomness, other: Mask)
    requires IsField(f) && Ready(setup, p, w, r, mask) && Honest(f, setup, p, w) && Honest(f, setup, p, v)
    requires Alike(f, setup, p, w, v) && !Same(f, setup.blindingGenerator, 0)
    requires InstancesAssemble(p, CommitmentsOf(setup, p, w, r, mask))
    requires !Same(f, oracle(FoldLog(f, p, CommitmentsOf(setup, p, w, r, mask), log)), 0)
    ensures RandomnessShaped(p, s) && Ready(setup, p, v, s, other)
    ensures SameCommitments(f, CommitmentsOf(setup, p, w, r, mask), CommitmentsOf(setup, p, v, s, other))
    ensures InstancesAssemble(p, CommitmentsOf(setup, p, v, s, other))
    ensures FoldLog(f, p, CommitmentsOf(setup, p, v, s, other), log)
         == FoldLog(f, p, CommitmentsOf(setup, p, w, r, mask), log)
    ensures var c := oracle(FoldLog(f, p, CommitmentsOf(setup, p, w, r, mask), log));
      SameFolding(f, FoldWitness(setup, p, v, s, other, c), FoldWitness(setup, p, w, r, mask, c))
  {
    hide *;
    var kw := CommitmentsOf(setup, p, w, r, mask);
    var c := oracle(FoldLog(f, p, kw, log));
    var k, hInv := f.inv(c), f.inv(setup.blindingGenerator);
    InverseWorks(f, c);
    InverseWorks(f, setup.blindingGenerator);
    ReadyParts(setup, p, w, r, mask);
    HonestParts(f, setup, p, v);
    CommitmentsAlike(f, setup, p, w, v, r, mask, k, hInv);
    FoldingsAlike(f, setup, p, w, v, r, mask, c, k, hInv);
    s := OtherDraws(setup, p, w, v, r, mask, k, hInv);
    other := MaskOf(p, s);
    Assembles(setup, p, v, s, other);
    FoldLogTells(f, p, CommitmentsOf(setup, p, v, s, other), kw, log, [], []);
    SameCommitmentsSymmetric(f, kw, CommitmentsOf(setup, p, v, s, other));
    NothingAfter(FoldLog(f, p, kw, log));
    NothingAfter(FoldLog(f, p, CommitmentsOf(setup, p, v, s, other), log));
  }

  lemma SameCommitmentsSymmetric(f: Field, x: Commitments, y: Commitments)
    requires SameCommitments(f, x, y)
    ensures SameCommitments(f, y, x)
  {
  }

  lemma NothingAfter<T>(a: seq<T>)
    ensures a + [] == a
  {
  }

  /** A zero challenge masks nothing: then two foldings agree only if the
      witness grids do, whatever was drawn. */
  lemma ZeroMasksNothing(f: Field, setup: Setup, p: BlindFoldProtocol, w: BlindFoldWitness, v: BlindFoldWitness,
                         r: Randomness, mask: Mask, s: Randomness, other: Mask, c: int)
    requires IsField(f) && Ready(setup, p, w, r, mask) && Ready(setup, p, v, s, other) && Same(f, c, 0)
    requires SameFolding(f, FoldWitness(setup, p, v, s, other, c), FoldWitness(setup, p, w, r, mask, c))
    ensures RowsAlike(f, v.rows, w.rows)
  {
    hide Folded, ErrorRows, CrossRows, FoldErrorRows, FoldedError, ZeroRows, FlatSize, WellFormed, FitsSetup, Same;
    var len := p.dimensions.grid.rowLen;
    var x, y := FoldRows(v.rows, other.rows, len, c), FoldRows(w.rows, mask.rows, len, c);
    assert RowsAlike(f, x, y);
    forall i | 0 <= i < |v.rows| ensures SameVec(f, v.rows[i], w.rows[i]) {
      assert SameVec(f, x[i], y[i]);
      Unmasked(f, v.rows[i], other.rows[i], w.rows[i], mask.rows[i], c);
    }
  }

  lemma Unmasked(f: Field, a: seq<int>, s: seq<int>, b: seq<int>, r: seq<int>, c: int)
    requires IsField(f) && |a| == |s| == |b| == |r| && Same(f, c, 0) && SameVec(f, Folded(a, s, c), Folded(b, r, c))
    ensures SameVec(f, a, b)
  {
    forall i | 0 <= i < |a| ensures Same(f, a[i], b[i]) {
      assert Same(f, Folded(a, s, c)[i], Folded(b, r, c)[i]);
      SameMul(f, c, 0, s[i], s[i]);
      SameMul(f, c, 0, r[i], r[i]);
      SameSub(f, a[i] + c * s[i], b[i] + c * r[i], c * s[i], c * r[i]);
    }
  }
}
