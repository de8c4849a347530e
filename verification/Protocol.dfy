/** The folded protocol's public parts: dimensions, the row ranges of the
    witness grid, coordinates, relaxed instances and their folding. */
module Protocol {
  import opened Results
  import opened Fields
  import opened IntDivision
  import opened Vectors
  import opened Matrices
  import opened R1cs
  import opened RowCommitment

  datatype Range = Range(start: nat, end: nat)

  datatype WitnessRowLayout = WitnessRowLayout(
    coefficients: Range, outputClaims: Range, auxiliary: Range, padding: Range)

  datatype RowDimensions = RowDimensions(rowLen: nat, rowCount: nat)

  datatype Dimensions = Dimensions(
    grid: RowDimensions, error: RowDimensions, rows: WitnessRowLayout,
    coefficientRows: nat, outputClaimRows: nat, auxiliaryRows: nat)

  datatype Coordinate = Coordinate(row: nat, column: nat)

  /** The variables that hold a final opening's evaluation and blinding. */
  datatype FinalOpening = FinalOpening(evaluation: Option<nat>, blinding: Option<nat>)

  datatype FinalCoordinates = FinalCoordinates(evaluation: Option<Coordinate>, blinding: Option<Coordinate>)

  /** Round and output-claim commitments are listed stage after stage. */
  datatype BlindFoldProtocol = BlindFoldProtocol(
    roundCommitments: seq<int>, outputClaimCommitments: seq<int>, r1cs: ConstraintMatrices,
    dimensions: Dimensions, finalOpenings: seq<FinalOpening>, evalCommitments: seq<int>)

  datatype RelaxedError =
    | LengthMismatch(expected: nat, actual: nat)
    | InconsistentDimensions(total: nat, used: nat)

  // The witness grid.

  /** `WitnessRowLayout::from_counts`: four consecutive ranges. */
  function FromCounts(coefficientRows: nat, outputClaimRows: nat, auxiliaryRows: nat,
                      rowCount: nat): Result<WitnessRowLayout, RelaxedError> {
    var auxiliaryStart := coefficientRows + outputClaimRows;
    var paddingStart := coefficientRows + auxiliaryRows + outputClaimRows;
    if paddingStart > rowCount then Err(InconsistentDimensions(rowCount, paddingStart))
    else Ok(WitnessRowLayout(Range(0, coefficientRows), Range(coefficientRows, auxiliaryStart),
                             Range(auxiliaryStart, paddingStart), Range(paddingStart, rowCount)))
  }

  /** `witness_coordinate`: variable `v` sits at entry `v - 1` of the grid, row by row. */
  function WitnessCoordinate(d: Dimensions, variable: nat): Result<Coordinate, RelaxedError> {
    var total := d.grid.rowCount * d.grid.rowLen;
    if variable == 0 then Err(InconsistentDimensions(total, 0))
    else if variable - 1 >= total then Err(InconsistentDimensions(total, variable))
    else
      assert 0 < d.grid.rowLen;
      Ok(Coordinate((variable - 1) / d.grid.rowLen, (variable - 1) % d.grid.rowLen))
  }

  /** The coordinate is inside the grid and names the variable's entry of the
      flattened grid; distinct variables have distinct coordinates. */
  lemma CoordinateNamesEntry(d: Dimensions, rows: seq<seq<int>>, variable: nat)
    requires WitnessCoordinate(d, variable).Ok? && |rows| == d.grid.rowCount && Uniform(rows, d.grid.rowLen)
    ensures var c := WitnessCoordinate(d, variable).value;
      && c.row < d.grid.rowCount && c.column < d.grid.rowLen
      && variable - 1 == c.row * d.grid.rowLen + c.column
      && |Flatten(rows)| == d.grid.rowCount * d.grid.rowLen
      && Flatten(rows)[variable - 1] == rows[c.row][c.column]
  {
    var c, len := WitnessCoordinate(d, variable).value, d.grid.rowLen;
    assert variable - 1 == c.row * len + c.column;
    RowBound(c.row, c.column, len, d.grid.rowCount);
    FlattenLength(rows, len);
    FlattenAt(rows, len, c.row, c.column);
  }

  /** Exactly the grid's entries have coordinates. */
  lemma CoordinateExists(d: Dimensions, variable: nat)
    ensures WitnessCoordinate(d, variable).Ok? <==> 1 <= variable <= d.grid.rowCount * d.grid.rowLen
  {
  }

  lemma RowBound(row: nat, column: nat, len: nat, count: nat)
    requires column < len && row * len + column < count * len
    ensures row < count
  {
    if count <= row {
      MulMonotone(len, count, row);
    }
  }

  function FinalCoordinate(d: Dimensions, variable: Option<nat>): Result<Option<Coordinate>, RelaxedError> {
    match variable
    case None => Ok(None)
    case Some(v) =>
      match WitnessCoordinate(d, v)
      case Ok(c) => Ok(Some(c))
      case Err(e) => Err(e)
  }

  /** `final_opening_witness_coordinates`: the first bad variable is the error. */
  function FinalOpeningCoordinates(d: Dimensions,
                                   openings: seq<FinalOpening>): (r: Result<seq<FinalCoordinates>, RelaxedError>)
    ensures r.Ok? ==> |r.value| == |openings|
  {
    if openings == [] then Ok([])
    else
      match (FinalCoordinate(d, openings[0].evaluation), FinalCoordinate(d, openings[0].blinding),
             FinalOpeningCoordinates(d, openings[1..]))
      case (Ok(e), Ok(b), Ok(rest)) => Ok([FinalCoordinates(e, b)] + rest)
      case (Err(e), _, _) => Err(e)
      case (_, Err(e), _) => Err(e)
      case (_, _, Err(e)) => Err(e)
  }

  // Relaxed instances.

  datatype RelaxedInstance = RelaxedInstance(u: int, rows: seq<int>, errors: seq<int>, evals: seq<int>)

  /** `pad_rows`: extend with the identity commitment, or report too many rows. */
  function PadRows(rows: seq<int>, target: nat): (r: Result<seq<int>, RelaxedError>)
    ensures r.Ok? <==> |rows| <= target
    ensures r.Ok? ==> r.value == rows + Zeros(target - |rows|)
  {
    if |rows| > target then Err(InconsistentDimensions(target, |rows|)) else Ok(rows + Zeros(target - |rows|))
  }

  /** The four parts of the witness row commitments, each padded to its range's end. */
  function AssembleRows(d: Dimensions, rounds: seq<int>, outputs: seq<int>,
                        auxiliary: seq<int>): Result<seq<int>, RelaxedError> {
    var a := PadRows(rounds, d.rows.coefficients.end);
    if a.Err? then a else
    var b := PadRows(a.value + outputs, d.rows.outputClaims.end);
    if b.Err? then b else
    var c := PadRows(b.value + auxiliary, d.rows.auxiliary.end);
    if c.Err? then c else PadRows(c.value, d.grid.rowCount)
  }

  /** `committed_relaxed_instance`. */
  function CommittedInstance(p: BlindFoldProtocol, auxiliary: seq<int>): Result<RelaxedInstance, RelaxedError> {
    if |auxiliary| != p.dimensions.auxiliaryRows then Err(LengthMismatch(p.dimensions.auxiliaryRows, |auxiliary|))
    else
      match AssembleRows(p.dimensions, p.roundCommitments, p.outputClaimCommitments, auxiliary)
      case Err(e) => Err(e)
      case Ok(rows) => Ok(RelaxedInstance(1, rows, Zeros(p.dimensions.error.rowCount), p.evalCommitments))
  }

  /** The commitments a proof carries. */
  datatype Commitments = Commitments(
    auxiliary: seq<int>, randomRounds: seq<int>, randomOutputClaims: seq<int>, randomAuxiliary: seq<int>,
    randomErrors: seq<int>, randomEvals: seq<int>, randomU: int, crossErrors: seq<int>)

  /** `random_relaxed_instance`. */
  function RandomInstance(p: BlindFoldProtocol, c: Commitments): Result<RelaxedInstance, RelaxedError> {
    var d := p.dimensions;
    if |c.randomRounds| != d.coefficientRows then Err(LengthMismatch(d.coefficientRows, |c.randomRounds|))
    else if |c.randomOutputClaims| != d.outputClaimRows
    then Err(LengthMismatch(d.outputClaimRows, |c.randomOutputClaims|))
    else if |c.randomAuxiliary| != d.auxiliaryRows then Err(LengthMismatch(d.auxiliaryRows, |c.randomAuxiliary|))
    else if |c.randomErrors| != d.error.rowCount then Err(LengthMismatch(d.error.rowCount, |c.randomErrors|))
    else if |c.randomEvals| != |p.evalCommitments| then Err(LengthMismatch(|p.evalCommitments|, |c.randomEvals|))
    else
      match AssembleRows(d, c.randomRounds, c.randomOutputClaims, c.randomAuxiliary)
      case Err(e) => Err(e)
      case Ok(rows) => Ok(RelaxedInstance(c.randomU, rows, c.randomErrors, c.randomEvals))
  }

  /** `RelaxedInstance::fold`: lengths are checked, then every part is folded. */
  function FoldInstance(base: RelaxedInstance, random: RelaxedInstance, cross: seq<int>,
                        r: int): Result<RelaxedInstance, RelaxedError> {
    if |base.rows| != |random.rows| then Err(LengthMismatch(|base.rows|, |random.rows|))
    else if |base.errors| != |random.errors| then Err(LengthMismatch(|base.errors|, |random.errors|))
    else if |base.errors| != |cross| then Err(LengthMismatch(|base.errors|, |cross|))
    else if |base.evals| != |random.evals| then Err(LengthMismatch(|base.evals|, |random.evals|))
    else Ok(RelaxedInstance(base.u + r * random.u, Folded(base.rows, random.rows, r),
                            FoldedError(base.errors, cross, random.errors, r), Folded(base.evals, random.evals, r)))
  }

  // Folding the openings.

  /** `fold_rows`. */
  function FoldRows(base: seq<seq<int>>, random: seq<seq<int>>, len: nat, r: int): (rows: seq<seq<int>>)
    requires |base| == |random| && Uniform(base, len) && Uniform(random, len)
    ensures |rows| == |base| && Uniform(rows, len)
  {
    seq(|base|, i requires 0 <= i < |base| => Folded(base[i], random[i], r))
  }

  /** `fold_error_rows`. */
  function FoldErrorRows(base: seq<seq<int>>, cross: seq<seq<int>>, random: seq<seq<int>>, len: nat,
                         r: int): (rows: seq<seq<int>>)
    requires |base| == |cross| == |random| && Uniform(base, len) && Uniform(cross, len) && Uniform(random, len)
    ensures |rows| == |base| && Uniform(rows, len)
  {
    seq(|base|, i requires 0 <= i < |base| => FoldedError(base[i], cross[i], random[i], r))
  }

  lemma FoldedCommitment(f: Field, setup: Setup, c: int, row: seq<int>, b: int, c': int, row': seq<int>, b': int,
                         r: int)
    requires IsField(f) && |row| == |row'| <= Capacity(setup)
    requires Same(f, c, Commit(setup, row, b)) && Same(f, c', Commit(setup, row', b'))
    ensures Same(f, c + r * c', Commit(setup, VAdd(row, Scale(r, row')), b + r * b'))
  {
    CommitScale(setup, r, row', b');
    CommitAdd(setup, row, Scale(r, row'), b, r * b');
    SameMul(f, r, r, c', Commit(setup, row', b'));
    SameAdd(f, c, Commit(setup, row, b), r * c', r * Commit(setup, row', b'));
  }

  /** Folded commitments open to the folded rows and blindings. */
  lemma FoldOpens(f: Field, setup: Setup, c: seq<int>, rows: seq<seq<int>>, b: seq<int>,
                  c': seq<int>, rows': seq<seq<int>>, b': seq<int>, len: nat, r: int)
    requires IsField(f) && |rows| == |rows'|
    requires Opens(f, setup, c, rows, b, len) && Opens(f, setup, c', rows', b', len)
    ensures Opens(f, setup, Folded(c, c', r), FoldRows(rows, rows', len, r), Folded(b, b', r), len)
  {
    forall i | 0 <= i < |rows|
      ensures Same(f, Folded(c, c', r)[i], Commit(setup, FoldRows(rows, rows', len, r)[i], Folded(b, b', r)[i]))
    {
      FoldedCommitment(f, setup, c[i], rows[i], b[i], c'[i], rows'[i], b'[i], r);
    }
  }

  /** Folded error commitments open to the folded error rows and blindings. */
  lemma FoldErrorOpens(f: Field, setup: Setup, c: seq<int>, rows: seq<seq<int>>, b: seq<int>,
                       x: seq<int>, xrows: seq<seq<int>>, xb: seq<int>,
                       c': seq<int>, rows': seq<seq<int>>, b': seq<int>, len: nat, r: int)
    requires IsField(f) && |rows| == |xrows| == |rows'|
    requires Opens(f, setup, c, rows, b, len) && Opens(f, setup, x, xrows, xb, len)
    requires Opens(f, setup, c', rows', b', len)
    ensures Opens(f, setup, FoldedError(c, x, c', r), FoldErrorRows(rows, xrows, rows', len, r),
                  FoldedError(b, xb, b', r), len)
  {
    forall i | 0 <= i < |rows|
      ensures Same(f, FoldedError(c, x, c', r)[i],
                   Commit(setup, FoldErrorRows(rows, xrows, rows', len, r)[i], FoldedError(b, xb, b', r)[i]))
    {
      FoldedCommitment(f, setup, c[i], rows[i], b[i], x[i], xrows[i], xb[i], r);
      FoldedCommitment(f, setup, c[i] + r * x[i], VAdd(rows[i], Scale(r, xrows[i])), b[i] + r * xb[i], c'[i], rows'[i],
                       b'[i], r * r);
    }
  }

  /** Flattening commutes with folding. */
  lemma {:induction false} FlattenFold(base: seq<seq<int>>, random: seq<seq<int>>, len: nat, r: int)
    requires |base| == |random| && Uniform(base, len) && Uniform(random, len)
    ensures |Flatten(base)| == |Flatten(random)|
    ensures Flatten(FoldRows(base, random, len, r)) == Folded(Flatten(base), Flatten(random), r)
  {
    FlattenLength(base, len);
    FlattenLength(random, len);
    if base != [] {
      FlattenFold(base[1..], random[1..], len, r);
      var rows := FoldRows(base, random, len, r);
      assert rows[1..] == FoldRows(base[1..], random[1..], len, r);
      assert Folded(base[0] + Flatten(base[1..]), random[0] + Flatten(random[1..]), r)
          == Folded(base[0], random[0], r) + Folded(Flatten(base[1..]), Flatten(random[1..]), r);
    }
  }

  lemma {:induction false} FlattenFoldError(base: seq<seq<int>>, cross: seq<seq<int>>, random: seq<seq<int>>, len: nat,
                                            r: int)
    requires |base| == |cross| == |random| && Uniform(base, len) && Uniform(cross, len) && Uniform(random, len)
    ensures |Flatten(base)| == |Flatten(cross)| == |Flatten(random)|
    ensures Flatten(FoldErrorRows(base, cross, random, len, r))
         == FoldedError(Flatten(base), Flatten(cross), Flatten(random), r)
  {
    var first := FoldRows(base, cross, len, r);
    FlattenFold(base, cross, len, r);
    FlattenFold(first, random, len, r * r);
    assert FoldErrorRows(base, cross, random, len, r) == FoldRows(first, random, len, r * r);
  }
}
