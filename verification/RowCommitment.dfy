/** Row-committed matrices: a linear vector commitment per row, opened at a
    point through the eq-weighted combination of the rows. */
module RowCommitment {
  import opened Results
  import opened Fields
  import opened Vectors
  import opened Multilinear
  import opened Matrices
  import opened EqTables

  // The commitment scheme: any linear map into a group of the field's order.

  datatype Setup = Setup(generators: seq<int>, blindingGenerator: int)

  function Capacity(setup: Setup): nat {
    |setup.generators|
  }

  /** A group element is an integer up to `Same`, as for the scalars. */
  function Commit(setup: Setup, values: seq<int>, blinding: int): int
    requires |values| <= Capacity(setup)
  {
    Dot(values, setup.generators[..|values|]) + blinding * setup.blindingGenerator
  }

  predicate VerifyCommitment(f: Field, setup: Setup, commitment: int, values: seq<int>, blinding: int)
    requires |values| <= Capacity(setup)
  {
    Same(f, commitment, Commit(setup, values, blinding))
  }

  lemma CommitScale(setup: Setup, c: int, values: seq<int>, blinding: int)
    requires |values| <= Capacity(setup)
    ensures Commit(setup, Scale(c, values), c * blinding) == c * Commit(setup, values, blinding)
  {
    DotScale(c, values, setup.generators[..|values|]);
    Factor(c, Dot(values, setup.generators[..|values|]), blinding, setup.blindingGenerator);
  }

  lemma Factor(c: int, d: int, b: int, h: int)
    ensures c * d + c * b * h == c * (d + b * h)
  {
  }

  lemma CommitAdd(setup: Setup, a: seq<int>, b: seq<int>, x: int, y: int)
    requires |a| == |b| <= Capacity(setup)
    ensures Commit(setup, VAdd(a, b), x + y) == Commit(setup, a, x) + Commit(setup, b, y)
  {
    DotAdd(a, b, setup.generators[..|a|]);
    assert (x + y) * setup.blindingGenerator == x * setup.blindingGenerator + y * setup.blindingGenerator;
  }

  /** `linear_combine(c1, c2, s)`. */
  function LinearCombine(c1: int, c2: int, scalar: int): int {
    c1 + scalar * c2
  }

  /** Every commitment opens to its row and blinding. */
  ghost predicate Opens(f: Field, setup: Setup, commitments: seq<int>, rows: seq<seq<int>>, blindings: seq<int>,
                        len: nat) {
    && |commitments| == |rows| == |blindings| && Uniform(rows, len) && len <= Capacity(setup)
    && forall i :: 0 <= i < |rows| ==> Same(f, commitments[i], Commit(setup, rows[i], blindings[i]))
  }

  /** The commitment is linear: the combined commitment opens to the combined row. */
  lemma {:induction false} CombinedOpens(f: Field, setup: Setup, weights: seq<int>, commitments: seq<int>,
                                         rows: seq<seq<int>>, blindings: seq<int>, len: nat)
    requires IsField(f) && |weights| == |rows| && Opens(f, setup, commitments, rows, blindings, len)
    ensures Same(f, Dot(weights, commitments), Commit(setup, Combine(weights, rows, len), Dot(weights, blindings)))
  {
    if rows == [] {
      DotZeros(Zeros(len), setup.generators[..len]);
      assert 0 * setup.blindingGenerator == 0;
    } else {
      var w, tail, rest := weights[0], Combine(weights[1..], rows[1..], len), Dot(weights[1..], blindings[1..]);
      CombinedOpens(f, setup, weights[1..], commitments[1..], rows[1..], blindings[1..], len);
      OneMoreOpens(f, setup, w, commitments[0], rows[0], blindings[0], Dot(weights[1..], commitments[1..]), tail, rest);
    }
  }

  lemma OneMoreOpens(f: Field, setup: Setup, w: int, commitment: int, row: seq<int>, blinding: int, others: int,
                     tail: seq<int>, rest: int)
    requires IsField(f) && |row| == |tail| <= Capacity(setup)
    requires Same(f, commitment, Commit(setup, row, blinding)) && Same(f, others, Commit(setup, tail, rest))
    ensures Same(f, w * commitment + others, Commit(setup, VAdd(Scale(w, row), tail), w * blinding + rest))
  {
    CommitScale(setup, w, row, blinding);
    CommitAdd(setup, Scale(w, row), tail, w * blinding, rest);
    SameMul(f, w, w, commitment, Commit(setup, row, blinding));
    SameAdd(f, w * commitment, w * Commit(setup, row, blinding), others, Commit(setup, tail, rest));
  }

  // Opening and verification.

  datatype Opening = Opening(combinedVector: seq<int>, combinedBlinding: int)

  datatype OpeningError =
    | RowLenZero
    | RowLenNotPowerOfTwo(rowLen: nat)
    | EntryPointLengthMismatch(expected: nat, got: nat)
    | RowBlindingsLengthMismatch(expected: nat, got: nat)
    | RowCommitmentsLengthMismatch(expected: nat, got: nat)
    | FlattenedRowsTooLong(max: nat, got: nat)
    | CommitmentCapacityExceeded(capacity: nat, rowLen: nat)
    | CommitmentMismatch

  function IsPow2(n: nat): (b: bool) {
    if n == 0 then false else if n == 1 then true else n % 2 == 0 && IsPow2(n / 2)
  }

  function Log2(n: nat): (k: nat) {
    if n <= 1 then 0 else 1 + Log2(n / 2)
  }

  lemma {:induction false} Pow2IsPow2(k: nat)
    ensures IsPow2(Pow2(k)) && Log2(Pow2(k)) == k
  {
    if k > 0 {
      Pow2IsPow2(k - 1);
    }
  }

  lemma {:induction false} IsPow2Log(n: nat)
    requires IsPow2(n)
    ensures n == Pow2(Log2(n))
  {
    if n > 1 {
      IsPow2Log(n / 2);
    }
  }

  function ValidateRowLen(rowLen: nat, entryPointLen: nat): Option<OpeningError> {
    if rowLen == 0 then Some(RowLenZero)
    else if !IsPow2(rowLen) then Some(RowLenNotPowerOfTwo(rowLen))
    else if entryPointLen != Log2(rowLen) then Some(EntryPointLengthMismatch(Log2(rowLen), entryPointLen))
    else None
  }

  /** `combine_rows`. */
  method CombineRows(flat: seq<int>, rowLen: nat, weights: seq<int>) returns (combined: seq<int>)
    ensures combined == Combine(weights, Chunks(flat, rowLen, |weights|), rowLen)
  {
    combined := Zeros(rowLen);
    ghost var rows := Chunks(flat, rowLen, |weights|);
    for entry := 0 to rowLen
      invariant |combined| == rowLen
      invariant forall e {:trigger combined[e]} :: 0 <= e < entry ==> combined[e] == Combine(weights, rows, rowLen)[e]
    {
      var acc := 0;
      for row := 0 to |weights|
        invariant acc + Combine(weights[row..], rows[row..], rowLen)[entry] == Combine(weights, rows, rowLen)[entry]
      {
        assert weights[row..][1..] == weights[row + 1..] && rows[row..][1..] == rows[row + 1..];
        assert rows[row..][0][entry] == At(flat, row * rowLen + entry);
        if row * rowLen + entry < |flat| {
          acc := acc + weights[row] * flat[row * rowLen + entry];
        } else {
          assert weights[row] * 0 == 0;
        }
      }
      combined := combined[entry := acc];
    }
  }

  /** `combine_commitments`. */
  method CombineCommitments(commitments: seq<int>, weights: seq<int>) returns (acc: int)
    requires |commitments| == |weights|
    ensures acc == Dot(weights, commitments)
  {
    acc := 0;
    for i := 0 to |commitments|
      invariant acc == Dot(weights[..i], commitments[..i])
    {
      DotSnoc(weights, commitments, i);
      acc := LinearCombine(acc, commitments[i], weights[i]);
    }
    assert commitments[..|commitments|] == commitments && weights[..|weights|] == weights;
  }

  /** The opening of a matrix at a row point. */
  function OpeningOf(rows: seq<seq<int>>, blindings: seq<int>, len: nat, rowPoint: seq<int>): Opening
    requires |rows| == |blindings| == Pow2(|rowPoint|) && Uniform(rows, len)
  {
    Opening(Combine(EqTable(rowPoint), rows, len), Dot(EqTable(rowPoint), blindings))
  }

  /** `open_committed_rows`: the row-combined opening and the matrix's
      extension at the joined point, or the first shape error. */
  method OpenCommittedRows(flat: seq<int>, blindings: seq<int>, rowLen: nat, rowPoint: seq<int>, entryPoint: seq<int>)
    returns (r: Result<(Opening, int), OpeningError>)
    ensures r.Ok? <==>
      rowLen == Pow2(|entryPoint|) && |flat| <= Pow2(|rowPoint|) * rowLen && |blindings| == Pow2(|rowPoint|)
    ensures r.Ok? ==> var rows := Chunks(flat, rowLen, Pow2(|rowPoint|));
      && r.value.0 == OpeningOf(rows, blindings, rowLen, rowPoint)
      && |Flatten(rows)| == Pow2(|rowPoint + entryPoint|)
      && r.value.1 == Mle(Flatten(rows), rowPoint + entryPoint)
  {
    var rowCount := Pow2(|rowPoint|);
    var bad := ValidateRowLen(rowLen, |entryPoint|);
    Pow2IsPow2(|entryPoint|);
    if bad.Some? {
      return Err(bad.value);
    }
    IsPow2Log(rowLen);
    if |flat| > rowCount * rowLen {
      return Err(FlattenedRowsTooLong(rowCount * rowLen, |flat|));
    }
    if |blindings| != rowCount {
      return Err(RowBlindingsLengthMismatch(rowCount, |blindings|));
    }
    var rowWeights := Evaluations(rowPoint);
    var entryWeights := Evaluations(entryPoint);
    var combined := CombineRows(flat, rowLen, rowWeights);
    var blinding := InnerProduct(blindings, rowWeights);
    DotSymmetric(blindings, rowWeights);
    var evaluation := InnerProduct(combined, entryWeights);
    MatrixMle(Chunks(flat, rowLen, rowCount), rowPoint, entryPoint);
    DotIsMle(combined, entryPoint);
    r := Ok((Opening(combined, blinding), evaluation));
  }

  /** What verification of a row opening returns. */
  function VerifiedRows(f: Field, setup: Setup, commitments: seq<int>, rowPoint: seq<int>, entryPoint: seq<int>,
                        opening: Opening)
    : Result<int, OpeningError>
  {
    var rowLen := |opening.combinedVector|;
    var bad := ValidateRowLen(rowLen, |entryPoint|);
    if |commitments| != Pow2(|rowPoint|) then Err(RowCommitmentsLengthMismatch(Pow2(|rowPoint|), |commitments|))
    else if bad.Some? then Err(bad.value)
    else if rowLen > Capacity(setup) then Err(CommitmentCapacityExceeded(Capacity(setup), rowLen))
    else if !VerifyCommitment(f, setup, Dot(EqTable(rowPoint), commitments), opening.combinedVector,
                              opening.combinedBlinding)
    then Err(CommitmentMismatch)
    else
      IsPow2Log(rowLen);
      Ok(Mle(opening.combinedVector, entryPoint))
  }

  /** `verify_committed_rows`. */
  method VerifyCommittedRows(f: Field, setup: Setup, commitments: seq<int>, rowPoint: seq<int>, entryPoint: seq<int>,
                             opening: Opening)
    returns (r: Result<int, OpeningError>)
    ensures r == VerifiedRows(f, setup, commitments, rowPoint, entryPoint, opening)
  {
    var rowCount := Pow2(|rowPoint|);
    if |commitments| != rowCount {
      return Err(RowCommitmentsLengthMismatch(rowCount, |commitments|));
    }
    var rowLen := |opening.combinedVector|;
    var bad := ValidateRowLen(rowLen, |entryPoint|);
    if bad.Some? {
      return Err(bad.value);
    }
    if rowLen > Capacity(setup) {
      return Err(CommitmentCapacityExceeded(Capacity(setup), rowLen));
    }
    var rowWeights := Evaluations(rowPoint);
    var combined := CombineCommitments(commitments, rowWeights);
    if !VerifyCommitment(f, setup, combined, opening.combinedVector, opening.combinedBlinding) {
      return Err(CommitmentMismatch);
    }
    IsPow2Log(rowLen);
    var entryWeights := Evaluations(entryPoint);
    var value := InnerProduct(opening.combinedVector, entryWeights);
    DotIsMle(opening.combinedVector, entryPoint);
    r := Ok(value);
  }

  /** An honest opening verifies, and the verifier reads the matrix's extension. */
  lemma OpeningVerifies(f: Field, setup: Setup, commitments: seq<int>, rows: seq<seq<int>>, blindings: seq<int>,
                        rowPoint: seq<int>, entryPoint: seq<int>)
    requires IsField(f) && |rows| == Pow2(|rowPoint|)
    requires Opens(f, setup, commitments, rows, blindings, Pow2(|entryPoint|))
    ensures |Flatten(rows)| == Pow2(|rowPoint + entryPoint|)
    ensures VerifiedRows(f, setup, commitments, rowPoint, entryPoint,
                         OpeningOf(rows, blindings, Pow2(|entryPoint|), rowPoint))
         == Ok(Mle(Flatten(rows), rowPoint + entryPoint))
  {
    var len := Pow2(|entryPoint|);
    Pow2IsPow2(|entryPoint|);
    CombinedOpens(f, setup, EqTable(rowPoint), commitments, rows, blindings, len);
    MatrixMle(rows, rowPoint, entryPoint);
  }

  /** At a vertex of the row point the opening is that row itself. */
  lemma OpeningAtVertex(rows: seq<seq<int>>, blindings: seq<int>, len: nat, index: nat, n: nat)
    requires |rows| == |blindings| == Pow2(n) && Uniform(rows, len) && index < |rows|
    ensures OpeningOf(rows, blindings, len, Bits(index, n)) == Opening(rows[index], blindings[index])
  {
    CombineAtVertex(rows, index, n, len);
    DotSymmetric(EqTable(Bits(index, n)), blindings);
    DotIsMle(blindings, Bits(index, n));
    MleAtVertex(blindings, index, n);
  }
}
