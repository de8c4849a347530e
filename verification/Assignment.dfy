/** Witness assembly: solving the product auxiliaries in emission order, and
    slicing the flat witness into the row grid. */
module Assignment {
  import opened Results
  import opened Fields
  import opened Vectors
  import opened Matrices
  import opened R1cs
  import opened Protocol

  type PartialWitness = seq<Option<int>>

  /** Every known slot keeps its value. */
  ghost predicate Extends(before: PartialWitness, after: PartialWitness) {
    && |before| == |after|
    && forall i :: 0 <= i < |before| && before[i].Some? ==> after[i] == before[i]
  }

  /** `evaluate_sparse`: nothing if an operand is missing. */
  function Evaluate(row: SparseRow, w: PartialWitness): Option<int> {
    if row == [] then Some(0)
    else
      var (column, coefficient), rest := row[0], Evaluate(row[1..], w);
      if column < |w| && w[column].Some? && rest.Some? then Some(w[column].value * coefficient + rest.value) else None
  }

  ghost predicate Operands(row: SparseRow, w: PartialWitness) {
    forall i :: 0 <= i < |row| ==> row[i].0 < |w| && w[row[i].0].Some?
  }

  lemma {:induction false} EvaluateIffOperands(row: SparseRow, w: PartialWitness)
    ensures Evaluate(row, w).Some? <==> Operands(row, w)
  {
    if row != [] {
      EvaluateIffOperands(row[1..], w);
      OperandsOfTail(row, w);
    }
  }

  lemma OperandsOfTail(row: SparseRow, w: PartialWitness)
    requires row != []
    ensures Operands(row, w) <==> row[0].0 < |w| && w[row[0].0].Some? && Operands(row[1..], w)
  {
    if Operands(row, w) {
      forall i | 0 <= i < |row[1..]| ensures row[1..][i].0 < |w| && w[row[1..][i].0].Some? {
        assert row[1..][i] == row[i + 1];
      }
    }
    if row[0].0 < |w| && w[row[0].0].Some? && Operands(row[1..], w) {
      forall i | 0 <= i < |row| ensures row[i].0 < |w| && w[row[i].0].Some? {
        if i > 0 {
          assert row[i] == row[1..][i - 1];
        }
      }
    }
  }

  /** Filling more slots does not change what could already be evaluated. */
  lemma {:induction false} EvaluateExtends(row: SparseRow, before: PartialWitness, after: PartialWitness)
    requires Extends(before, after) && Evaluate(row, before).Some?
    ensures Evaluate(row, after) == Evaluate(row, before)
  {
    if row != [] {
      var column := row[0].0;
      assert column < |before| && before[column].Some? && Evaluate(row[1..], before).Some?;
      EvaluateExtends(row[1..], before, after);
      assert after[column] == before[column];
    }
  }

  /** A full assignment agrees with the known slots. */
  ghost predicate Agrees(f: Field, w: PartialWitness, z: seq<int>) {
    && |w| == |z|
    && forall i :: 0 <= i < |w| && w[i].Some? ==> Same(f, w[i].value, z[i])
  }

  // Definitions among the constraints.

  /** Constraint `k` has the shape of a definition: one entry on the C side,
      with coefficient one, naming a slot of the witness. */
  predicate Defines(f: Field, c: seq<SparseRow>, k: nat, n: nat)
    requires k < |c|
  {
    |c[k]| == 1 && Same(f, c[k][0].1, 1) && c[k][0].0 < n
  }

  function Target(c: seq<SparseRow>, k: nat): nat
    requires k < |c| && |c[k]| == 1
  {
    c[k][0].0
  }

  /** Slot `i` has a value when constraint `k` is reached: given, or defined earlier. */
  ghost predicate KnownBefore(f: Field, c: seq<SparseRow>, w: PartialWitness, k: nat, i: nat)
    requires k <= |c|
  {
    i < |w| && (w[i].Some? || exists j :: 0 <= j < k && Defines(f, c, j, |w|) && Target(c, j) == i)
  }

  /** The pass solves constraint `k`: it is the first definition of an unknown slot. */
  ghost predicate Solves(f: Field, c: seq<SparseRow>, w: PartialWitness, k: nat)
    requires k < |c|
  {
    Defines(f, c, k, |w|) && !KnownBefore(f, c, w, k, Target(c, k))
  }

  ghost predicate RowKnown(f: Field, c: seq<SparseRow>, w: PartialWitness, k: nat, row: SparseRow)
    requires k <= |c|
  {
    forall i :: 0 <= i < |row| ==> KnownBefore(f, c, w, k, row[i].0)
  }

  /** Every operand of a solved constraint has a value when the pass gets there. */
  ghost predicate OperandsFirst(f: Field, a: seq<SparseRow>, b: seq<SparseRow>, c: seq<SparseRow>, w: PartialWitness,
                                m: nat)
    requires |a| == |b| == |c| && m <= |c|
  {
    forall k :: 0 <= k < m && Solves(f, c, w, k) ==> RowKnown(f, c, w, k, a[k]) && RowKnown(f, c, w, k, b[k])
  }

  /** The product of constraint `k` holds, every value in it known. */
  ghost predicate ProductHolds(a: seq<SparseRow>, b: seq<SparseRow>, c: seq<SparseRow>, k: nat, w: PartialWitness)
    requires |a| == |b| == |c| && k < |c| && |c[k]| == 1
  {
    && Evaluate(a[k], w).Some? && Evaluate(b[k], w).Some? && Target(c, k) < |w|
    && w[Target(c, k)] == Some(Evaluate(a[k], w).value * Evaluate(b[k], w).value)
  }

  /** The state of the pass before constraint `k`: exactly the slots known by
      then are filled, given slots are untouched, solved products hold. */
  ghost predicate SolvedUpTo(f: Field, a: seq<SparseRow>, b: seq<SparseRow>, c: seq<SparseRow>, w0: PartialWitness,
                             w: PartialWitness, k: nat)
    requires |a| == |b| == |c| && k <= |c|
  {
    && Extends(w0, w)
    && (forall i :: 0 <= i < |w| ==> (w[i].Some? <==> KnownBefore(f, c, w0, k, i)))
    && (forall j :: 0 <= j < k && Solves(f, c, w0, j) ==> ProductHolds(a, b, c, j, w))
  }

  lemma SkipStep(f: Field, a: seq<SparseRow>, b: seq<SparseRow>, c: seq<SparseRow>, w0: PartialWitness,
                 w: PartialWitness, k: nat)
    requires |a| == |b| == |c| && k < |c| && SolvedUpTo(f, a, b, c, w0, w, k) && !Solves(f, c, w0, k)
    ensures SolvedUpTo(f, a, b, c, w0, w, k + 1)
  {
    forall i | 0 <= i < |w| ensures KnownBefore(f, c, w0, k + 1, i) <==> KnownBefore(f, c, w0, k, i) {
      KnownNext(f, c, w0, k, i);
    }
  }

  lemma KnownNext(f: Field, c: seq<SparseRow>, w: PartialWitness, k: nat, i: nat)
    requires k < |c|
    ensures KnownBefore(f, c, w, k + 1, i) <==>
      KnownBefore(f, c, w, k, i) || (i < |w| && Defines(f, c, k, |w|) && Target(c, k) == i)
  {
  }

  lemma SolveStep(f: Field, a: seq<SparseRow>, b: seq<SparseRow>, c: seq<SparseRow>, w0: PartialWitness,
                  w: PartialWitness, k: nat)
    requires |a| == |b| == |c| && k < |c| && SolvedUpTo(f, a, b, c, w0, w, k) && Solves(f, c, w0, k)
    requires Evaluate(a[k], w).Some? && Evaluate(b[k], w).Some?
    ensures SolvedUpTo(f, a, b, c, w0, w[Target(c, k) := Some(Evaluate(a[k], w).value * Evaluate(b[k], w).value)],
                       k + 1)
  {
    var after := w[Target(c, k) := Some(Evaluate(a[k], w).value * Evaluate(b[k], w).value)];
    assert w[Target(c, k)].None?;
    assert Extends(w, after);
    forall i | 0 <= i < |after| ensures after[i].Some? <==> KnownBefore(f, c, w0, k + 1, i) {
      KnownNext(f, c, w0, k, i);
    }
    forall j | 0 <= j < k + 1 && Solves(f, c, w0, j) ensures ProductHolds(a, b, c, j, after) {
      if j < k {
        EvaluateExtends(a[j], w, after);
        EvaluateExtends(b[j], w, after);
      } else {
        EvaluateExtends(a[k], w, after);
        EvaluateExtends(b[k], w, after);
      }
    }
  }

  lemma RowKnownIffEvaluates(f: Field, a: seq<SparseRow>, b: seq<SparseRow>, c: seq<SparseRow>, w0: PartialWitness,
                             w: PartialWitness, k: nat, row: SparseRow)
    requires |a| == |b| == |c| && k <= |c| && SolvedUpTo(f, a, b, c, w0, w, k)
    ensures Evaluate(row, w).Some? <==> RowKnown(f, c, w0, k, row)
  {
    EvaluateIffOperands(row, w);
  }

  /** Constraint `k` is a product with the one result `target`. */
  ghost predicate ProductFor(f: Field, c: seq<SparseRow>, k: nat, target: nat)
    requires k < |c|
  {
    exists one :: c[k] == [(target, one)] && Same(f, one, 1)
  }

  /** No earlier constraint is a product with that result. */
  ghost predicate FirstFor(f: Field, c: seq<SparseRow>, k: nat, target: nat)
    requires k < |c|
  {
    ProductFor(f, c, k, target) && forall j :: 0 <= j < k ==> !ProductFor(f, c, j, target)
  }

  ghost predicate MissingOperand(row: SparseRow, w: PartialWitness) {
    exists i :: 0 <= i < |row| && (row[i].0 >= |w| || w[row[i].0].None?)
  }

  /** What a finished pass leaves: the result of every product is known, an
      unknown one is the first product for it, and no other slot changes. */
  ghost predicate ResultsFilled(f: Field, a: seq<SparseRow>, b: seq<SparseRow>, c: seq<SparseRow>, w0: PartialWitness,
                                w: PartialWitness)
    requires |a| == |b| == |c|
  {
    && |w| == |w0|
    && (forall k, t :: 0 <= k < |c| && 0 <= t < |w| && ProductFor(f, c, k, t) ==> w[t].Some?)
    && (forall k, t :: 0 <= k < |c| && 0 <= t < |w| && w0[t].None? && FirstFor(f, c, k, t) ==>
         && Evaluate(a[k], w).Some? && Evaluate(b[k], w).Some?
         && w[t] == Some(Evaluate(a[k], w).value * Evaluate(b[k], w).value))
    && (forall t :: 0 <= t < |w| && w[t] != w0[t] ==> exists k :: 0 <= k < |c| && ProductFor(f, c, k, t))
  }

  lemma DefinesIs(f: Field, c: seq<SparseRow>, k: nat, n: nat)
    requires k < |c|
    ensures Defines(f, c, k, n) <==> exists t: nat :: t < n && ProductFor(f, c, k, t)
    ensures Defines(f, c, k, n) ==> ProductFor(f, c, k, Target(c, k))
    ensures forall t: nat :: ProductFor(f, c, k, t) ==> |c[k]| == 1 && Target(c, k) == t
  {
    if |c[k]| == 1 {
      var (t, one) := c[k][0];
      assert c[k] == [(t, one)];
      assert Same(f, one, 1) ==> ProductFor(f, c, k, t);
    }
  }

  lemma SolvedFills(f: Field, a: seq<SparseRow>, b: seq<SparseRow>, c: seq<SparseRow>, w0: PartialWitness,
                    w: PartialWitness)
    requires |a| == |b| == |c| && SolvedUpTo(f, a, b, c, w0, w, |c|)
    ensures ResultsFilled(f, a, b, c, w0, w)
  {
    forall k, t | 0 <= k < |c| && 0 <= t < |w| && ProductFor(f, c, k, t) ensures w[t].Some? {
      DefinesIs(f, c, k, |w|);
      assert KnownBefore(f, c, w0, |c|, t);
    }
    forall k, t | 0 <= k < |c| && 0 <= t < |w| && w0[t].None? && FirstFor(f, c, k, t)
      ensures Evaluate(a[k], w).Some? && Evaluate(b[k], w).Some?
      ensures w[t] == Some(Evaluate(a[k], w).value * Evaluate(b[k], w).value)
    {
      FirstIsSolved(f, c, w0, k, t);
      assert ProductHolds(a, b, c, k, w);
    }
    forall t | 0 <= t < |w| && w[t] != w0[t] ensures exists k :: 0 <= k < |c| && ProductFor(f, c, k, t) {
      assert w0[t].None? && KnownBefore(f, c, w0, |c|, t);
      var k :| 0 <= k < |c| && Defines(f, c, k, |w|) && Target(c, k) == t;
      DefinesIs(f, c, k, |w|);
    }
  }

  lemma FirstIsSolved(f: Field, c: seq<SparseRow>, w0: PartialWitness, k: nat, t: nat)
    requires k < |c| && t < |w0| && w0[t].None? && FirstFor(f, c, k, t)
    ensures Solves(f, c, w0, k) && Target(c, k) == t
  {
    DefinesIs(f, c, k, |w0|);
    forall j | 0 <= j < k ensures !(Defines(f, c, j, |w0|) && Target(c, j) == t) {
      DefinesIs(f, c, j, |w0|);
    }
  }

  /** With every slot given that no product has for result, none stays unknown. */
  lemma NothingUnknown(f: Field, a: seq<SparseRow>, b: seq<SparseRow>, c: seq<SparseRow>, w0: PartialWitness,
                       w: PartialWitness)
    requires |a| == |b| == |c| && ResultsFilled(f, a, b, c, w0, w)
    requires forall t :: 0 <= t < |w0| && w0[t].None? ==> exists k :: 0 <= k < |c| && ProductFor(f, c, k, t)
    ensures forall t :: 0 <= t < |w| ==> w[t].Some?
  {
    forall t | 0 <= t < |w| ensures w[t].Some? {
      if w[t] != w0[t] || w0[t].None? {
        var k :| 0 <= k < |c| && ProductFor(f, c, k, t);
        assert w[t].Some?;
      }
    }
  }

  /** `solve_products`: one forward pass. It fails exactly when a solved
      constraint has an operand without a value, and otherwise leaves given
      slots alone, fills exactly the defined ones, and makes their products hold. */
  method SolveProducts(f: Field, a: seq<SparseRow>, b: seq<SparseRow>, c: seq<SparseRow>, witness_: array<Option<int>>)
    returns (bad: Option<nat>)
    requires |a| == |b| == |c|
    modifies witness_
    ensures bad.None? <==> OperandsFirst(f, a, b, c, old(witness_[..]), |c|)
    ensures bad.None? ==> SolvedUpTo(f, a, b, c, old(witness_[..]), witness_[..], |c|)
    ensures bad.None? ==> ResultsFilled(f, a, b, c, old(witness_[..]), witness_[..])
    ensures bad.Some? ==>
      bad.value < |c| && exists t :: 0 <= t < witness_.Length && witness_[t].None? && ProductFor(f, c, bad.value, t)
    ensures bad.Some? ==> MissingOperand(a[bad.value], witness_[..]) || MissingOperand(b[bad.value], witness_[..])
    ensures Extends(old(witness_[..]), witness_[..])
  {
    ghost var w0 := witness_[..];
    for k := 0 to |c|
      invariant SolvedUpTo(f, a, b, c, w0, witness_[..], k) && OperandsFirst(f, a, b, c, w0, k)
    {
      if !Defines(f, c, k, witness_.Length) || witness_[Target(c, k)].Some? {
        SkipStep(f, a, b, c, w0, witness_[..], k);
        continue;
      }
      var x, y := Evaluate(a[k], witness_[..]), Evaluate(b[k], witness_[..]);
      RowKnownIffEvaluates(f, a, b, c, w0, witness_[..], k, a[k]);
      RowKnownIffEvaluates(f, a, b, c, w0, witness_[..], k, b[k]);
      if x.None? || y.None? {
        DefinesIs(f, c, k, witness_.Length);
        MissingIffUnevaluated(a[k], witness_[..]);
        MissingIffUnevaluated(b[k], witness_[..]);
        return Some(k);
      }
      SolveStep(f, a, b, c, w0, witness_[..], k);
      ghost var next := witness_[..][Target(c, k) := Some(x.value * y.value)];
      witness_[Target(c, k)] := Some(x.value * y.value);
      assert witness_[..] == next;
    }
    SolvedFills(f, a, b, c, w0, witness_[..]);
    bad := None;
  }

  lemma MissingIffUnevaluated(row: SparseRow, w: PartialWitness)
    ensures MissingOperand(row, w) <==> Evaluate(row, w).None?
  {
    EvaluateIffOperands(row, w);
  }

  /** A full assignment satisfies constraint `k`. */
  ghost predicate SatisfiesAtRow(f: Field, a: seq<SparseRow>, b: seq<SparseRow>, c: seq<SparseRow>, k: nat, z: seq<int>)
    requires |a| == |b| == |c| && k < |c| && RowsBelow(a, |z|) && RowsBelow(b, |z|) && RowsBelow(c, |z|)
  {
    Same(f, SparseDot(a[k], z) * SparseDot(b[k], z), SparseDot(c[k], z))
  }

  /** There is no choice: any full satisfying assignment that agrees with the
      given slots agrees with every slot the pass filled. */
  lemma {:induction false} SolutionUnique(f: Field, a: seq<SparseRow>, b: seq<SparseRow>, c: seq<SparseRow>,
                                          w0: PartialWitness, w: PartialWitness, k: nat, z: seq<int>)
    requires IsField(f) && |a| == |b| == |c| && k <= |c| && RowsBelow(a, |z|) && RowsBelow(b, |z|) && RowsBelow(c, |z|)
    requires SolvedUpTo(f, a, b, c, w0, w, |c|) && OperandsFirst(f, a, b, c, w0, |c|) && Agrees(f, w0, z)
    requires forall j :: 0 <= j < |c| && Solves(f, c, w0, j) ==> SatisfiesAtRow(f, a, b, c, j, z)
    ensures |w| == |z| && forall i :: 0 <= i < |w| && KnownBefore(f, c, w0, k, i) ==>
      w[i].Some? && Same(f, w[i].value, z[i])
  {
    forall i | 0 <= i < |w| && KnownBefore(f, c, w0, k, i) ensures w[i].Some? && Same(f, w[i].value, z[i]) {
      KnownLater(f, c, w0, k, |c|, i);
      if w0[i].None? {
        var j := FirstDefinition(f, c, w0, k, i);
        SolutionUnique(f, a, b, c, w0, w, j, z);
        ProductDecides(f, a, b, c, w0, w, j, z);
      }
    }
  }

  lemma KnownLater(f: Field, c: seq<SparseRow>, w: PartialWitness, k: nat, m: nat, i: nat)
    requires k <= m <= |c| && KnownBefore(f, c, w, k, i)
    ensures KnownBefore(f, c, w, m, i)
  {
  }

  lemma {:induction false} FirstDefinition(f: Field, c: seq<SparseRow>, w: PartialWitness, k: nat, i: nat)
    returns (j: nat)
    requires k <= |c| && KnownBefore(f, c, w, k, i) && w[i].None?
    ensures j < k && Solves(f, c, w, j) && Target(c, j) == i
  {
    var d :| 0 <= d < k && Defines(f, c, d, |w|) && Target(c, d) == i;
    if KnownBefore(f, c, w, d, i) {
      j := FirstDefinition(f, c, w, d, i);
    } else {
      j := d;
    }
  }

  /** The operands agree, so the product does. */
  lemma ProductDecides(f: Field, a: seq<SparseRow>, b: seq<SparseRow>, c: seq<SparseRow>, w0: PartialWitness,
                       w: PartialWitness, j: nat, z: seq<int>)
    requires IsField(f) && |a| == |b| == |c| && j < |c| && RowsBelow(a, |z|) && RowsBelow(b, |z|) && RowsBelow(c, |z|)
    requires |w| == |z| && Solves(f, c, w0, j) && |w0| == |w| && SatisfiesAtRow(f, a, b, c, j, z)
    requires RowKnown(f, c, w0, j, a[j]) && RowKnown(f, c, w0, j, b[j]) && ProductHolds(a, b, c, j, w)
    requires forall i :: 0 <= i < |w| && KnownBefore(f, c, w0, j, i) ==> w[i].Some? && Same(f, w[i].value, z[i])
    ensures Same(f, w[Target(c, j)].value, z[Target(c, j)])
  {
    EvaluateKnown(f, c, w0, w, j, a[j], z);
    EvaluateKnown(f, c, w0, w, j, b[j], z);
    SameMul(f, Evaluate(a[j], w).value, SparseDot(a[j], z), Evaluate(b[j], w).value, SparseDot(b[j], z));
    var (t, one) := c[j][0];
    assert c[j][1..] == [];
    assert SparseDot(c[j], z) == one * z[t] + 0;
    SameMul(f, one, 1, z[t], z[t]);
    assert 1 * z[t] == z[t];
  }

  lemma {:induction false} EvaluateKnown(f: Field, c: seq<SparseRow>, w0: PartialWitness, w: PartialWitness, j: nat,
                                         row: SparseRow, z: seq<int>)
    requires IsField(f) && j <= |c| && |w0| == |w| == |z| && ColumnsBelow(row, |z|) && RowKnown(f, c, w0, j, row)
    requires forall i :: 0 <= i < |w| && KnownBefore(f, c, w0, j, i) ==> w[i].Some? && Same(f, w[i].value, z[i])
    ensures Evaluate(row, w).Some? && Same(f, Evaluate(row, w).value, SparseDot(row, z))
  {
    if row != [] {
      var (column, coefficient) := row[0];
      EvaluateKnown(f, c, w0, w, j, row[1..], z);
      assert KnownBefore(f, c, w0, j, column);
      SameMul(f, w[column].value, z[column], coefficient, coefficient);
      assert coefficient * z[column] == z[column] * coefficient;
      SameAdd(f, w[column].value * coefficient, z[column] * coefficient, Evaluate(row[1..], w).value,
              SparseDot(row[1..], z));
    }
  }

  // Emission order.

  /** What the builder's `multiply` leaves: product variables are allocated in
      the order of their constraints, each after its operands. */
  ghost predicate BuilderOrder(f: Field, a: seq<SparseRow>, b: seq<SparseRow>, c: seq<SparseRow>, n: nat)
    requires |a| == |b| == |c|
  {
    && (forall j, k :: 0 <= j < k < |c| && Defines(f, c, j, n) && Defines(f, c, k, n) ==> Target(c, j) < Target(c, k))
    && (forall k :: 0 <= k < |c| && Defines(f, c, k, n) ==>
         ColumnsBelow(a[k], Target(c, k)) && ColumnsBelow(b[k], Target(c, k)))
  }

  /** A row whose columns are all given or defined by some product. */
  ghost predicate GivenOrDefined(f: Field, c: seq<SparseRow>, w: PartialWitness, row: SparseRow) {
    forall i :: 0 <= i < |row| ==> KnownBefore(f, c, w, |c|, row[i].0)
  }

  /** In emission order the pass never fails. */
  lemma EmissionOrderSolvable(f: Field, a: seq<SparseRow>, b: seq<SparseRow>, c: seq<SparseRow>, w: PartialWitness)
    requires |a| == |b| == |c| && BuilderOrder(f, a, b, c, |w|)
    requires forall k :: 0 <= k < |c| && Defines(f, c, k, |w|) ==>
      GivenOrDefined(f, c, w, a[k]) && GivenOrDefined(f, c, w, b[k])
    ensures OperandsFirst(f, a, b, c, w, |c|)
  {
    forall k | 0 <= k < |c| && Solves(f, c, w, k) ensures RowKnown(f, c, w, k, a[k]) && RowKnown(f, c, w, k, b[k]) {
      EarlierOperands(f, a, b, c, w, k, a[k]);
      EarlierOperands(f, a, b, c, w, k, b[k]);
    }
  }

  lemma EarlierOperands(f: Field, a: seq<SparseRow>, b: seq<SparseRow>, c: seq<SparseRow>, w: PartialWitness, k: nat,
                        row: SparseRow)
    requires |a| == |b| == |c| && BuilderOrder(f, a, b, c, |w|) && k < |c| && Defines(f, c, k, |w|)
    requires ColumnsBelow(row, Target(c, k)) && GivenOrDefined(f, c, w, row)
    ensures RowKnown(f, c, w, k, row)
  {
    forall i | 0 <= i < |row| ensures KnownBefore(f, c, w, k, row[i].0) {
      if w[row[i].0].None? {
        var j :| 0 <= j < |c| && Defines(f, c, j, |w|) && Target(c, j) == row[i].0;
        assert j < k;
      }
    }
  }

  // Slicing the witness into rows.

  /** Cut or zero-extended to `len` entries. */
  function Resized(row: seq<int>, len: nat): (r: seq<int>)
    ensures |r| == len
  {
    seq(len, e requires 0 <= e < len => At(row, e))
  }

  /** Row `i` of the grid over the flat witness. */
  function RowOf(flat: seq<int>, len: nat, i: nat): (r: seq<int>)
    ensures |r| == len
  {
    seq(len, e requires 0 <= e < len => At(flat, i * len + e))
  }

  ghost predicate RowsSoFar(rows: seq<seq<int>>, flat: seq<int>, len: nat) {
    forall i :: 0 <= i < |rows| ==> rows[i] == RowOf(flat, len, i)
  }

  lemma RowsAreChunks(rows: seq<seq<int>>, flat: seq<int>, len: nat)
    requires RowsSoFar(rows, flat, len)
    ensures rows == Chunks(flat, len, |rows|)
  {
    forall i | 0 <= i < |rows| ensures rows[i] == Chunks(flat, len, |rows|)[i] {
      assert rows[i] == RowOf(flat, len, i);
    }
  }

  /** The entries at and past `start`, cut to one row. */
  lemma CutRow(flat: seq<int>, len: nat, i: nat, rest: seq<int>, m: nat)
    requires i * len <= |flat| && rest == flat[i * len..] && m == (if |rest| < len then |rest| else len)
    ensures Resized(rest[..m], len) == RowOf(flat, len, i)
  {
    forall e | 0 <= e < len ensures Resized(rest[..m], len)[e] == RowOf(flat, len, i)[e] {
    }
  }

  lemma PastEnd(flat: seq<int>, len: nat, i: nat)
    requires |flat| <= i * len
    ensures Zeros(len) == RowOf(flat, len, i)
  {
    forall e | 0 <= e < len ensures RowOf(flat, len, i)[e] == 0 {
      assert RowOf(flat, len, i)[e] == At(flat, i * len + e);
    }
  }

  lemma WholeRow(all: seq<int>, len: nat, i: nat)
    requires 0 < |all| && 1 + i * len + len <= |all|
    ensures all[1 + i * len..1 + i * len + len] == RowOf(all[1..], len, i)
  {
    forall e | 0 <= e < len ensures RowOf(all[1..], len, i)[e] == all[1 + i * len + e] {
      assert RowOf(all[1..], len, i)[e] == At(all[1..], i * len + e);
    }
  }

  /** `slice_rows`: coefficient rows from the witness, the retained output-claim
      rows, the auxiliary values row by row, and zero rows up to the grid. */
  method SliceRows(witness_: seq<int>, len: nat, coefficientRows: nat, claimRows: seq<seq<int>>, rowCount: nat)
    returns (rows: seq<seq<int>>)
    requires 0 < len && 0 < |witness_| && (coefficientRows + |claimRows|) * len <= |witness_| - 1 <= rowCount * len
    requires forall q :: 0 <= q < |claimRows| ==>
      Resized(claimRows[q], len) == RowOf(witness_[1..], len, coefficientRows + q)
    ensures rows == Chunks(witness_[1..], len, rowCount)
  {
    hide RowOf, Resized, Chunks;
    ghost var flat := witness_[1..];
    rows := [];
    for i := 0 to coefficientRows
      invariant |rows| == i && RowsSoFar(rows, flat, len)
    {
      RowFits(i, coefficientRows + |claimRows|, len);
      WholeRow(witness_, len, i);
      rows := rows + [witness_[1 + i * len..1 + i * len + len]];
    }
    for q := 0 to |claimRows|
      invariant |rows| == coefficientRows + q && RowsSoFar(rows, flat, len)
    {
      rows := rows + [Resized(claimRows[q], len)];
    }
    var used := (coefficientRows + |claimRows|) * len;
    assert witness_[1 + used..] == flat[used..];
    rows := CutRest(rows, flat, len, rowCount, witness_[1 + used..]);
    rows := PadRowsTo(rows, flat, len, rowCount);
  }

  /** The auxiliary values, one row at a time. */
  method CutRest(done: seq<seq<int>>, ghost flat: seq<int>, len: nat, ghost rowCount: nat, values: seq<int>)
    returns (rows: seq<seq<int>>)
    requires 0 < len && RowsSoFar(done, flat, len) && |done| * len <= |flat| <= rowCount * len
    requires values == flat[|done| * len..]
    ensures |rows| <= rowCount && RowsSoFar(rows, flat, len) && |flat| <= |rows| * len
  {
    hide RowOf, Resized, RowsSoFar;
    RowsFit(|done|, rowCount, len);
    rows := done;
    var rest := values;
    while rest != []
      invariant |rows| <= rowCount && RowsSoFar(rows, flat, len) && Left(rest, flat, |rows|, len)
      decreases |rest|
    {
      var m := if |rest| < len then |rest| else len;
      RowsCut(rows, flat, len, rowCount, rest, m);
      rows := rows + [Resized(rest[..m], len)];
      rest := rest[m..];
    }
  }

  /** What is left after `n` rows. */
  ghost predicate Left(rest: seq<int>, flat: seq<int>, n: nat, len: nat) {
    if rest == [] then |flat| <= n * len else n * len <= |flat| && rest == flat[n * len..]
  }

  lemma RowsCut(rows: seq<seq<int>>, flat: seq<int>, len: nat, rowCount: nat, rest: seq<int>, m: nat)
    requires 0 < len && rest != [] && m == (if |rest| < len then |rest| else len) && |flat| <= rowCount * len
    requires |rows| <= rowCount && RowsSoFar(rows, flat, len) && Left(rest, flat, |rows|, len)
    ensures |rows| + 1 <= rowCount && RowsSoFar(rows + [Resized(rest[..m], len)], flat, len)
    ensures Left(rest[m..], flat, |rows| + 1, len)
  {
    CutRow(flat, len, |rows|, rest, m);
    NextRow(|rows|, len);
    RowsFit(|rows| + 1, rowCount, len);
  }

  /** `rows.resize`: zero rows up to the grid. */
  method PadRowsTo(rows: seq<seq<int>>, ghost flat: seq<int>, len: nat, rowCount: nat) returns (all: seq<seq<int>>)
    requires |rows| <= rowCount && RowsSoFar(rows, flat, len) && |flat| <= |rows| * len
    ensures all == Chunks(flat, len, rowCount)
  {
    all := rows;
    while |all| < rowCount
      invariant |all| <= rowCount && RowsSoFar(all, flat, len) && |flat| <= |all| * len
      decreases rowCount - |all|
    {
      PastEnd(flat, len, |all|);
      NextRow(|all|, len);
      all := all + [Zeros(len)];
    }
    RowsAreChunks(all, flat, len);
  }

  lemma NextRow(i: nat, len: nat)
    ensures (i + 1) * len == i * len + len
  {
  }

  lemma RowFits(i: nat, n: nat, len: nat)
    requires i < n
    ensures i * len + len <= n * len
  {
    assert (n - 1 - i) * len >= 0;
    assert n * len == (n - 1 - i) * len + i * len + len;
  }

  lemma RowsFit(i: nat, n: nat, len: nat)
    ensures i <= n || n * len + len <= i * len
  {
    if n < i {
      RowFits(n, i, len);
    }
  }

  /** The grid flattens back to the witness without its constant, zeros after it. */
  lemma SlicesFlattenBack(witness_: seq<int>, len: nat, rowCount: nat)
    requires 0 < |witness_| && |witness_| - 1 <= rowCount * len
    ensures Flatten(Chunks(witness_[1..], len, rowCount)) == witness_[1..] + Zeros(rowCount * len - (|witness_| - 1))
  {
    FlattenOfChunks(witness_[1..], len, rowCount);
  }
}
