/** What the transcript holds: two logs are equal exactly when the values
    absorbed into them are equal in the field, so every challenge depends on all
    that was absorbed before it. */
module Absorption {
  import opened Results
  import opened Fields
  import opened Vectors
  import opened Multilinear
  import opened R1cs
  import opened RowCommitment
  import opened Transcripts
  import opened Sumcheck
  import opened Protocol
  import opened Verifier

  // Labelled lists, each followed by anything.

  lemma CutBoth<T>(x: seq<T>, a: seq<T>, y: seq<T>, b: seq<T>)
    requires |x| == |y|
    ensures x + a == y + b <==> x == y && a == b
  {
    if x + a == y + b {
      assert x == (x + a)[..|x|] && y == (y + b)[..|y|] && a == (x + a)[|x|..] && b == (y + b)[|y|..];
    }
  }

  /** The count in the label tells where the list ends. */
  lemma ScalarsTell(f: Field, name: string, xs: seq<int>, ys: seq<int>, a: seq<Item>, b: seq<Item>)
    ensures ScalarItems(f, name, xs) + a == ScalarItems(f, name, ys) + b <==> SameVec(f, xs, ys) && a == b
  {
    var x, y := ScalarItems(f, name, xs), ScalarItems(f, name, ys);
    if x + a == y + b {
      assert x[0] == (x + a)[0] == (y + b)[0] == y[0];
      CutBoth(x, a, y, b);
      forall i | 0 <= i < |xs| ensures Same(f, xs[i], ys[i]) {
        assert x[i + 1] == y[i + 1];
      }
    }
    if SameVec(f, xs, ys) && a == b {
      assert x == y;
    }
  }

  lemma ElementsTell(f: Field, name: string, xs: seq<int>, ys: seq<int>, a: seq<Item>, b: seq<Item>)
    ensures ElementItems(f, name, xs) + a == ElementItems(f, name, ys) + b <==> SameVec(f, xs, ys) && a == b
  {
    var x, y := ElementItems(f, name, xs), ElementItems(f, name, ys);
    if x + a == y + b {
      assert x[0] == (x + a)[0] == (y + b)[0] == y[0];
      CutBoth(x, a, y, b);
      forall i | 0 <= i < |xs| ensures Same(f, xs[i], ys[i]) {
        assert x[i + 1] == y[i + 1];
      }
    }
    if SameVec(f, xs, ys) && a == b {
      assert x == y;
    }
  }

  /** A label and a scalar. */
  lemma ScalarTells(f: Field, name: string, x: int, y: int, a: seq<Item>, b: seq<Item>)
    ensures [Label(name), Scalar(f.red(x))] + a == [Label(name), Scalar(f.red(y))] + b <==> Same(f, x, y) && a == b
  {
    var u, v := [Label(name), Scalar(f.red(x))], [Label(name), Scalar(f.red(y))];
    CutBoth(u, a, v, b);
    assert u == v <==> u[1] == v[1];
  }

  ghost predicate SameOpening(f: Field, x: Opening, y: Opening) {
    SameVec(f, x.combinedVector, y.combinedVector) && Same(f, x.combinedBlinding, y.combinedBlinding)
  }

  lemma OpeningTells(f: Field, rowName: string, blindingName: string, x: Opening, y: Opening, a: seq<Item>,
                     b: seq<Item>)
    ensures OpeningItems(f, rowName, blindingName, x) + a == OpeningItems(f, rowName, blindingName, y) + b
       <==> SameOpening(f, x, y) && a == b
  {
    hide ScalarItems;
    var p, q := [Label(blindingName), Scalar(f.red(x.combinedBlinding))],
                [Label(blindingName), Scalar(f.red(y.combinedBlinding))];
    Associative(ScalarItems(f, rowName, x.combinedVector), p, a);
    Associative(ScalarItems(f, rowName, y.combinedVector), q, b);
    ScalarsTell(f, rowName, x.combinedVector, y.combinedVector, p + a, q + b);
    ScalarTells(f, blindingName, x.combinedBlinding, y.combinedBlinding, a, b);
  }

  // The folding challenge.

  ghost predicate SameInstance(f: Field, x: RelaxedInstance, y: RelaxedInstance) {
    Same(f, x.u, y.u) && SameVec(f, x.rows, y.rows) && SameVec(f, x.errors, y.errors) && SameVec(f, x.evals, y.evals)
  }

  lemma InstanceTells(f: Field, uName: string, rowName: string, errorName: string, evalName: string,
                      x: RelaxedInstance, y: RelaxedInstance, a: seq<Item>, b: seq<Item>)
    ensures InstanceItems(f, uName, rowName, errorName, evalName, x) + a
         == InstanceItems(f, uName, rowName, errorName, evalName, y) + b
       <==> SameInstance(f, x, y) && a == b
  {
    hide ScalarItems, ElementItems;
    var x3, y3 := ElementItems(f, evalName, x.evals) + a, ElementItems(f, evalName, y.evals) + b;
    var x2, y2 := ElementItems(f, errorName, x.errors) + x3, ElementItems(f, errorName, y.errors) + y3;
    var x1, y1 := ElementItems(f, rowName, x.rows) + x2, ElementItems(f, rowName, y.rows) + y2;
    InstanceNested(f, uName, rowName, errorName, evalName, x, a);
    InstanceNested(f, uName, rowName, errorName, evalName, y, b);
    ScalarTells(f, uName, x.u, y.u, x1, y1);
    ElementsTell(f, rowName, x.rows, y.rows, x2, y2);
    ElementsTell(f, errorName, x.errors, y.errors, x3, y3);
    ElementsTell(f, evalName, x.evals, y.evals, a, b);
  }

  lemma InstanceNested(f: Field, uName: string, rowName: string, errorName: string, evalName: string,
                       x: RelaxedInstance, a: seq<Item>)
    ensures InstanceItems(f, uName, rowName, errorName, evalName, x) + a
         == [Label(uName), Scalar(f.red(x.u))]
            + (ElementItems(f, rowName, x.rows)
               + (ElementItems(f, errorName, x.errors) + (ElementItems(f, evalName, x.evals) + a)))
  {
    hide ElementItems;
    Nested([Label(uName), Scalar(f.red(x.u))], ElementItems(f, rowName, x.rows), ElementItems(f, errorName, x.errors),
           ElementItems(f, evalName, x.evals), a);
  }

  lemma Nested<T>(a: seq<T>, b: seq<T>, c: seq<T>, d: seq<T>, e: seq<T>)
    ensures a + b + c + d + e == a + (b + (c + (d + e)))
  {
  }

  /** The commitments agree in the field, part by part. */
  ghost predicate SameCommitments(f: Field, x: Commitments, y: Commitments) {
    && SameVec(f, x.auxiliary, y.auxiliary) && SameVec(f, x.randomRounds, y.randomRounds)
    && SameVec(f, x.randomOutputClaims, y.randomOutputClaims) && SameVec(f, x.randomAuxiliary, y.randomAuxiliary)
    && SameVec(f, x.randomErrors, y.randomErrors) && SameVec(f, x.randomEvals, y.randomEvals)
    && Same(f, x.randomU, y.randomU) && SameVec(f, x.crossErrors, y.crossErrors)
  }

  lemma SameParts(f: Field, a: seq<int>, b: seq<int>, x: seq<int>, y: seq<int>)
    requires |a| == |x|
    ensures SameVec(f, a + b, x + y) <==> SameVec(f, a, x) && SameVec(f, b, y)
  {
    if SameVec(f, a + b, x + y) {
      forall i | 0 <= i < |a| ensures Same(f, a[i], x[i]) {
        assert (a + b)[i] == a[i] && (x + y)[i] == x[i];
      }
      forall i | 0 <= i < |b| ensures Same(f, b[i], y[i]) {
        assert (a + b)[|a| + i] == b[i] && (x + y)[|a| + i] == y[i];
      }
    }
  }

  lemma SamePadded(f: Field, a: seq<int>, x: seq<int>, target: nat)
    requires |a| == |x| && PadRows(a, target).Ok? && PadRows(x, target).Ok?
    ensures |PadRows(a, target).value| == |PadRows(x, target).value|
    ensures SameVec(f, PadRows(a, target).value, PadRows(x, target).value) <==> SameVec(f, a, x)
  {
    SameParts(f, a, Zeros(target - |a|), x, Zeros(target - |x|));
  }

  /** Nothing of the assembled rows is lost. */
  lemma SameAssembled(f: Field, d: Dimensions, a: seq<int>, b: seq<int>, c: seq<int>, x: seq<int>, y: seq<int>,
                      z: seq<int>)
    requires |a| == |x| && |b| == |y| && |c| == |z| && AssembleRows(d, a, b, c).Ok? && AssembleRows(d, x, y, z).Ok?
    ensures SameVec(f, AssembleRows(d, a, b, c).value, AssembleRows(d, x, y, z).value)
       <==> SameVec(f, a, x) && SameVec(f, b, y) && SameVec(f, c, z)
  {
    hide SameVec;
    var a1, x1 := PadRows(a, d.rows.coefficients.end).value, PadRows(x, d.rows.coefficients.end).value;
    var a2, x2 := PadRows(a1 + b, d.rows.outputClaims.end).value, PadRows(x1 + y, d.rows.outputClaims.end).value;
    var a3, x3 := PadRows(a2 + c, d.rows.auxiliary.end).value, PadRows(x2 + z, d.rows.auxiliary.end).value;
    SamePadded(f, a, x, d.rows.coefficients.end);
    SameParts(f, a1, b, x1, y);
    SamePadded(f, a1 + b, x1 + y, d.rows.outputClaims.end);
    SameParts(f, a2, c, x2, z);
    SamePadded(f, a2 + c, x2 + z, d.rows.auxiliary.end);
    SamePadded(f, a3, x3, d.grid.rowCount);
  }

  lemma SameItself(f: Field, xs: seq<int>)
    ensures SameVec(f, xs, xs)
  {
  }

  lemma InstancesTell(f: Field, p: BlindFoldProtocol, x: Commitments, y: Commitments)
    requires InstancesAssemble(p, x) && InstancesAssemble(p, y)
    ensures SameInstance(f, CommittedInstance(p, x.auxiliary).value, CommittedInstance(p, y.auxiliary).value)
       <==> SameVec(f, x.auxiliary, y.auxiliary)
    ensures SameInstance(f, RandomInstance(p, x).value, RandomInstance(p, y).value) <==>
      && SameVec(f, x.randomRounds, y.randomRounds) && SameVec(f, x.randomOutputClaims, y.randomOutputClaims)
      && SameVec(f, x.randomAuxiliary, y.randomAuxiliary) && SameVec(f, x.randomErrors, y.randomErrors)
      && SameVec(f, x.randomEvals, y.randomEvals) && Same(f, x.randomU, y.randomU)
  {
    hide AssembleRows, SameVec;
    var d := p.dimensions;
    SameAssembled(f, d, p.roundCommitments, p.outputClaimCommitments, x.auxiliary, p.roundCommitments,
                  p.outputClaimCommitments, y.auxiliary);
    SameAssembled(f, d, x.randomRounds, x.randomOutputClaims, x.randomAuxiliary, y.randomRounds,
                  y.randomOutputClaims, y.randomAuxiliary);
    SameItself(f, p.roundCommitments);
    SameItself(f, p.outputClaimCommitments);
    SameItself(f, Zeros(d.error.rowCount));
    SameItself(f, p.evalCommitments);
  }

  /** The folding challenge is drawn after every commitment of the proof: the
      transcripts it is drawn from are equal exactly when all of them are. */
  lemma FoldLogTells(f: Field, p: BlindFoldProtocol, x: Commitments, y: Commitments, log: seq<Item>, a: seq<Item>,
                     b: seq<Item>)
    requires InstancesAssemble(p, x) && InstancesAssemble(p, y)
    ensures FoldLog(f, p, x, log) + a == FoldLog(f, p, y, log) + b <==> SameCommitments(f, x, y) && a == b
  {
    hide InstanceItems, ElementItems, SameInstance, SameVec;
    var cx, cy := CommittedInstance(p, x.auxiliary).value, CommittedInstance(p, y.auxiliary).value;
    var rx, ry := RandomInstance(p, x).value, RandomInstance(p, y).value;
    var x3, y3 := ElementItems(f, "bf_cross_e", x.crossErrors) + a, ElementItems(f, "bf_cross_e", y.crossErrors) + b;
    var x2 := InstanceItems(f, "bf_random_u", "bf_random_w", "bf_random_e", "bf_random_eval", rx) + x3;
    var y2 := InstanceItems(f, "bf_random_u", "bf_random_w", "bf_random_e", "bf_random_eval", ry) + y3;
    var x1 := InstanceItems(f, "bf_committed_u", "bf_committed_w", "bf_committed_e", "bf_committed_eval", cx) + x2;
    var y1 := InstanceItems(f, "bf_committed_u", "bf_committed_w", "bf_committed_e", "bf_committed_eval", cy) + y2;
    FoldNested(f, p, x, log, a);
    FoldNested(f, p, y, log, b);
    CutBoth(log, x1, log, y1);
    InstanceTells(f, "bf_committed_u", "bf_committed_w", "bf_committed_e", "bf_committed_eval", cx, cy, x2, y2);
    InstanceTells(f, "bf_random_u", "bf_random_w", "bf_random_e", "bf_random_eval", rx, ry, x3, y3);
    ElementsTell(f, "bf_cross_e", x.crossErrors, y.crossErrors, a, b);
    InstancesTell(f, p, x, y);
  }

  lemma FoldNested(f: Field, p: BlindFoldProtocol, x: Commitments, log: seq<Item>, a: seq<Item>)
    requires InstancesAssemble(p, x)
    ensures FoldLog(f, p, x, log) + a == log
      + (InstanceItems(f, "bf_committed_u", "bf_committed_w", "bf_committed_e", "bf_committed_eval",
                       CommittedInstance(p, x.auxiliary).value)
         + (InstanceItems(f, "bf_random_u", "bf_random_w", "bf_random_e", "bf_random_eval", RandomInstance(p, x).value)
            + (ElementItems(f, "bf_cross_e", x.crossErrors) + a)))
  {
    hide InstanceItems, ElementItems;
    Nested(log,
           InstanceItems(f, "bf_committed_u", "bf_committed_w", "bf_committed_e", "bf_committed_eval",
                         CommittedInstance(p, x.auxiliary).value),
           InstanceItems(f, "bf_random_u", "bf_random_w", "bf_random_e", "bf_random_eval", RandomInstance(p, x).value),
           ElementItems(f, "bf_cross_e", x.crossErrors), a);
  }

  // Slots.

  ghost predicate SameOpenings(f: Field, xs: seq<Opening>, ys: seq<Opening>) {
    |xs| == |ys| && forall i :: 0 <= i < |xs| ==> SameOpening(f, xs[i], ys[i])
  }

  lemma SameOpeningsTail(f: Field, xs: seq<Opening>, ys: seq<Opening>)
    requires xs != [] && ys != []
    ensures SameOpenings(f, xs, ys) <==> SameOpening(f, xs[0], ys[0]) && SameOpenings(f, xs[1..], ys[1..])
  {
    if SameOpening(f, xs[0], ys[0]) && SameOpenings(f, xs[1..], ys[1..]) {
      forall i | 0 <= i < |xs| ensures SameOpening(f, xs[i], ys[i]) {
        if i > 0 {
          assert xs[i] == xs[1..][i - 1] && ys[i] == ys[1..][i - 1];
        }
      }
    }
  }

  lemma {:induction false} SlotsTell(f: Field, slots: seq<Slot>, xs: seq<Opening>, ys: seq<Opening>, a: seq<Item>,
                                     b: seq<Item>)
    requires |slots| == |xs| == |ys|
    ensures InSlotOrder(f, slots, xs) + a == InSlotOrder(f, slots, ys) + b <==> SameOpenings(f, xs, ys) && a == b
  {
    if slots == [] {
      assert [] + a == a && [] + b == b;
    } else {
      var kind, tx, ty := slots[0].kind, InSlotOrder(f, slots[1..], xs[1..]), InSlotOrder(f, slots[1..], ys[1..]);
      Associative(SlotItems(f, kind, xs[0]), tx, a);
      Associative(SlotItems(f, kind, ys[0]), ty, b);
      SlotTells(f, kind, xs[0], ys[0], tx + a, ty + b);
      SlotsTell(f, slots[1..], xs[1..], ys[1..], a, b);
      SameOpeningsTail(f, xs, ys);
    }
  }

  lemma SlotTells(f: Field, kind: Kind, x: Opening, y: Opening, a: seq<Item>, b: seq<Item>)
    ensures SlotItems(f, kind, x) + a == SlotItems(f, kind, y) + b <==> SameOpening(f, x, y) && a == b
  {
    hide OpeningItems, SameOpening;
    if kind == Output {
      OpeningTells(f, "bf_eval_out_open", "bf_eval_out_blind", x, y, a, b);
    } else {
      OpeningTells(f, "bf_eval_blind_open", "bf_eval_blind_bl", x, y, a, b);
    }
  }

  lemma {:induction false} AlignedTell(f: Field, slots: seq<Slot>, xo: seq<Opening>, xb: seq<Opening>,
                                       yo: seq<Opening>, yb: seq<Opening>)
    requires Count(slots, Output) == |xo| == |yo| && Count(slots, Blinding) == |xb| == |yb|
    ensures SameOpenings(f, Aligned(slots, xo, xb), Aligned(slots, yo, yb))
       <==> SameOpenings(f, xo, yo) && SameOpenings(f, xb, yb)
  {
    hide SameOpening;
    if slots != [] {
      var ax, ay := Aligned(slots, xo, xb), Aligned(slots, yo, yb);
      SameOpeningsTail(f, ax, ay);
      if slots[0].kind == Output {
        AlignedTell(f, slots[1..], xo[1..], xb, yo[1..], yb);
        SameOpeningsTail(f, xo, yo);
        assert ax[1..] == Aligned(slots[1..], xo[1..], xb) && ay[1..] == Aligned(slots[1..], yo[1..], yb);
      } else {
        AlignedTell(f, slots[1..], xo, xb[1..], yo, yb[1..]);
        SameOpeningsTail(f, xb, yb);
        assert ax[1..] == Aligned(slots[1..], xo, xb[1..]) && ay[1..] == Aligned(slots[1..], yo, yb[1..]);
      }
    }
  }

  // Rounds.

  /** What a list of rounds leaves in the transcript. */
  function RoundItems(f: Field, name: string, rounds: seq<seq<int>>): seq<Item> {
    if rounds == [] then [] else ScalarItems(f, name, rounds[0]) + ([Squeeze] + RoundItems(f, name, rounds[1..]))
  }

  lemma {:induction false} RoundItemsSnoc(f: Field, name: string, rounds: seq<seq<int>>, next: seq<int>)
    ensures RoundItems(f, name, rounds + [next])
         == RoundItems(f, name, rounds) + ScalarItems(f, name, next) + [Squeeze]
  {
    hide ScalarItems;
    var all := rounds + [next];
    if rounds == [] {
      assert all == [next] && all[1..] == [];
      assert RoundItems(f, name, all[1..]) == [];
    } else {
      assert all[1..] == rounds[1..] + [next];
      RoundItemsSnoc(f, name, rounds[1..], next);
    }
  }

  /** The log of a replay does not depend on the claim or the answers. */
  lemma {:induction false} ReplayLog(f: Field, oracle: Oracle, name: string, rounds: seq<seq<int>>, claim: int,
                                     log: seq<Item>)
    requires NonemptyRounds(rounds)
    ensures ReplayRounds(f, oracle, name, rounds, claim, log).log == log + RoundItems(f, name, rounds)
  {
    hide ScalarItems;
    if rounds != [] {
      var n := |rounds| - 1;
      ReplayLog(f, oracle, name, rounds[..n], claim, log);
      RoundItemsSnoc(f, name, rounds[..n], rounds[n]);
      assert rounds[..n] + [rounds[n]] == rounds;
    }
  }

  ghost predicate SameRounds(f: Field, xs: seq<seq<int>>, ys: seq<seq<int>>) {
    |xs| == |ys| && forall i :: 0 <= i < |xs| ==> SameVec(f, xs[i], ys[i])
  }

  lemma {:induction false} RoundsTell(f: Field, name: string, xs: seq<seq<int>>, ys: seq<seq<int>>, a: seq<Item>,
                                      b: seq<Item>)
    requires |xs| == |ys|
    ensures RoundItems(f, name, xs) + a == RoundItems(f, name, ys) + b <==> SameRounds(f, xs, ys) && a == b
  {
    hide ScalarItems, SameVec;
    if xs == [] {
      assert [] + a == a && [] + b == b;
    } else {
      var tx, ty := RoundItems(f, name, xs[1..]), RoundItems(f, name, ys[1..]);
      Threefold(ScalarItems(f, name, xs[0]), [Squeeze], tx, a);
      Threefold(ScalarItems(f, name, ys[0]), [Squeeze], ty, b);
      ScalarsTell(f, name, xs[0], ys[0], [Squeeze] + (tx + a), [Squeeze] + (ty + b));
      CutBoth([Squeeze], tx + a, [Squeeze], ty + b);
      RoundsTell(f, name, xs[1..], ys[1..], a, b);
      SameRoundsTail(f, xs, ys);
    }
  }

  lemma Threefold<T>(a: seq<T>, b: seq<T>, c: seq<T>, d: seq<T>)
    ensures a + (b + c) + d == a + (b + (c + d))
  {
  }

  lemma SameRoundsTail(f: Field, xs: seq<seq<int>>, ys: seq<seq<int>>)
    requires xs != [] && ys != []
    ensures SameRounds(f, xs, ys) <==> SameVec(f, xs[0], ys[0]) && SameRounds(f, xs[1..], ys[1..])
  {
    if SameVec(f, xs[0], ys[0]) && SameRounds(f, xs[1..], ys[1..]) {
      forall i | 0 <= i < |xs| ensures SameVec(f, xs[i], ys[i]) {
        if i > 0 {
          assert xs[i] == xs[1..][i - 1] && ys[i] == ys[1..][i - 1];
        }
      }
    }
  }

  /** What round `k`'s challenge is drawn from: everything up to and including round `k`. */
  function Absorbed(f: Field, name: string, rounds: seq<seq<int>>, k: nat, log: seq<Item>): seq<Item>
    requires k < |rounds|
  {
    log + RoundItems(f, name, rounds[..k]) + ScalarItems(f, name, rounds[k])
  }

  lemma {:induction false} PointAt(f: Field, oracle: Oracle, name: string, rounds: seq<seq<int>>, claim: int,
                                   log: seq<Item>, k: nat)
    requires NonemptyRounds(rounds) && k < |rounds|
    ensures ReplayRounds(f, oracle, name, rounds, claim, log).point[k] == oracle(Absorbed(f, name, rounds, k, log))
  {
    hide ScalarItems, RoundItems;
    var n := |rounds| - 1;
    if k < n {
      PointAt(f, oracle, name, rounds[..n], claim, log, k);
      assert rounds[..n][..k] == rounds[..k];
    } else {
      ReplayLog(f, oracle, name, rounds[..n], claim, log);
    }
  }

  lemma AbsorbedTells(f: Field, name: string, xs: seq<seq<int>>, ys: seq<seq<int>>, k: nat, log: seq<Item>)
    requires |xs| == |ys| && k < |xs|
    ensures Absorbed(f, name, xs, k, log) == Absorbed(f, name, ys, k, log) <==> SameRounds(f, xs[..k + 1], ys[..k + 1])
  {
    hide ScalarItems, SameVec;
    var a, b := ScalarItems(f, name, xs[k]), ScalarItems(f, name, ys[k]);
    Associative(log, RoundItems(f, name, xs[..k]), a);
    Associative(log, RoundItems(f, name, ys[..k]), b);
    CutBoth(log, RoundItems(f, name, xs[..k]) + a, log, RoundItems(f, name, ys[..k]) + b);
    RoundsTell(f, name, xs[..k], ys[..k], a, b);
    ScalarsTell(f, name, xs[k], ys[k], [], []);
    assert a + [] == a && b + [] == b;
    SameRoundsSnoc(f, xs, ys, k);
  }

  lemma SameRoundsSnoc(f: Field, xs: seq<seq<int>>, ys: seq<seq<int>>, k: nat)
    requires |xs| == |ys| && k < |xs|
    ensures SameRounds(f, xs[..k + 1], ys[..k + 1]) <==> SameRounds(f, xs[..k], ys[..k]) && SameVec(f, xs[k], ys[k])
  {
    hide SameVec;
    var xn, yn := xs[..k + 1], ys[..k + 1];
    if SameRounds(f, xn, yn) {
      assert xn[k] == xs[k] && yn[k] == ys[k];
      forall i | 0 <= i < k ensures SameVec(f, xs[..k][i], ys[..k][i]) {
        assert xn[i] == xs[..k][i] && yn[i] == ys[..k][i];
      }
    }
    if SameRounds(f, xs[..k], ys[..k]) && SameVec(f, xs[k], ys[k]) {
      forall i | 0 <= i < |xn| ensures SameVec(f, xn[i], yn[i]) {
        if i < k {
          assert xn[i] == xs[..k][i] && yn[i] == ys[..k][i];
        }
      }
    }
  }

  /** Round `k`'s challenge is the same under every challenge function exactly
      when the rounds up to and including `k` are the same. */
  lemma ChallengeTells(f: Field, name: string, xs: seq<seq<int>>, ys: seq<seq<int>>, claim: int, log: seq<Item>,
                       k: nat)
    requires NonemptyRounds(xs) && NonemptyRounds(ys) && |xs| == |ys| && k < |xs|
    ensures (forall oracle: Oracle :: ReplayRounds(f, oracle, name, xs, claim, log).point[k]
                                   == ReplayRounds(f, oracle, name, ys, claim, log).point[k])
       <==> SameRounds(f, xs[..k + 1], ys[..k + 1])
  {
    hide Absorbed, SameRounds, ReplayRounds;
    AbsorbedTells(f, name, xs, ys, k, log);
    var a, b := Absorbed(f, name, xs, k, log), Absorbed(f, name, ys, k, log);
    if a == b {
      forall oracle: Oracle ensures ReplayRounds(f, oracle, name, xs, claim, log).point[k]
                                 == ReplayRounds(f, oracle, name, ys, claim, log).point[k]
      {
        PointAt(f, oracle, name, xs, claim, log, k);
        PointAt(f, oracle, name, ys, claim, log, k);
      }
    } else {
      var telling: Oracle := items => if items == a then 1 else 0;
      PointAt(f, telling, name, xs, claim, log, k);
      PointAt(f, telling, name, ys, claim, log, k);
      assert ReplayRounds(f, telling, name, xs, claim, log).point[k]
          != ReplayRounds(f, telling, name, ys, claim, log).point[k];
    }
  }

  // Vectors of challenges.

  lemma {:induction false} SqueezedIs(log: seq<Item>, n: nat)
    ensures Squeezed(log, n) == log + seq(n, _ => Squeeze)
  {
    if n > 0 {
      SqueezedIs(log, n - 1);
    }
  }

  /** Challenges drawn in a row are independent: some challenge function gives any vector. */
  lemma {:induction false} ChallengesFree(log: seq<Item>, v: seq<int>)
    ensures exists oracle: Oracle :: Challenges(oracle, log, |v|) == v
  {
    var answer: Oracle := items => if |log| <= |items| < |log| + |v| then v[|items| - |log|] else 0;
    ChallengesAnswered(answer, log, v, |v|);
    assert v[..|v|] == v;
  }

  lemma {:induction false} ChallengesAnswered(oracle: Oracle, log: seq<Item>, v: seq<int>, n: nat)
    requires n <= |v|
    requires forall items: seq<Item> :: |log| <= |items| < |log| + |v| ==> oracle(items) == v[|items| - |log|]
    ensures Challenges(oracle, log, n) == v[..n]
  {
    if n > 0 {
      ChallengesAnswered(oracle, log, v, n - 1);
      SqueezedIs(log, n - 1);
      assert v[..n] == v[..n - 1] + [v[n - 1]];
    }
  }

  // The whole transcript.

  /** The verifier's transcript, spelled out. */
  function WholeLog(f: Field, p: BlindFoldProtocol, slots: seq<Slot>, proof: Proof, log: seq<Item>): seq<Item>
    requires InstancesAssemble(p, proof.commitments)
    requires Count(slots, Output) == |proof.outputOpenings| && Count(slots, Blinding) == |proof.blindingOpenings|
  {
    FoldLog(f, p, proof.commitments, log)
    + ([Squeeze]
       + (InSlotOrder(f, slots, Aligned(slots, proof.outputOpenings, proof.blindingOpenings))
          + ([Label("bf_spartan")] + Squeezes(GridVars(p.dimensions.error))
             + (RoundItems(f, OUTER_LABEL, proof.outerRounds)
                + (ScalarItems(f, "bf_az_bz_cz", [proof.az, proof.bz, proof.cz])
                   + (OpeningItems(f, "bf_error_opening", "bf_error_blind", proof.errorOpening)
                      + (Squeezes(3) + (RoundItems(f, INNER_LABEL, proof.innerRounds) + WitnessItems(f, proof)))))))))
  }

  function Squeezes(n: nat): seq<Item> {
    seq(n, _ => Squeeze)
  }

  /** Every field but the folded evaluation scalars agrees. */
  ghost predicate SameAbsorbed(f: Field, x: Proof, y: Proof) {
    && SameCommitments(f, x.commitments, y.commitments)
    && SameOpenings(f, x.outputOpenings, y.outputOpenings) && SameOpenings(f, x.blindingOpenings, y.blindingOpenings)
    && SameRounds(f, x.outerRounds, y.outerRounds) && SameVec(f, [x.az, x.bz, x.cz], [y.az, y.bz, y.cz])
    && SameOpening(f, x.errorOpening, y.errorOpening) && SameRounds(f, x.innerRounds, y.innerRounds)
    && SameOpening(f, x.rowOpening, y.rowOpening)
  }

  lemma WitnessTells(f: Field, x: Proof, y: Proof)
    ensures WitnessItems(f, x) == WitnessItems(f, y) <==> SameOpening(f, x.rowOpening, y.rowOpening)
  {
    hide OpeningItems, SameOpening;
    OpeningTells(f, "bf_witness_opening", "bf_witness_blind", x.rowOpening, y.rowOpening, [], []);
    assert WitnessItems(f, x) + [] == WitnessItems(f, x) && WitnessItems(f, y) + [] == WitnessItems(f, y);
  }

  /** Two proofs of one shape leave the same transcript exactly when they agree
      in the field in everything that is absorbed. */
  lemma WholeLogTells(f: Field, p: BlindFoldProtocol, slots: seq<Slot>, x: Proof, y: Proof, log: seq<Item>)
    requires InstancesAssemble(p, x.commitments) && InstancesAssemble(p, y.commitments)
    requires Count(slots, Output) == |x.outputOpenings| == |y.outputOpenings|
    requires Count(slots, Blinding) == |x.blindingOpenings| == |y.blindingOpenings|
    requires |x.outerRounds| == |y.outerRounds| && |x.innerRounds| == |y.innerRounds|
    ensures WholeLog(f, p, slots, x, log) == WholeLog(f, p, slots, y, log) <==> SameAbsorbed(f, x, y)
  {
    hide *;
    var x8, y8 := RoundItems(f, INNER_LABEL, x.innerRounds) + WitnessItems(f, x),
                  RoundItems(f, INNER_LABEL, y.innerRounds) + WitnessItems(f, y);
    RoundsTell(f, INNER_LABEL, x.innerRounds, y.innerRounds, WitnessItems(f, x), WitnessItems(f, y));
    WitnessTells(f, x, y);
    var x7, y7 := Squeezes(3) + x8, Squeezes(3) + y8;
    CutBoth(Squeezes(3), x8, Squeezes(3), y8);
    var x6, y6 := OpeningItems(f, "bf_error_opening", "bf_error_blind", x.errorOpening) + x7,
                  OpeningItems(f, "bf_error_opening", "bf_error_blind", y.errorOpening) + y7;
    OpeningTells(f, "bf_error_opening", "bf_error_blind", x.errorOpening, y.errorOpening, x7, y7);
    var x5, y5 := ScalarItems(f, "bf_az_bz_cz", [x.az, x.bz, x.cz]) + x6,
                  ScalarItems(f, "bf_az_bz_cz", [y.az, y.bz, y.cz]) + y6;
    ScalarsTell(f, "bf_az_bz_cz", [x.az, x.bz, x.cz], [y.az, y.bz, y.cz], x6, y6);
    var x4, y4 := RoundItems(f, OUTER_LABEL, x.outerRounds) + x5, RoundItems(f, OUTER_LABEL, y.outerRounds) + y5;
    RoundsTell(f, OUTER_LABEL, x.outerRounds, y.outerRounds, x5, y5);
    var middle := [Label("bf_spartan")] + Squeezes(GridVars(p.dimensions.error));
    var x3, y3 := middle + x4, middle + y4;
    CutBoth(middle, x4, middle, y4);
    var ox, oy := Aligned(slots, x.outputOpenings, x.blindingOpenings),
                  Aligned(slots, y.outputOpenings, y.blindingOpenings);
    var x2, y2 := InSlotOrder(f, slots, ox) + x3, InSlotOrder(f, slots, oy) + y3;
    SlotsTell(f, slots, ox, oy, x3, y3);
    AlignedTell(f, slots, x.outputOpenings, x.blindingOpenings, y.outputOpenings, y.blindingOpenings);
    CutBoth([Squeeze], x2, [Squeeze], y2);
    FoldLogTells(f, p, x.commitments, y.commitments, log, [Squeeze] + x2, [Squeeze] + y2);
    WholeLogIs(f, p, slots, x, log);
    WholeLogIs(f, p, slots, y, log);
    AbsorbedAre(f, x, y);
  }

  lemma WholeLogIs(f: Field, p: BlindFoldProtocol, slots: seq<Slot>, x: Proof, log: seq<Item>)
    requires InstancesAssemble(p, x.commitments)
    requires Count(slots, Output) == |x.outputOpenings| && Count(slots, Blinding) == |x.blindingOpenings|
    ensures WholeLog(f, p, slots, x, log) == FoldLog(f, p, x.commitments, log)
      + ([Squeeze]
         + (InSlotOrder(f, slots, Aligned(slots, x.outputOpenings, x.blindingOpenings))
            + ([Label("bf_spartan")] + Squeezes(GridVars(p.dimensions.error))
               + (RoundItems(f, OUTER_LABEL, x.outerRounds)
                  + (ScalarItems(f, "bf_az_bz_cz", [x.az, x.bz, x.cz])
                     + (OpeningItems(f, "bf_error_opening", "bf_error_blind", x.errorOpening)
                        + (Squeezes(3) + (RoundItems(f, INNER_LABEL, x.innerRounds) + WitnessItems(f, x)))))))))
  {
  }

  lemma AbsorbedAre(f: Field, x: Proof, y: Proof)
    ensures SameAbsorbed(f, x, y) <==>
      && SameCommitments(f, x.commitments, y.commitments)
      && SameOpenings(f, x.outputOpenings, y.outputOpenings) && SameOpenings(f, x.blindingOpenings, y.blindingOpenings)
      && SameRounds(f, x.outerRounds, y.outerRounds) && SameVec(f, [x.az, x.bz, x.cz], [y.az, y.bz, y.cz])
      && SameOpening(f, x.errorOpening, y.errorOpening) && SameRounds(f, x.innerRounds, y.innerRounds)
      && SameOpening(f, x.rowOpening, y.rowOpening)
  {
  }

  /** What acceptance leaves is that transcript. */
  lemma AcceptedLogIsWhole(f: Field, setup: Setup, oracle: Oracle, p: BlindFoldProtocol, proof: Proof, log: seq<Item>)
    requires ValidMatrices(p.r1cs) && 1 <= Capacity(setup) && Accepts(f, setup, oracle, p, proof, log)
    ensures FinalOpeningCoordinates(p.dimensions, p.finalOpenings).Ok? && InstancesAssemble(p, proof.commitments)
    ensures var slots := SlotsOf(p);
      && Count(slots, Output) == |proof.outputOpenings| && Count(slots, Blinding) == |proof.blindingOpenings|
      && |proof.outerRounds| == GridVars(p.dimensions.error) && |proof.innerRounds| == GridVars(p.dimensions.grid)
      && AcceptedLog(f, setup, oracle, p, proof, log) == WholeLog(f, p, slots, proof, log)
  {
    hide *;
    AcceptedLogIs(f, setup, oracle, p, proof, log);
    var u := FoldedInstance(p, proof.commitments, oracle(FoldLog(f, p, proof.commitments, log))).value.u;
    RoundCounts(p, proof);
    InnerLogIs(f, oracle, p, u, SlotsOf(p), proof, log);
  }

  lemma RoundCounts(p: BlindFoldProtocol, proof: Proof)
    requires AcceptableRounds(proof.outerRounds, GridVars(p.dimensions.error), 3)
    requires AcceptableRounds(proof.innerRounds, GridVars(p.dimensions.grid), 2)
    ensures |proof.outerRounds| == GridVars(p.dimensions.error) && |proof.innerRounds| == GridVars(p.dimensions.grid)
  {
  }

  lemma InnerLogIs(f: Field, oracle: Oracle, p: BlindFoldProtocol, u: int, slots: seq<Slot>, proof: Proof,
                   log: seq<Item>)
    requires ValidMatrices(p.r1cs) && |p.r1cs.a| <= Pow2(GridVars(p.dimensions.error))
    requires AcceptableRounds(proof.outerRounds, GridVars(p.dimensions.error), 3)
    requires AcceptableRounds(proof.innerRounds, GridVars(p.dimensions.grid), 2)
    requires InstancesAssemble(p, proof.commitments)
    requires Count(slots, Output) == |proof.outputOpenings| && Count(slots, Blinding) == |proof.blindingOpenings|
    ensures InnerLogAfter(f, oracle, p, u, proof, SpartanLog(f, p, slots, proof, log)) + WitnessItems(f, proof)
         == WholeLog(f, p, slots, proof, log)
  {
    hide FoldLog, InSlotOrder, Aligned, ScalarItems, OpeningItems, RoundItems, ReplayRounds, WitnessItems, Squeezed;
    var d, spartan := p.dimensions.error, SpartanLog(f, p, slots, proof, log);
    var after := OuterLogAfter(f, oracle, p, proof, spartan);
    var rx := OuterReplay(f, oracle, p, proof, spartan).point;
    SqueezedIs(spartan, GridVars(d));
    ReplayLog(f, oracle, OUTER_LABEL, proof.outerRounds, 0, Squeezed(spartan, GridVars(d)));
    SqueezedIs(after, 3);
    ReplayLog(f, oracle, INNER_LABEL, proof.innerRounds,
              InnerClaimOf(p.r1cs, rx, u, proof, Challenges(oracle, after, 3)), Squeezed(after, 3));
  }

  /** Two accepted proofs leave the same transcript, whatever answered them,
      exactly when they agree in everything absorbed. */
  lemma AcceptedLogTells(f: Field, setup: Setup, oracle: Oracle, other: Oracle, p: BlindFoldProtocol, x: Proof,
                         y: Proof, log: seq<Item>)
    requires ValidMatrices(p.r1cs) && 1 <= Capacity(setup)
    requires Accepts(f, setup, oracle, p, x, log) && Accepts(f, setup, other, p, y, log)
    ensures AcceptedLog(f, setup, oracle, p, x, log) == AcceptedLog(f, setup, other, p, y, log)
       <==> SameAbsorbed(f, x, y)
  {
    hide *;
    AcceptedLogIsWhole(f, setup, oracle, p, x, log);
    AcceptedLogIsWhole(f, setup, other, p, y, log);
    WholeLogTells(f, p, SlotsOf(p), x, y, log);
  }
}
