/** Laying out the witness: which variable holds what, row by row, and where
    opening ids resolve to. */
module Layouts {
  import opened Results
  import opened IntDivision
  import opened Vectors
  import opened RowCommitment
  import opened Protocol

  /** A stage as the layout sees it: its round degrees, the shape of its
      output-claim rows, and the opening ids those rows hold. */
  datatype Stage = Stage(
    numVars: nat, degreeBound: nat, degrees: seq<nat>,
    claimRowLen: nat, claimRows: nat, openings: seq<nat>, aliases: seq<Alias>)

  datatype Alias = Alias(alias: nat, source: nat)

  /** `finals[i]` says whether the binding names any opening. */
  datatype Statement = Statement(stages: seq<Stage>, finals: seq<bool>)

  datatype LayoutError =
    | WrongNumberOfRounds(stage: nat, expected: nat, actual: nat)
    | DegreeBoundExceeded(stage: nat, bound: nat, actual: nat)
    | DuplicateOpeningSource
    | MissingOpeningAliasSource
    | OpeningRowCapacityExceeded(ids: nat, slots: nat)
    | CommittedRowCountMismatch(expected: nat, actual: nat)
    | MissingRowLength

  // SlotValues of the builder's witness.

  /** A slot is unknown, or holds a value fixed at allocation. */
  type SlotValues = seq<Option<int>>

  /** `unknown` unknown slots followed by zero padding. */
  function PaddedRow(unknown: nat, len: nat): (r: SlotValues)
    ensures |r| == len
  {
    seq(len, s => if s < unknown then None else Some(0))
  }

  function Vars(start: nat, n: nat): (v: seq<nat>)
    ensures |v| == n && forall i :: 0 <= i < n ==> v[i] == start + i
  {
    seq(n, i requires 0 <= i < n => start + i)
  }

  /** `R1csBuilder`, as far as allocation goes. */
  class Builder {
    var slots: SlotValues

    constructor ()
      ensures slots == [Some(1)]
    {
      slots := [Some(1)];
    }

    method Alloc(value: int) returns (variable: nat)
      modifies this
      ensures variable == |old(slots)| && slots == old(slots) + [Some(value)]
    {
      variable := |slots|;
      slots := slots + [Some(value)];
    }

    method AllocUnknown() returns (variable: nat)
      modifies this
      ensures variable == |old(slots)| && slots == old(slots) + [None]
    {
      variable := |slots|;
      slots := slots + [None];
    }

    /** A coefficient row: unknowns, then zeros up to the row length. */
    method AllocCoefficientRow(unknown: nat, len: nat) returns (variables: seq<nat>)
      requires unknown <= len
      modifies this
      ensures variables == Vars(|old(slots)|, unknown) && slots == old(slots) + PaddedRow(unknown, len)
    {
      ghost var before := slots;
      variables := [];
      for s := 0 to unknown
        invariant variables == Vars(|before|, s) && slots == before + PaddedRow(unknown, len)[..s]
      {
        var variable := AllocUnknown();
        variables := variables + [variable];
      }
      for s := unknown to len
        invariant slots == before + PaddedRow(unknown, len)[..s]
      {
        var _ := Alloc(0);
      }
    }

    /** An output-claim row: every slot is listed, the first ones unknown. */
    method AllocClaimRow(unknown: nat, len: nat) returns (variables: seq<nat>)
      modifies this
      ensures variables == Vars(|old(slots)|, len) && slots == old(slots) + PaddedRow(unknown, len)
    {
      ghost var before := slots;
      variables := [];
      for s := 0 to len
        invariant variables == Vars(|before|, s) && slots == before + PaddedRow(unknown, len)[..s]
      {
        var variable;
        if s < unknown {
          variable := AllocUnknown();
        } else {
          variable := Alloc(0);
        }
        variables := variables + [variable];
      }
    }

    /** `pad_to_witness_row_boundary`. */
    method PadToRowBoundary(len: nat)
      requires 0 < len && 1 <= |slots|
      modifies this
      ensures (|slots| - 1) % len == 0 && |slots| == |old(slots)| + Gap(|old(slots)| - 1, len)
      ensures old(slots) <= slots && forall i :: |old(slots)| <= i < |slots| ==> slots[i] == Some(0)
    {
      ghost var before, target := slots, |slots| + Gap(|slots| - 1, len);
      GapReaches(|slots| - 1, len);
      while (|slots| - 1) % len != 0
        invariant |before| <= |slots| <= target && before <= slots
        invariant forall i :: |before| <= i < |slots| ==> slots[i] == Some(0)
        decreases target - |slots|
      {
        NotYet(|before| - 1, len, |slots| - |before|);
        var _ := Alloc(0);
      }
      GapLeast(|before| - 1, len, |slots| - |before|);
    }

    /** `allocate_private_row_scalar`: an unknown alone in its row. */
    method AllocPrivateScalar(len: nat) returns (variable: nat)
      requires 0 < len && 1 <= |slots|
      modifies this
      ensures variable == |old(slots)| + Gap(|old(slots)| - 1, len) && |slots| == variable + len
      ensures old(slots) <= slots && AloneInRow(slots, len, variable) && (|slots| - 1) % len == 0
    {
      hide Gap;
      PadToRowBoundary(len);
      ghost var before := slots;
      variable := AllocUnknown();
      PadToRowBoundary(len);
      OneRowOn(variable - 1, |slots| - 1, len);
    }
  }

  /** How far `x` is from the next multiple of `len`. */
  function Gap(x: nat, len: nat): (g: nat)
    requires 0 < len
    ensures g < len
  {
    if x % len == 0 then 0 else len - x % len
  }

  lemma GapReaches(x: nat, len: nat)
    requires 0 < len
    ensures (x + Gap(x, len)) % len == 0
  {
    var q := x / len;
    assert x == q * len + x % len;
    if x % len != 0 {
      assert x + Gap(x, len) == (q + 1) * len + 0;
      DivModUnique(x + Gap(x, len), len, q + 1, 0);
    }
  }

  lemma GapLeast(x: nat, len: nat, step: nat)
    requires 0 < len && step <= Gap(x, len) && (x + step) % len == 0
    ensures step == Gap(x, len)
  {
    if step < Gap(x, len) {
      var q := x / len;
      assert x == q * len + x % len;
      DivModUnique(x + step, len, q, x % len + step);
    }
  }

  /** Before the gap is closed the boundary is not reached. */
  lemma NotYet(x: nat, len: nat, step: nat)
    requires 0 < len && step <= Gap(x, len) && (x + step) % len != 0
    ensures step < Gap(x, len)
  {
    GapReaches(x, len);
  }

  /** From one boundary, one slot and then padding to the next, is one row. */
  lemma OneRowOn(start: nat, end: nat, len: nat)
    requires 0 < len && start % len == 0 && end % len == 0 && start < end < start + 1 + len
    ensures end == start + len
  {
    var p, q := start / len, end / len;
    assert start == p * len && end == q * len;
    assert (q - p) * len == end - start by { assert (q - p) * len == q * len - p * len; }
    OneMultiple(q - p, len, end - start);
  }

  lemma OneMultiple(k: int, len: nat, d: nat)
    requires 0 < d <= len && k * len == d
    ensures k == 1
  {
    if k <= 0 {
      MulMonotone(len, k, 0);
    } else {
      MulMonotone(len, k, 1);
    }
  }

  /** The variable is first in its row, unknown, and the rest of the row is zero. */
  ghost predicate AloneInRow(slots: SlotValues, len: nat, variable: nat) {
    && 0 < len && 1 <= variable && variable + len <= |slots| && (variable - 1) % len == 0
    && slots[variable] == None && forall i :: variable < i < variable + len ==> slots[i] == Some(0)
  }

  // The row length.

  function NextPow2(n: nat): (p: nat)
    ensures n <= p && IsPow2(p)
  {
    if n <= 1 then 1 else 2 * NextPow2((n + 1) / 2)
  }

  /** It is the least power of two that is enough. */
  lemma {:induction false} NextPow2Least(n: nat, p: nat)
    requires IsPow2(p) && n <= p
    ensures NextPow2(n) <= p
  {
    if n > 1 {
      NextPow2Least((n + 1) / 2, p / 2);
    }
  }

  function Max(a: nat, b: nat): nat {
    if a < b then b else a
  }

  function MaxDegree(degrees: seq<nat>): (m: nat)
    ensures forall i :: 0 <= i < |degrees| ==> degrees[i] + 1 <= m
  {
    if degrees == [] then 0 else Max(degrees[|degrees| - 1] + 1, MaxDegree(degrees[..|degrees| - 1]))
  }

  /** The longest row any stage asks for. */
  function RowNeed(stages: seq<Stage>): (m: nat)
    ensures forall i :: 0 <= i < |stages| ==> MaxDegree(stages[i].degrees) <= m && stages[i].claimRowLen <= m
  {
    if stages == [] then 1
    else
      var last := stages[|stages| - 1];
      Max(Max(MaxDegree(last.degrees), last.claimRowLen), RowNeed(stages[..|stages| - 1]))
  }

  /** `witness_row_len`. */
  function WitnessRowLen(s: Statement): (len: nat)
    ensures IsPow2(len) && 0 < len
    ensures forall i :: 0 <= i < |s.stages| ==> MaxDegree(s.stages[i].degrees) <= len && s.stages[i].claimRowLen <= len
  {
    NextPow2(RowNeed(s.stages))
  }

  /** No shorter power of two holds every round's coefficients and every claim row. */
  lemma WitnessRowLenLeast(s: Statement, p: nat)
    requires IsPow2(p)
    requires forall i, k :: 0 <= i < |s.stages| && 0 <= k < |s.stages[i].degrees| ==> s.stages[i].degrees[k] + 1 <= p
    requires forall i :: 0 <= i < |s.stages| ==> s.stages[i].claimRowLen <= p
    ensures WitnessRowLen(s) <= p
  {
    RowNeedLeast(s.stages, p);
    NextPow2Least(RowNeed(s.stages), p);
  }

  lemma {:induction false} RowNeedLeast(stages: seq<Stage>, p: nat)
    requires 1 <= p
    requires forall i, k :: 0 <= i < |stages| && 0 <= k < |stages[i].degrees| ==> stages[i].degrees[k] + 1 <= p
    requires forall i :: 0 <= i < |stages| ==> stages[i].claimRowLen <= p
    ensures RowNeed(stages) <= p
  {
    if stages != [] {
      var rest := stages[..|stages| - 1];
      forall i | 0 <= i < |rest| ensures rest[i] == stages[i] {
      }
      RowNeedLeast(rest, p);
      MaxDegreeLeast(stages[|stages| - 1].degrees, p);
    }
  }

  lemma {:induction false} MaxDegreeLeast(degrees: seq<nat>, p: nat)
    requires forall k :: 0 <= k < |degrees| ==> degrees[k] + 1 <= p
    ensures MaxDegree(degrees) <= p
  {
    if degrees != [] {
      MaxDegreeLeast(degrees[..|degrees| - 1], p);
    }
  }

  // Where the rows are.

  /** The first slot of a row. */
  function Start(row: nat, len: nat): nat {
    1 + row * len
  }

  lemma StartNext(row: nat, len: nat)
    ensures Start(row + 1, len) == Start(row, len) + len
  {
  }

  lemma MulLe(i: nat, j: nat, len: nat)
    requires i <= j
    ensures i * len <= j * len
  {
    assert (j - i) * len >= 0;
    assert j * len == i * len + (j - i) * len;
  }

  /** Row `row` holds `unknown` unknowns and then padding. */
  ghost predicate RowAt(slots: SlotValues, row: nat, unknown: nat, len: nat) {
    Start(row, len) + len <= |slots| && slots[Start(row, len)..Start(row, len) + len] == PaddedRow(unknown, len)
  }

  lemma RowAtSlot(slots: SlotValues, row: nat, unknown: nat, len: nat, s: nat)
    requires RowAt(slots, row, unknown, len) && s < len
    ensures slots[Start(row, len) + s] == if s < unknown then None else Some(0)
  {
    assert slots[Start(row, len) + s] == slots[Start(row, len)..Start(row, len) + len][s];
  }

  lemma RowAtLater(before: SlotValues, after: SlotValues, row: nat, unknown: nat, len: nat)
    requires before <= after && RowAt(before, row, unknown, len)
    ensures RowAt(after, row, unknown, len)
  {
    assert after[Start(row, len)..Start(row, len) + len] == before[Start(row, len)..Start(row, len) + len];
  }

  /** Coefficient row `j` is grid row `j`. */
  ghost predicate PlacedCoefficients(slots: SlotValues, coefficients: seq<seq<nat>>, degrees: seq<nat>, len: nat) {
    && |coefficients| == |degrees|
    && forall j :: 0 <= j < |degrees| ==>
         RowAt(slots, j, degrees[j] + 1, len) && coefficients[j] == Vars(Start(j, len), degrees[j] + 1)
  }

  /** Output-claim row `q` is grid row `base + q`. */
  ghost predicate PlacedClaims(slots: SlotValues, rows: seq<seq<nat>>, unknowns: seq<nat>, base: nat, len: nat) {
    && |rows| == |unknowns|
    && forall q :: 0 <= q < |unknowns| ==>
         RowAt(slots, base + q, unknowns[q], len) && rows[q] == Vars(Start(base + q, len), len)
  }

  lemma PlacedCoefficientsLater(before: SlotValues, after: SlotValues, coefficients: seq<seq<nat>>, degrees: seq<nat>,
                                len: nat)
    requires before <= after && PlacedCoefficients(before, coefficients, degrees, len)
    ensures PlacedCoefficients(after, coefficients, degrees, len)
  {
    forall j | 0 <= j < |degrees| ensures RowAt(after, j, degrees[j] + 1, len) {
      RowAtLater(before, after, j, degrees[j] + 1, len);
    }
  }

  lemma PlacedClaimsLater(before: SlotValues, after: SlotValues, rows: seq<seq<nat>>, unknowns: seq<nat>, base: nat,
                          len: nat)
    requires before <= after && PlacedClaims(before, rows, unknowns, base, len)
    ensures PlacedClaims(after, rows, unknowns, base, len)
  {
    forall q | 0 <= q < |unknowns| ensures RowAt(after, base + q, unknowns[q], len) {
      RowAtLater(before, after, base + q, unknowns[q], len);
    }
  }

  // The rounds of all stages in one list, and the unknowns of their claim rows.

  function AllDegrees(stages: seq<Stage>): seq<nat> {
    if stages == [] then [] else AllDegrees(stages[..|stages| - 1]) + stages[|stages| - 1].degrees
  }

  /** `remaining_openings.min(row_len)`, row after row. */
  function Unknowns(remaining: nat, rows: nat, rowLen: nat): (u: seq<nat>)
    ensures |u| == rows && forall q :: 0 <= q < rows ==> u[q] <= rowLen
    decreases rows
  {
    if rows == 0 then []
    else
      var here := if remaining < rowLen then remaining else rowLen;
      [here] + Unknowns(remaining - here, rows - 1, rowLen)
  }

  function StageUnknowns(stage: Stage): (u: seq<nat>)
    ensures |u| == stage.claimRows
  {
    Unknowns(|stage.openings|, stage.claimRows, stage.claimRowLen)
  }

  function AllUnknowns(stages: seq<Stage>): seq<nat> {
    if stages == [] then [] else AllUnknowns(stages[..|stages| - 1]) + StageUnknowns(stages[|stages| - 1])
  }

  lemma AllDegreesSnoc(stages: seq<Stage>, i: nat)
    requires i < |stages|
    ensures AllDegrees(stages[..i + 1]) == AllDegrees(stages[..i]) + stages[i].degrees
    ensures AllUnknowns(stages[..i + 1]) == AllUnknowns(stages[..i]) + StageUnknowns(stages[i])
  {
    assert stages[..i + 1][..i] == stages[..i];
  }

  // Allocation.

  ghost predicate StageValid(stage: Stage) {
    stage.numVars == |stage.degrees| && forall r :: 0 <= r < |stage.degrees| ==> stage.degrees[r] <= stage.degreeBound
  }

  /** `validate_stage_statement`. */
  method ValidateStage(stage: Stage, index: nat) returns (bad: Option<LayoutError>)
    ensures bad.None? <==> StageValid(stage)
  {
    if stage.numVars != |stage.degrees| {
      return Some(WrongNumberOfRounds(index, stage.numVars, |stage.degrees|));
    }
    for r := 0 to |stage.degrees|
      invariant forall k :: 0 <= k < r ==> stage.degrees[k] <= stage.degreeBound
    {
      if stage.degrees[r] > stage.degreeBound {
        return Some(DegreeBoundExceeded(index, stage.degreeBound, stage.degrees[r]));
      }
    }
    bad := None;
  }

  lemma OneMoreCoefficientRow(before: SlotValues, coefficients: seq<seq<nat>>, degrees: seq<nat>, degree: nat, len: nat)
    requires PlacedCoefficients(before, coefficients, degrees, len) && |before| == Start(|degrees|, len)
    ensures var after := before + PaddedRow(degree + 1, len);
      && |after| == Start(|degrees| + 1, len)
      && PlacedCoefficients(after, coefficients + [Vars(|before|, degree + 1)], degrees + [degree], len)
  {
    var after := before + PaddedRow(degree + 1, len);
    StartNext(|degrees|, len);
    PlacedCoefficientsLater(before, after, coefficients, degrees, len);
    assert after[Start(|degrees|, len)..Start(|degrees|, len) + len] == PaddedRow(degree + 1, len);
  }

  lemma OneMoreClaimRow(before: SlotValues, rows: seq<seq<nat>>, unknowns: seq<nat>, base: nat, unknown: nat, len: nat)
    requires PlacedClaims(before, rows, unknowns, base, len) && |before| == Start(base + |unknowns|, len)
    ensures var after := before + PaddedRow(unknown, len);
      && |after| == Start(base + |unknowns| + 1, len)
      && PlacedClaims(after, rows + [Vars(|before|, len)], unknowns + [unknown], base, len)
  {
    var after := before + PaddedRow(unknown, len);
    StartNext(base + |unknowns|, len);
    PlacedClaimsLater(before, after, rows, unknowns, base, len);
    assert after[Start(base + |unknowns|, len)..Start(base + |unknowns|, len) + len] == PaddedRow(unknown, len);
  }

  /** The coefficient rows of every stage. */
  method AllocCoefficients(b: Builder, stages: seq<Stage>, len: nat) returns (r: Result<seq<seq<nat>>, LayoutError>)
    requires b.slots == [Some(1)] && forall i :: 0 <= i < |stages| ==> MaxDegree(stages[i].degrees) <= len
    modifies b
    ensures r.Ok? <==> forall i :: 0 <= i < |stages| ==> StageValid(stages[i])
    ensures r.Ok? ==>
      PlacedCoefficients(b.slots, r.value, AllDegrees(stages), len) && |b.slots| == Start(|AllDegrees(stages)|, len)
  {
    var coefficients := [];
    for i := 0 to |stages|
      invariant forall k :: 0 <= k < i ==> StageValid(stages[k])
      invariant PlacedCoefficients(b.slots, coefficients, AllDegrees(stages[..i]), len)
      invariant |b.slots| == Start(|coefficients|, len)
    {
      var bad := ValidateStage(stages[i], i);
      if bad.Some? {
        return Err(bad.value);
      }
      coefficients := AllocStageCoefficients(b, stages[i].degrees, coefficients, AllDegrees(stages[..i]), len);
      AllDegreesSnoc(stages, i);
    }
    assert stages[..|stages|] == stages;
    r := Ok(coefficients);
  }

  method AllocStageCoefficients(b: Builder, degrees: seq<nat>, before: seq<seq<nat>>, ghost done: seq<nat>, len: nat)
    returns (coefficients: seq<seq<nat>>)
    requires PlacedCoefficients(b.slots, before, done, len) && |b.slots| == Start(|before|, len)
    requires MaxDegree(degrees) <= len
    modifies b
    ensures PlacedCoefficients(b.slots, coefficients, done + degrees, len) && |b.slots| == Start(|coefficients|, len)
  {
    coefficients := before;
    assert done + degrees[..0] == done;
    for round := 0 to |degrees|
      invariant PlacedCoefficients(b.slots, coefficients, done + degrees[..round], len)
      invariant |b.slots| == Start(|coefficients|, len)
    {
      OneMoreCoefficientRow(b.slots, coefficients, done + degrees[..round], degrees[round], len);
      assert done + degrees[..round + 1] == done + degrees[..round] + [degrees[round]];
      var row := b.AllocCoefficientRow(degrees[round] + 1, len);
      coefficients := coefficients + [row];
    }
    assert degrees[..|degrees|] == degrees;
  }

  /** `allocate_output_claim_rows` for every stage. */
  method AllocClaimRows(b: Builder, stages: seq<Stage>, base: nat, len: nat) returns (rows: seq<seq<nat>>)
    requires |b.slots| == Start(base, len)
    modifies b
    ensures old(b.slots) <= b.slots
    ensures PlacedClaims(b.slots, rows, AllUnknowns(stages), base, len)
    ensures |b.slots| == Start(base + |AllUnknowns(stages)|, len)
  {
    rows := [];
    for i := 0 to |stages|
      invariant old(b.slots) <= b.slots
      invariant PlacedClaims(b.slots, rows, AllUnknowns(stages[..i]), base, len)
      invariant |b.slots| == Start(base + |rows|, len)
    {
      rows := AllocStageClaimRows(b, stages[i], rows, AllUnknowns(stages[..i]), base, len);
      AllDegreesSnoc(stages, i);
    }
    assert stages[..|stages|] == stages;
  }

  method AllocStageClaimRows(b: Builder, stage: Stage, rowsBefore: seq<seq<nat>>, ghost done: seq<nat>, base: nat,
                             len: nat)
    returns (rows: seq<seq<nat>>)
    requires PlacedClaims(b.slots, rowsBefore, done, base, len) && |b.slots| == Start(base + |rowsBefore|, len)
    modifies b
    ensures old(b.slots) <= b.slots
    ensures PlacedClaims(b.slots, rows, done + StageUnknowns(stage), base, len)
    ensures |b.slots| == Start(base + |rows|, len)
  {
    ghost var unknowns := StageUnknowns(stage);
    rows := rowsBefore;
    var remaining: nat := |stage.openings|;
    assert done + unknowns[..0] == done;
    for q := 0 to stage.claimRows
      invariant old(b.slots) <= b.slots
      invariant PlacedClaims(b.slots, rows, done + unknowns[..q], base, len) && |b.slots| == Start(base + |rows|, len)
      invariant unknowns[q..] == Unknowns(remaining, stage.claimRows - q, stage.claimRowLen)
    {
      var openingSlots := if remaining < stage.claimRowLen then remaining else stage.claimRowLen;
      assert unknowns[q..][0] == openingSlots == unknowns[q];
      assert unknowns[q + 1..] == unknowns[q..][1..];
      OneMoreClaimRow(b.slots, rows, done + unknowns[..q], base, openingSlots, len);
      assert done + unknowns[..q + 1] == done + unknowns[..q] + [openingSlots];
      var row := b.AllocClaimRow(openingSlots, len);
      remaining := remaining - openingSlots;
      rows := rows + [row];
    }
    assert unknowns[..|unknowns|] == unknowns;
  }

  /** The claim chain of a stage: the input claim and each round's output. */
  datatype Chain = Chain(inputClaim: nat, claimOuts: seq<nat>)

  ghost predicate ChainAt(slots: SlotValues, chain: Chain, rounds: nat) {
    && |chain.claimOuts| == rounds && chain.inputClaim + rounds < |slots| && slots[chain.inputClaim] == None
    && forall k :: 0 <= k < rounds ==>
         chain.claimOuts[k] == chain.inputClaim + 1 + k && slots[chain.claimOuts[k]] == None
  }

  method AllocChain(b: Builder, rounds: nat) returns (chain: Chain)
    modifies b
    ensures old(b.slots) <= b.slots && ChainAt(b.slots, chain, rounds) && |old(b.slots)| == chain.inputClaim
    ensures |b.slots| == |old(b.slots)| + 1 + rounds
  {
    var inputClaim := b.AllocUnknown();
    var claimOuts := [];
    for k := 0 to rounds
      invariant |claimOuts| == k && |b.slots| == inputClaim + 1 + k && old(b.slots) <= b.slots
      invariant b.slots[inputClaim] == None
      invariant forall j :: 0 <= j < k ==> claimOuts[j] == inputClaim + 1 + j && b.slots[claimOuts[j]] == None
    {
      var claimOut := b.AllocUnknown();
      claimOuts := claimOuts + [claimOut];
    }
    chain := Chain(inputClaim, claimOuts);
  }

  /** The slots of the chains of some stages: one more than the rounds, each. */
  function ChainSlots(stages: seq<Stage>): nat {
    if stages == [] then 0 else ChainSlots(stages[..|stages| - 1]) + 1 + |stages[|stages| - 1].degrees|
  }

  /** Chain after chain, from slot `from` on, no slot between them. */
  ghost predicate ChainsAt(slots: SlotValues, chains: seq<Chain>, stages: seq<Stage>, from: nat) {
    && |chains| == |stages|
    && forall i :: 0 <= i < |stages| ==>
         ChainAt(slots, chains[i], |stages[i].degrees|) && chains[i].inputClaim == from + ChainSlots(stages[..i])
  }

  lemma ChainsAtNext(before: SlotValues, after: SlotValues, chains: seq<Chain>, chain: Chain, stages: seq<Stage>,
                     i: nat, from: nat)
    requires i < |stages| && before <= after && ChainsAt(before, chains, stages[..i], from)
    requires ChainAt(after, chain, |stages[i].degrees|) && chain.inputClaim == from + ChainSlots(stages[..i])
    ensures ChainsAt(after, chains + [chain], stages[..i + 1], from)
    ensures ChainSlots(stages[..i + 1]) == ChainSlots(stages[..i]) + 1 + |stages[i].degrees|
  {
    var now, all := stages[..i + 1], chains + [chain];
    assert now[..i] == stages[..i];
    forall k | 0 <= k < |now|
      ensures ChainAt(after, all[k], |now[k].degrees|) && all[k].inputClaim == from + ChainSlots(now[..k])
    {
      assert now[..k] == stages[..k];
      if k < i {
        assert stages[..i][..k] == stages[..k] && stages[..i][k] == now[k];
        assert ChainAt(before, chains[k], |stages[..i][k].degrees|);
      }
    }
  }

  method AllocChains(b: Builder, stages: seq<Stage>) returns (chains: seq<Chain>)
    modifies b
    ensures old(b.slots) <= b.slots && ChainsAt(b.slots, chains, stages, |old(b.slots)|)
    ensures |b.slots| == |old(b.slots)| + ChainSlots(stages)
  {
    chains := [];
    for i := 0 to |stages|
      invariant old(b.slots) <= b.slots && ChainsAt(b.slots, chains, stages[..i], |old(b.slots)|)
      invariant |b.slots| == |old(b.slots)| + ChainSlots(stages[..i])
    {
      ghost var before := b.slots;
      var chain := AllocChain(b, |stages[i].degrees|);
      ChainsAtNext(before, b.slots, chains, chain, stages, i, |old(b.slots)|);
      chains := chains + [chain];
    }
    assert stages[..|stages|] == stages;
  }

  /** The scalars of the final openings: each alone in its row, later ones in later rows. */
  ghost predicate FinalsAt(slots: SlotValues, finals: seq<FinalOpening>, named: seq<bool>, len: nat, from: nat) {
    && |finals| == |named|
    && forall i :: 0 <= i < |finals| ==> FinalAt(slots, finals[i], named[i], len, from)
  }

  ghost predicate FinalAt(slots: SlotValues, final: FinalOpening, named: bool, len: nat, from: nat) {
    if named then
      && final.evaluation.Some? && final.blinding.Some? && from <= final.evaluation.value
      && AloneInRow(slots, len, final.evaluation.value) && AloneInRow(slots, len, final.blinding.value)
      && final.blinding.value == final.evaluation.value + len
    else final == FinalOpening(None, None)
  }

  ghost predicate LaterRows(finals: seq<FinalOpening>, len: nat) {
    forall i, j :: 0 <= i < j < |finals| && finals[i].blinding.Some? && finals[j].evaluation.Some? ==>
      finals[i].blinding.value + len <= finals[j].evaluation.value
  }

  lemma AloneLater(before: SlotValues, after: SlotValues, len: nat, variable: nat)
    requires before <= after && AloneInRow(before, len, variable)
    ensures AloneInRow(after, len, variable)
  {
  }

  method AllocFinals(b: Builder, named: seq<bool>, len: nat) returns (finals: seq<FinalOpening>)
    requires 0 < len && 1 <= |b.slots|
    modifies b
    ensures old(b.slots) <= b.slots && FinalsAt(b.slots, finals, named, len, |old(b.slots)|) && LaterRows(finals, len)
  {
    hide AloneInRow, FinalAt;
    finals := [];
    ghost var from := |b.slots|;
    for i := 0 to |named|
      invariant old(b.slots) <= b.slots && 1 <= |b.slots|
      invariant FinalsAt(b.slots, finals, named[..i], len, from) && LaterRows(finals, len)
      invariant forall k :: 0 <= k < i && finals[k].blinding.Some? ==> finals[k].blinding.value + len <= |b.slots|
    {
      ghost var before := b.slots;
      if named[i] {
        var evaluation := b.AllocPrivateScalar(len);
        ghost var middle := b.slots;
        var blinding := b.AllocPrivateScalar(len);
        AloneLater(middle, b.slots, len, evaluation);
        FinalsLater(before, b.slots, finals, named[..i], len, from);
        NewFinal(b.slots, len, evaluation, blinding, from);
        finals := finals + [FinalOpening(Some(evaluation), Some(blinding))];
      } else {
        NoFinal(b.slots, len, from);
        finals := finals + [FinalOpening(None, None)];
      }
    }
    assert named[..|named|] == named;
  }

  lemma NewFinal(slots: SlotValues, len: nat, evaluation: nat, blinding: nat, from: nat)
    requires AloneInRow(slots, len, evaluation) && AloneInRow(slots, len, blinding) && from <= evaluation
    requires blinding == evaluation + len
    ensures FinalAt(slots, FinalOpening(Some(evaluation), Some(blinding)), true, len, from)
  {
  }

  lemma NoFinal(slots: SlotValues, len: nat, from: nat)
    ensures FinalAt(slots, FinalOpening(None, None), false, len, from)
  {
  }

  lemma FinalsLater(before: SlotValues, after: SlotValues, finals: seq<FinalOpening>, named: seq<bool>, len: nat,
                    from: nat)
    requires before <= after && FinalsAt(before, finals, named, len, from)
    ensures FinalsAt(after, finals, named, len, from)
  {
    forall i | 0 <= i < |finals| ensures FinalAt(after, finals[i], named[i], len, from) {
      assert FinalAt(before, finals[i], named[i], len, from);
      if named[i] {
        AloneLater(before, after, len, finals[i].evaluation.value);
        AloneLater(before, after, len, finals[i].blinding.value);
      }
    }
  }

  datatype Layout = Layout(
    rowLen: nat, coefficients: seq<seq<nat>>, claimRows: seq<seq<nat>>, chains: seq<Chain>, finals: seq<FinalOpening>)

  /** Everything is where the grid expects it. */
  ghost predicate LaidOut(s: Statement, layout: Layout, slots: SlotValues) {
    var len, degrees, unknowns := layout.rowLen, AllDegrees(s.stages), AllUnknowns(s.stages);
    && len == WitnessRowLen(s) && Start(|degrees| + |unknowns|, len) <= |slots|
    && PlacedCoefficients(slots, layout.coefficients, degrees, len)
    && PlacedClaims(slots, layout.claimRows, unknowns, |degrees|, len)
    && ChainsAt(slots, layout.chains, s.stages, Start(|degrees| + |unknowns|, len))
    && FinalsAt(slots, layout.finals, s.finals, len, Start(|degrees| + |unknowns|, len))
    && LaterRows(layout.finals, len)
  }

  /** `allocate_layout`. */
  method AllocateLayout(b: Builder, s: Statement) returns (r: Result<Layout, LayoutError>)
    requires b.slots == [Some(1)]
    modifies b
    ensures r.Ok? <==> forall i :: 0 <= i < |s.stages| ==> StageValid(s.stages[i])
    ensures r.Ok? ==> LaidOut(s, r.value, b.slots)
  {
    var len := WitnessRowLen(s);
    var coefficients := AllocCoefficients(b, s.stages, len);
    if coefficients.Err? {
      return Err(coefficients.error);
    }
    ghost var degrees, unknowns := AllDegrees(s.stages), AllUnknowns(s.stages);
    ghost var afterRounds := b.slots;
    var claimRows := AllocClaimRows(b, s.stages, |coefficients.value|, len);
    ghost var afterClaims := b.slots;
    var chains := AllocChains(b, s.stages);
    ghost var afterChains := b.slots;
    var finals := AllocFinals(b, s.finals, len);
    PlacedCoefficientsLater(afterRounds, b.slots, coefficients.value, degrees, len);
    PlacedClaimsLater(afterClaims, b.slots, claimRows, unknowns, |degrees|, len);
    FinalsFrom(b.slots, finals, s.finals, len, |afterChains|, Start(|degrees| + |unknowns|, len));
    r := Ok(Layout(len, coefficients.value, claimRows, chains, finals));
  }

  lemma FinalsFrom(slots: SlotValues, finals: seq<FinalOpening>, named: seq<bool>, len: nat, from: nat, earlier: nat)
    requires earlier <= from && FinalsAt(slots, finals, named, len, from)
    ensures FinalsAt(slots, finals, named, len, earlier)
  {
    forall i | 0 <= i < |finals| ensures FinalAt(slots, finals[i], named[i], len, earlier) {
      assert FinalAt(slots, finals[i], named[i], len, from);
    }
  }

  // Which opening ids are accepted.

  /** The ids a stage introduces: its openings, then its aliases. */
  function StageIds(stage: Stage): seq<nat> {
    stage.openings + AliasIds(stage.aliases)
  }

  function AliasIds(aliases: seq<Alias>): (ids: seq<nat>)
    ensures |ids| == |aliases|
  {
    seq(|aliases|, i requires 0 <= i < |aliases| => aliases[i].alias)
  }

  function AllIds(stages: seq<Stage>): seq<nat> {
    if stages == [] then [] else AllIds(stages[..|stages| - 1]) + StageIds(stages[|stages| - 1])
  }

  ghost predicate Distinct(ids: seq<nat>) {
    forall i, j :: 0 <= i < j < |ids| ==> ids[i] != ids[j]
  }

  /** Every alias names a source introduced before it. */
  ghost predicate AliasesResolve(before: seq<nat>, aliases: seq<Alias>) {
    forall k :: 0 <= k < |aliases| ==> aliases[k].source in before + AliasIds(aliases)[..k]
  }

  ghost predicate OpeningsAccepted(stages: seq<Stage>) {
    Distinct(AllIds(stages)) && forall i :: 0 <= i < |stages| ==>
         AliasesResolve(AllIds(stages[..i]) + stages[i].openings, stages[i].aliases)
  }

  lemma AllIdsSnoc(stages: seq<Stage>, i: nat)
    requires i < |stages|
    ensures AllIds(stages[..i + 1]) == AllIds(stages[..i]) + StageIds(stages[i])
  {
    assert stages[..i + 1][..i] == stages[..i];
  }

  lemma {:induction false} AllIdsPrefix(stages: seq<Stage>, i: nat)
    requires i <= |stages|
    ensures AllIds(stages[..i]) <= AllIds(stages)
    decreases |stages| - i
  {
    if i == |stages| {
      assert stages[..i] == stages;
    } else {
      AllIdsPrefix(stages, i + 1);
      AllIdsSnoc(stages, i);
      assert AllIds(stages[..i]) <= AllIds(stages[..i + 1]);
    }
  }

  lemma DistinctPrefix(a: seq<nat>, b: seq<nat>)
    requires a <= b && Distinct(b)
    ensures Distinct(a)
  {
    forall i, j | 0 <= i < j < |a| ensures a[i] != a[j] {
      assert a[i] == b[i] && a[j] == b[j];
    }
  }

  /** `push` after the `contains` check. */
  method PushUnique(openings: seq<nat>, id: nat) returns (r: Option<seq<nat>>)
    requires Distinct(openings)
    ensures r.Some? <==> Distinct(openings + [id])
    ensures r.Some? ==> r.value == openings + [id]
  {
    if id in openings {
      var k :| 0 <= k < |openings| && openings[k] == id;
      assert (openings + [id])[k] == (openings + [id])[|openings|];
      return None;
    }
    r := Some(openings + [id]);
  }

  /** The openings of one stage joined to the list. */
  method PushOpenings(openings: seq<nat>, ids: seq<nat>) returns (r: Option<seq<nat>>)
    requires Distinct(openings)
    ensures r.Some? <==> Distinct(openings + ids)
    ensures r.Some? ==> r.value == openings + ids
  {
    var all := openings;
    assert openings + ids[..0] == openings;
    for k := 0 to |ids|
      invariant all == openings + ids[..k] && Distinct(all)
    {
      var next := PushUnique(all, ids[k]);
      PushedPrefix(openings, ids, k);
      if next.None? {
        return None;
      }
      all := next.value;
    }
    assert ids[..|ids|] == ids;
    r := Some(all);
  }

  /** The aliases of one stage: each new, each of a source already listed. */
  method PushAliases(openings: seq<nat>, aliases: seq<Alias>) returns (r: Result<seq<nat>, LayoutError>)
    requires Distinct(openings)
    ensures r.Ok? <==> Distinct(openings + AliasIds(aliases)) && AliasesResolve(openings, aliases)
    ensures r.Ok? ==> r.value == openings + AliasIds(aliases)
  {
    var all := openings;
    ghost var ids := AliasIds(aliases);
    assert openings + ids[..0] == openings;
    for k := 0 to |aliases|
      invariant all == openings + ids[..k] && Distinct(all)
      invariant forall j :: 0 <= j < k ==> aliases[j].source in openings + ids[..j]
    {
      var next := PushUnique(all, aliases[k].alias);
      PushedPrefix(openings, ids, k);
      if next.None? {
        return Err(DuplicateOpeningSource);
      }
      if aliases[k].source !in all {
        return Err(MissingOpeningAliasSource);
      }
      all := next.value;
    }
    assert ids[..|ids|] == ids;
    r := Ok(all);
  }

  lemma PushedPrefix(openings: seq<nat>, ids: seq<nat>, k: nat)
    requires k < |ids|
    ensures openings + ids[..k + 1] == openings + ids[..k] + [ids[k]]
    ensures Distinct(openings + ids) ==> Distinct(openings + ids[..k + 1])
  {
    if Distinct(openings + ids) {
      DistinctPrefix(openings + ids[..k + 1], openings + ids);
    }
  }

  /** `validate_unique_openings`. */
  method ValidateUniqueOpenings(stages: seq<Stage>) returns (bad: Option<LayoutError>)
    ensures bad.None? <==> OpeningsAccepted(stages)
  {
    hide AllIds, Distinct, AliasesResolve, AliasIds;
    var openings := [];
    NoIds(stages[..0]);
    for i := 0 to |stages|
      invariant openings == AllIds(stages[..i]) && Distinct(openings)
      invariant forall k :: 0 <= k < i ==> AliasesResolve(AllIds(stages[..k]) + stages[k].openings, stages[k].aliases)
    {
      AllIdsSnoc(stages, i);
      AllIdsPrefix(stages, i + 1);
      var withOpenings := PushOpenings(openings, stages[i].openings);
      Together(openings, stages[i]);
      if withOpenings.None? {
        if Distinct(AllIds(stages)) {
          DistinctPrefix(openings + stages[i].openings, AllIds(stages));
        }
        return Some(DuplicateOpeningSource);
      }
      var withAliases := PushAliases(withOpenings.value, stages[i].aliases);
      if withAliases.Err? {
        if Distinct(AllIds(stages)) {
          DistinctPrefix(AllIds(stages[..i + 1]), AllIds(stages));
        }
        return Some(withAliases.error);
      }
      openings := withAliases.value;
    }
    assert stages[..|stages|] == stages;
    bad := None;
  }

  lemma NoIds(stages: seq<Stage>)
    requires stages == []
    ensures AllIds(stages) == [] && Distinct(AllIds(stages))
  {
  }

  lemma Together(openings: seq<nat>, stage: Stage)
    ensures openings + stage.openings + AliasIds(stage.aliases) == openings + StageIds(stage)
    ensures openings + stage.openings <= openings + StageIds(stage)
  {
  }

  /** The rows hold all the ids and none of them is empty. */
  lemma ClaimRowsExact(stage: Stage)
    ensures ClaimRowsAccepted(stage) <==> (
      if stage.openings == [] then stage.claimRows == 0
      else (
        && 0 < stage.claimRows && 0 < stage.claimRowLen
        && (stage.claimRows - 1) * stage.claimRowLen < |stage.openings| <= stage.claimRows * stage.claimRowLen))
  {
    var n, len := |stage.openings|, stage.claimRowLen;
    if 0 < n && 0 < len {
      CeilingIs(n, len, stage.claimRows);
    }
  }

  lemma CeilingIs(n: nat, len: nat, rows: nat)
    requires 0 < n && 0 < len
    ensures rows == (n + len - 1) / len <==> 0 < rows && (rows - 1) * len < n <= rows * len
  {
    var q, r := (n + len - 1) / len, (n + len - 1) % len;
    assert n + len - 1 == q * len + r;
    assert (q - 1) * len == q * len - len;
    if 0 < rows && (rows - 1) * len < n <= rows * len {
      assert (rows - 1) * len == rows * len - len;
      DivModUnique(n + len - 1, len, rows, n + len - 1 - rows * len);
    }
  }

  /** What `validate_output_claim_rows` asks of a stage. */
  ghost predicate ClaimRowsAccepted(stage: Stage) {
    if stage.claimRows == 0 then stage.openings == []
    else if stage.openings == [] then false
    else (
      && 0 < stage.claimRowLen && |stage.openings| <= stage.claimRows * stage.claimRowLen
      && stage.claimRows == (|stage.openings| + stage.claimRowLen - 1) / stage.claimRowLen)
  }

  /** `validate_output_claim_rows`, one stage. */
  method ValidateClaimRows(stage: Stage) returns (bad: Option<LayoutError>)
    ensures bad.None? <==> ClaimRowsAccepted(stage)
  {
    var ids := |stage.openings|;
    if stage.claimRows == 0 {
      if stage.openings != [] {
        return Some(OpeningRowCapacityExceeded(ids, 0));
      }
      return None;
    }
    if stage.openings == [] {
      return Some(CommittedRowCountMismatch(0, stage.claimRows));
    }
    if stage.claimRowLen == 0 {
      return Some(MissingRowLength);
    }
    assert 0 <= stage.claimRows * stage.claimRowLen;
    if ids > stage.claimRows * stage.claimRowLen {
      return Some(OpeningRowCapacityExceeded(ids, stage.claimRows * stage.claimRowLen));
    }
    var expected := (ids + stage.claimRowLen - 1) / stage.claimRowLen;
    if stage.claimRows != expected {
      return Some(CommittedRowCountMismatch(expected, stage.claimRows));
    }
    bad := None;
  }

  // Where opening ids resolve to.

  /** The slots a stage's ids are handed, row after row. */
  function Taken(rows: seq<seq<nat>>, rowLen: nat): (v: seq<nat>)
    requires forall q :: 0 <= q < |rows| ==> rowLen <= |rows[q]|
    ensures |v| == |rows| * rowLen
  {
    if rows == [] then []
    else
      assert (|rows| - 1) * rowLen + rowLen == |rows| * rowLen;
      rows[0][..rowLen] + Taken(rows[1..], rowLen)
  }

  /** The slots handed to the ids of one stage are all unknown ones, and those
      past the ids are zero: an id never resolves to padding. Id `p` is in row `p / rowLen`, column `p % rowLen`. */
  lemma {:induction false} TakenUnknown(slots: SlotValues, rows: seq<seq<nat>>, remaining: nat, rowLen: nat, base: nat,
                                        len: nat, p: nat)
    requires 0 < rowLen <= len && PlacedClaims(slots, rows, Unknowns(remaining, |rows|, rowLen), base, len)
    requires p < |rows| * rowLen
    ensures Taken(rows, rowLen)[p] == Start(base + p / rowLen, len) + p % rowLen < |slots|
    ensures slots[Taken(rows, rowLen)[p]] == if p < remaining then None else Some(0)
    decreases |rows|
  {
    hide *;
    PlacedWide(slots, rows, Unknowns(remaining, |rows|, rowLen), base, len);
    assert rows != [] by { assert 0 * rowLen == 0; }
    TakenCons(rows, rowLen, p);
    if p < rowLen {
      TakenFirst(slots, rows, remaining, rowLen, base, len, p);
      DivModUnique(p, rowLen, 0, p);
    } else {
      TakenTail(slots, rows, remaining, rowLen, base, len);
      DivModShift(p - rowLen, 1, rowLen);
      TakenUnknown(slots, rows[1..], if remaining < rowLen then 0 else remaining - rowLen, rowLen, base + 1, len,
                   p - rowLen);
    }
  }

  lemma PlacedWide(slots: SlotValues, rows: seq<seq<nat>>, unknowns: seq<nat>, base: nat, len: nat)
    requires PlacedClaims(slots, rows, unknowns, base, len)
    ensures forall q :: 0 <= q < |rows| ==> len == |rows[q]|
  {
  }

  lemma TakenCons(rows: seq<seq<nat>>, rowLen: nat, p: nat)
    requires rows != [] && (forall q :: 0 <= q < |rows| ==> rowLen <= |rows[q]|) && p < |rows| * rowLen
    ensures p < rowLen ==> Taken(rows, rowLen)[p] == rows[0][p]
    ensures rowLen <= p ==>
      p - rowLen < |rows[1..]| * rowLen && Taken(rows, rowLen)[p] == Taken(rows[1..], rowLen)[p - rowLen]
  {
    OneRowLess(|rows|, rowLen);
    TakenStep(rows, rowLen);
    var first, rest := rows[0][..rowLen], Taken(rows[1..], rowLen);
    hide *;
    assert (first + rest)[p] == if p < rowLen then first[p] else rest[p - rowLen];
  }

  lemma OneRowLess(n: nat, rowLen: nat)
    requires 0 < n
    ensures n * rowLen == (n - 1) * rowLen + rowLen
  {
  }

  lemma TakenStep(rows: seq<seq<nat>>, rowLen: nat)
    requires rows != [] && forall q :: 0 <= q < |rows| ==> rowLen <= |rows[q]|
    ensures Taken(rows, rowLen) == rows[0][..rowLen] + Taken(rows[1..], rowLen)
  {
  }

  lemma TakenFirst(slots: SlotValues, rows: seq<seq<nat>>, remaining: nat, rowLen: nat, base: nat, len: nat, p: nat)
    requires rows != [] && 0 < rowLen <= len
    requires PlacedClaims(slots, rows, Unknowns(remaining, |rows|, rowLen), base, len)
    requires p < rowLen
    ensures rows[0][p] == Start(base, len) + p < |slots|
    ensures slots[rows[0][p]] == if p < remaining then None else Some(0)
  {
    PlacedClaim(slots, rows, Unknowns(remaining, |rows|, rowLen), base, len, 0);
    RowAtSlot(slots, base, Unknowns(remaining, |rows|, rowLen)[0], len, p);
  }

  lemma UnknownsStep(remaining: nat, rows: nat, rowLen: nat)
    requires 0 < rows
    ensures var here := if remaining < rowLen then remaining else rowLen;
      Unknowns(remaining, rows, rowLen) == [here] + Unknowns(remaining - here, rows - 1, rowLen)
  {
  }

  lemma TakenTail(slots: SlotValues, rows: seq<seq<nat>>, remaining: nat, rowLen: nat, base: nat, len: nat)
    requires rows != [] && PlacedClaims(slots, rows, Unknowns(remaining, |rows|, rowLen), base, len)
    ensures var here := if remaining < rowLen then remaining else rowLen;
      PlacedClaims(slots, rows[1..], Unknowns(remaining - here, |rows| - 1, rowLen), base + 1, len)
  {
    hide *;
    var here := if remaining < rowLen then remaining else rowLen;
    var unknowns, rest := Unknowns(remaining, |rows|, rowLen), Unknowns(remaining - here, |rows| - 1, rowLen);
    UnknownsStep(remaining, |rows|, rowLen);
    SameLength(slots, rows, unknowns, base, len);
    PlacedSlice(slots, rows, unknowns, 1, rows[1..], rest, base, len);
  }

  /** A slice of placed rows is placed, that much further on. */
  lemma PlacedSlice(slots: SlotValues, rows: seq<seq<nat>>, unknowns: seq<nat>, off: nat, part: seq<seq<nat>>,
                    partUnknowns: seq<nat>, base: nat, len: nat)
    requires PlacedClaims(slots, rows, unknowns, base, len) && |part| == |partUnknowns|
    requires off + |part| <= |rows| == |unknowns|
    requires part == rows[off..off + |part|] && partUnknowns == unknowns[off..off + |part|]
    ensures PlacedClaims(slots, part, partUnknowns, base + off, len)
  {
    forall q | 0 <= q < |part|
      ensures RowAt(slots, base + off + q, partUnknowns[q], len) && part[q] == Vars(Start(base + off + q, len), len)
    {
      PlacedClaim(slots, rows, unknowns, base, len, off + q);
      SameRow(base, off, q);
    }
    PlacedEach(slots, part, partUnknowns, base + off, len);
  }

  lemma SameRow(base: nat, off: nat, q: nat)
    ensures base + (off + q) == base + off + q
  {
  }

  lemma PlacedClaim(slots: SlotValues, rows: seq<seq<nat>>, unknowns: seq<nat>, base: nat, len: nat, q: nat)
    requires PlacedClaims(slots, rows, unknowns, base, len) && q < |rows|
    ensures |rows| == |unknowns| && RowAt(slots, base + q, unknowns[q], len)
    ensures rows[q] == Vars(Start(base + q, len), len)
  {
  }

  lemma PlacedEach(slots: SlotValues, rows: seq<seq<nat>>, unknowns: seq<nat>, base: nat, len: nat)
    requires |rows| == |unknowns|
    requires forall q :: 0 <= q < |rows| ==>
      RowAt(slots, base + q, unknowns[q], len) && rows[q] == Vars(Start(base + q, len), len)
    ensures PlacedClaims(slots, rows, unknowns, base, len)
  {
  }

  /** `find_map` over the inserted pairs: the first with the id. */
  function Lookup(inserted: seq<(nat, nat)>, id: nat): Option<nat> {
    if inserted == [] then None else if inserted[0].0 == id then Some(inserted[0].1) else Lookup(inserted[1..], id)
  }

  function Names(inserted: seq<(nat, nat)>): (ids: seq<nat>)
    ensures |ids| == |inserted|
  {
    seq(|inserted|, i requires 0 <= i < |inserted| => inserted[i].0)
  }

  lemma {:induction false} LookupFinds(inserted: seq<(nat, nat)>, id: nat)
    ensures Lookup(inserted, id).Some? <==> id in Names(inserted)
    ensures Lookup(inserted, id).Some? ==> (id, Lookup(inserted, id).value) in inserted
  {
    if inserted != [] {
      LookupFinds(inserted[1..], id);
      assert Names(inserted) == [inserted[0].0] + Names(inserted[1..]);
    }
  }

  lemma {:induction false} LookupExtends(a: seq<(nat, nat)>, b: seq<(nat, nat)>, id: nat)
    ensures Lookup(a, id).Some? ==> Lookup(a + b, id) == Lookup(a, id)
    ensures Lookup(a, id).None? ==> Lookup(a + b, id) == Lookup(b, id)
  {
    if a == [] {
      assert a + b == b;
    } else {
      assert (a + b)[1..] == a[1..] + b;
      LookupExtends(a[1..], b, id);
    }
  }

  /** Every inserted id names an unknown slot. */
  ghost predicate AllUnknown(slots: SlotValues, inserted: seq<(nat, nat)>) {
    forall k :: 0 <= k < |inserted| ==> inserted[k].1 < |slots| && slots[inserted[k].1] == None
  }

  ghost predicate AliasesShare(inserted: seq<(nat, nat)>, aliases: seq<Alias>) {
    forall k :: 0 <= k < |aliases| ==>
      && Lookup(inserted, aliases[k].alias).Some?
      && Lookup(inserted, aliases[k].alias) == Lookup(inserted, aliases[k].source)
  }

  lemma SharesLater(a: seq<(nat, nat)>, b: seq<(nat, nat)>, aliases: seq<Alias>)
    requires AliasesShare(a, aliases)
    ensures AliasesShare(a + b, aliases)
  {
    forall k | 0 <= k < |aliases|
      ensures Lookup(a + b, aliases[k].alias).Some?
      ensures Lookup(a + b, aliases[k].alias) == Lookup(a + b, aliases[k].source)
    {
      LookupExtends(a, b, aliases[k].alias);
      LookupExtends(a, b, aliases[k].source);
    }
  }

  /** The zip of a stage's ids with its slots. */
  method InsertOpenings(inserted: seq<(nat, nat)>, ids: seq<nat>, variables: seq<nat>, ghost slots: SlotValues)
    returns (all: seq<(nat, nat)>)
    requires AllUnknown(slots, inserted) && |ids| <= |variables|
    requires forall p :: 0 <= p < |ids| ==> variables[p] < |slots| && slots[variables[p]] == None
    ensures inserted <= all && AllUnknown(slots, all) && Names(all) == Names(inserted) + ids
    ensures |all| == |inserted| + |ids| && forall p :: 0 <= p < |ids| ==> all[|inserted| + p].1 == variables[p]
  {
    all := inserted;
    for p := 0 to |ids|
      invariant inserted <= all && AllUnknown(slots, all) && |all| == |inserted| + p
      invariant Names(all) == Names(inserted) + ids[..p]
      invariant forall q :: 0 <= q < p ==> all[|inserted| + q].1 == variables[q]
    {
      assert Names(all + [(ids[p], variables[p])]) == Names(all) + [ids[p]];
      assert ids[..p + 1] == ids[..p] + [ids[p]];
      all := all + [(ids[p], variables[p])];
    }
    assert ids[..|ids|] == ids;
  }

  /** Aliases take their source's variable. */
  method InsertAliases(inserted: seq<(nat, nat)>, aliases: seq<Alias>, ghost slots: SlotValues)
    returns (r: Result<seq<(nat, nat)>, LayoutError>)
    requires AllUnknown(slots, inserted) && Distinct(Names(inserted) + AliasIds(aliases))
    ensures r.Ok? <==> AliasesResolve(Names(inserted), aliases)
    ensures r.Ok? ==> inserted <= r.value && AllUnknown(slots, r.value) && AliasesShare(r.value, aliases)
    ensures r.Ok? ==> Names(r.value) == Names(inserted) + AliasIds(aliases)
  {
    var all := inserted;
    ghost var names, ids := Names(inserted), AliasIds(aliases);
    assert names + ids[..0] == names;
    for k := 0 to |aliases|
      invariant inserted <= all && AllUnknown(slots, all) && Names(all) == names + ids[..k]
      invariant AliasesShare(all, aliases[..k]) && AliasesResolve(names, aliases[..k])
    {
      LookupFinds(all, aliases[k].source);
      assert AliasIds(aliases[..k]) == ids[..k];
      var variable := Lookup(all, aliases[k].source);
      if variable.None? {
        return Err(MissingOpeningAliasSource);
      }
      NewAlias(all, aliases, k, names, variable.value);
      all := all + [(aliases[k].alias, variable.value)];
    }
    assert aliases[..|aliases|] == aliases && ids[..|ids|] == ids;
    r := Ok(all);
  }

  lemma NewAlias(all: seq<(nat, nat)>, aliases: seq<Alias>, k: nat, names: seq<nat>, variable: nat)
    requires k < |aliases| && Names(all) == names + AliasIds(aliases)[..k] && Distinct(names + AliasIds(aliases))
    requires Lookup(all, aliases[k].source) == Some(variable) && AliasesShare(all, aliases[..k])
    requires AliasesResolve(names, aliases[..k])
    requires aliases[k].source in Names(all)
    ensures var next := all + [(aliases[k].alias, variable)];
      && Names(next) == names + AliasIds(aliases)[..k + 1] && AliasesShare(next, aliases[..k + 1])
      && AliasesResolve(names, aliases[..k + 1])
  {
    var pair, ids := [(aliases[k].alias, variable)], AliasIds(aliases);
    var next := all + pair;
    assert Names(next) == Names(all) + [aliases[k].alias];
    SharesLater(all, pair, aliases[..k]);
    NotYetNamed(names, ids, k);
    LookupFinds(all, aliases[k].alias);
    LookupExtends(all, pair, aliases[k].alias);
    LookupExtends(all, pair, aliases[k].source);
    assert AliasIds(aliases[..k + 1])[..k] == ids[..k];
    forall j | 0 <= j < k ensures aliases[j].source in names + AliasIds(aliases[..k + 1])[..j] {
      assert aliases[..k][j] == aliases[j] && AliasIds(aliases[..k])[..j] == AliasIds(aliases[..k + 1])[..j];
    }
    var shown := aliases[..k + 1];
    forall j | 0 <= j < |shown|
      ensures Lookup(next, shown[j].alias).Some? && Lookup(next, shown[j].alias) == Lookup(next, shown[j].source)
    {
      if j < k {
        assert aliases[..k][j] == shown[j];
      }
    }
  }

  lemma NotYetNamed(names: seq<nat>, ids: seq<nat>, k: nat)
    requires k < |ids| && Distinct(names + ids)
    ensures ids[k] !in names + ids[..k]
  {
    var before, all := names + ids[..k], names + ids;
    forall j | 0 <= j < |before| ensures before[j] != ids[k] {
      assert before[j] == all[j] && all[|names| + k] == ids[k];
    }
  }

  /** Where every id of the statement went: ids in order, each to an unknown
      slot, each alias to its source's slot. */
  ghost predicate SourcesRight(stages: seq<Stage>, slots: SlotValues, inserted: seq<(nat, nat)>) {
    && Names(inserted) == AllIds(stages) && AllUnknown(slots, inserted)
    && forall i :: 0 <= i < |stages| ==> AliasesShare(inserted, stages[i].aliases)
  }

  /** The slot of id `p` of a stage whose claim rows start at grid row `base`:
      row by row, from the front of each row. */
  function ClaimSlot(p: nat, claimRowLen: nat, base: nat, len: nat): nat
    requires 0 < claimRowLen
  {
    Start(base + p / claimRowLen, len) + p % claimRowLen
  }

  /** The stage's ids resolve to its slots, one after the other. */
  ghost predicate OpeningsAt(inserted: seq<(nat, nat)>, stage: Stage, base: nat, len: nat) {
    && (stage.openings == [] || 0 < stage.claimRowLen)
    && forall p :: 0 <= p < |stage.openings| ==>
      Lookup(inserted, stage.openings[p]) == Some(ClaimSlot(p, stage.claimRowLen, base, len))
  }

  lemma OpeningsAtLater(a: seq<(nat, nat)>, b: seq<(nat, nat)>, stage: Stage, base: nat, len: nat)
    requires a <= b && OpeningsAt(a, stage, base, len)
    ensures OpeningsAt(b, stage, base, len)
  {
    var added := b[|a|..];
    assert a + added == b;
    forall p | 0 <= p < |stage.openings| ensures Lookup(b, stage.openings[p]) == Lookup(a, stage.openings[p]) {
      LookupExtends(a, added, stage.openings[p]);
    }
  }

  /** Every stage's ids resolve to that stage's own slots, in order. */
  ghost predicate OpeningsPlaced(stages: seq<Stage>, inserted: seq<(nat, nat)>, base: nat, len: nat) {
    forall i :: 0 <= i < |stages| ==> OpeningsAt(inserted, stages[i], base + RowsBefore(stages[..i]), len)
  }

  lemma OpeningsPlacedNext(stages: seq<Stage>, i: nat, before: seq<(nat, nat)>, after: seq<(nat, nat)>, base: nat,
                           len: nat)
    requires i < |stages| && before <= after && OpeningsPlaced(stages[..i], before, base, len)
    requires OpeningsAt(after, stages[i], base + RowsBefore(stages[..i]), len)
    ensures OpeningsPlaced(stages[..i + 1], after, base, len)
  {
    hide OpeningsAt, RowsBefore;
    var now := stages[..i + 1];
    forall k | 0 <= k < |now| ensures OpeningsAt(after, now[k], base + RowsBefore(now[..k]), len) {
      assert now[..k] == stages[..k];
      if k < i {
        assert stages[..i][k] == now[k] && stages[..i][..k] == stages[..k];
        OpeningsAtLater(before, after, now[k], base + RowsBefore(stages[..k]), len);
      }
    }
  }

  /** The claim rows of the first `i` stages. */
  function RowsBefore(stages: seq<Stage>): nat {
    if stages == [] then 0 else RowsBefore(stages[..|stages| - 1]) + stages[|stages| - 1].claimRows
  }

  lemma {:induction false} UnknownsLength(stages: seq<Stage>)
    ensures |AllUnknowns(stages)| == RowsBefore(stages)
  {
    if stages != [] {
      UnknownsLength(stages[..|stages| - 1]);
    }
  }

  /** The claim rows of stage `i`, cut out of the list for all stages. */
  lemma StageRows(slots: SlotValues, stages: seq<Stage>, i: nat, claimRows: seq<seq<nat>>, off: nat,
                  part: seq<seq<nat>>, base: nat, len: nat)
    requires i < |stages| && PlacedClaims(slots, claimRows, AllUnknowns(stages), base, len)
    requires off == RowsBefore(stages[..i])
    requires |part| == stages[i].claimRows && off + |part| <= |claimRows| && part == claimRows[off..off + |part|]
    ensures PlacedClaims(slots, part, StageUnknowns(stages[i]), base + off, len)
  {
    hide *;
    var unknowns, mine := AllUnknowns(stages), StageUnknowns(stages[i]);
    AllUnknownsAt(stages, i);
    SameLength(slots, claimRows, unknowns, base, len);
    PlacedSlice(slots, claimRows, unknowns, off, part, mine, base, len);
  }

  lemma SameLength(slots: SlotValues, rows: seq<seq<nat>>, unknowns: seq<nat>, base: nat, len: nat)
    requires PlacedClaims(slots, rows, unknowns, base, len)
    ensures |rows| == |unknowns|
  {
  }

  /** The claim rows of stage `i` are all there, and no wider than the grid. */
  lemma StageFits(s: Statement, layout: Layout, slots: SlotValues, i: nat)
    requires i < |s.stages| && LaidOut(s, layout, slots)
    ensures RowsBefore(s.stages[..i]) + s.stages[i].claimRows <= |layout.claimRows|
    ensures PlacedClaims(slots, layout.claimRows, AllUnknowns(s.stages), |AllDegrees(s.stages)|, layout.rowLen)
    ensures s.stages[i].claimRowLen <= layout.rowLen
  {
    AllUnknownsAt(s.stages, i);
    SameLength(slots, layout.claimRows, AllUnknowns(s.stages), |AllDegrees(s.stages)|, layout.rowLen);
  }

  lemma {:induction false} AllUnknownsAt(stages: seq<Stage>, i: nat)
    requires i < |stages|
    ensures var off := RowsBefore(stages[..i]);
      && off + stages[i].claimRows <= |AllUnknowns(stages)|
      && AllUnknowns(stages)[off..off + stages[i].claimRows] == StageUnknowns(stages[i])
  {
    var last := |stages| - 1;
    UnknownsLength(stages[..last]);
    assert AllUnknowns(stages) == AllUnknowns(stages[..last]) + StageUnknowns(stages[last]);
    if i < last {
      AllUnknownsAt(stages[..last], i);
      assert stages[..last][..i] == stages[..i];
      var off, n := RowsBefore(stages[..i]), stages[i].claimRows;
      assert AllUnknowns(stages)[off..off + n] == AllUnknowns(stages[..last])[off..off + n];
    }
  }

  /** In a layout the slots of a stage's claim rows are unknown up to its ids
      and zero past them. */
  lemma ClaimSlotsAre(s: Statement, layout: Layout, slots: SlotValues, i: nat, p: nat)
    requires i < |s.stages| && LaidOut(s, layout, slots) && 0 < s.stages[i].claimRowLen
    requires p < s.stages[i].claimRows * s.stages[i].claimRowLen
    ensures var slot := ClaimSlot(p, s.stages[i].claimRowLen, |AllDegrees(s.stages)| + RowsBefore(s.stages[..i]),
                                  layout.rowLen);
      slot < |slots| && slots[slot] == if p < |s.stages[i].openings| then None else Some(0)
  {
    hide *;
    var stage, base, off := s.stages[i], |AllDegrees(s.stages)|, RowsBefore(s.stages[..i]);
    StageFits(s, layout, slots, i);
    var rows := layout.claimRows[off..off + stage.claimRows];
    StageRows(slots, s.stages, i, layout.claimRows, off, rows, base, layout.rowLen);
    StageUnknownsAre(stage);
    TakenUnknown(slots, rows, |stage.openings|, stage.claimRowLen, base + off, layout.rowLen, p);
    ClaimSlotIs(p, stage.claimRowLen, base + off, layout.rowLen);
  }

  lemma StageUnknownsAre(stage: Stage)
    ensures StageUnknowns(stage) == Unknowns(|stage.openings|, stage.claimRows, stage.claimRowLen)
  {
  }

  lemma ClaimSlotIs(p: nat, claimRowLen: nat, base: nat, len: nat)
    requires 0 < claimRowLen
    ensures ClaimSlot(p, claimRowLen, base, len) == Start(base + p / claimRowLen, len) + p % claimRowLen
  {
  }

  /** `insert_output_claim_sources`. For an accepted statement it never fails:
      every opening id resolves to an unknown slot of its stage's claim rows,
      never to padding, and every alias shares its source's variable. */
  method InsertSources(s: Statement, layout: Layout, ghost slots: SlotValues)
    returns (r: Result<seq<(nat, nat)>, LayoutError>)
    requires LaidOut(s, layout, slots) && OpeningsAccepted(s.stages)
    requires forall i :: 0 <= i < |s.stages| ==> ClaimRowsAccepted(s.stages[i])
    ensures r.Ok? && SourcesRight(s.stages, slots, r.value)
    ensures OpeningsPlaced(s.stages, r.value, |AllDegrees(s.stages)|, layout.rowLen)
  {
    hide *;
    var inserted: seq<(nat, nat)> := [];
    var off := 0;
    ghost var base, stages := |AllDegrees(s.stages)|, s.stages;
    NothingInserted(stages, slots, base, layout.rowLen);
    for i := 0 to |s.stages|
      invariant off == RowsBefore(stages[..i]) && SourcesRight(stages[..i], slots, inserted)
      invariant OpeningsPlaced(stages[..i], inserted, base, layout.rowLen)
    {
      var stage := s.stages[i];
      StageFits(s, layout, slots, i);
      var rows := layout.claimRows[off..off + stage.claimRows];
      StageRows(slots, stages, i, layout.claimRows, off, rows, base, layout.rowLen);
      ghost var before := inserted;
      inserted := InsertNext(inserted, stages, i, stage, rows, slots, base + off, layout.rowLen);
      OpeningsPlacedNext(stages, i, before, inserted, base, layout.rowLen);
      off := off + stage.claimRows;
    }
    assert stages[..|stages|] == stages;
    r := Ok(inserted);
  }

  lemma NothingInserted(stages: seq<Stage>, slots: SlotValues, base: nat, len: nat)
    ensures SourcesRight(stages[..0], slots, []) && RowsBefore(stages[..0]) == 0
    ensures OpeningsPlaced(stages[..0], [], base, len)
  {
  }

  /** One stage of an accepted statement: it cannot fail. */
  method InsertNext(inserted: seq<(nat, nat)>, ghost stages: seq<Stage>, ghost i: nat, stage: Stage,
                    rows: seq<seq<nat>>, ghost slots: SlotValues, ghost base: nat, ghost len: nat)
    returns (next: seq<(nat, nat)>)
    requires i < |stages| && stage == stages[i] && OpeningsAccepted(stages)
    requires SourcesRight(stages[..i], slots, inserted)
    requires ClaimRowsAccepted(stage) && stage.claimRowLen <= len
    requires |rows| == stage.claimRows && PlacedClaims(slots, rows, StageUnknowns(stage), base, len)
    ensures SourcesRight(stages[..i + 1], slots, next) && inserted <= next && OpeningsAt(next, stage, base, len)
    ensures RowsBefore(stages[..i + 1]) == RowsBefore(stages[..i]) + stage.claimRows
  {
    StageReady(stages, i, Names(inserted));
    var r := InsertStage(inserted, stage, rows, slots, base, len);
    next := r.value;
    StillShare(inserted, next, stages[..i], stage);
    assert stages[..i + 1] == stages[..i] + [stage];
  }

  lemma StillShare(before: seq<(nat, nat)>, after: seq<(nat, nat)>, done: seq<Stage>, stage: Stage)
    requires before <= after && AliasesShare(after, stage.aliases)
    requires forall k :: 0 <= k < |done| ==> AliasesShare(before, done[k].aliases)
    ensures var now := done + [stage];
      forall k :: 0 <= k < |now| ==> AliasesShare(after, now[k].aliases)
  {
    var added, now := after[|before|..], done + [stage];
    assert before + added == after;
    forall k | 0 <= k < |now| ensures AliasesShare(after, now[k].aliases) {
      if k < |done| {
        SharesLater(before, added, done[k].aliases);
      }
    }
  }

  /** What an accepted statement gives when its stage `i` is reached. */
  lemma StageReady(stages: seq<Stage>, i: nat, names: seq<nat>)
    requires i < |stages| && OpeningsAccepted(stages) && names == AllIds(stages[..i])
    ensures Distinct(names + stages[i].openings + AliasIds(stages[i].aliases))
    ensures AliasesResolve(names + stages[i].openings, stages[i].aliases)
    ensures AllIds(stages[..i + 1]) == names + stages[i].openings + AliasIds(stages[i].aliases)
    ensures RowsBefore(stages[..i + 1]) == RowsBefore(stages[..i]) + stages[i].claimRows
  {
    assert stages[..i + 1][..i] == stages[..i];
    AllIdsSnoc(stages, i);
    AllIdsPrefix(stages, i + 1);
    Together(names, stages[i]);
    DistinctPrefix(AllIds(stages[..i + 1]), AllIds(stages));
  }

  method InsertStage(inserted: seq<(nat, nat)>, stage: Stage, rows: seq<seq<nat>>, ghost slots: SlotValues,
                     ghost base: nat, ghost len: nat)
    returns (r: Result<seq<(nat, nat)>, LayoutError>)
    requires AllUnknown(slots, inserted) && ClaimRowsAccepted(stage) && stage.claimRowLen <= len
    requires |rows| == stage.claimRows && PlacedClaims(slots, rows, StageUnknowns(stage), base, len)
    requires Distinct(Names(inserted) + stage.openings + AliasIds(stage.aliases))
    ensures r.Ok? <==> AliasesResolve(Names(inserted) + stage.openings, stage.aliases)
    ensures r.Ok? ==> inserted <= r.value && AllUnknown(slots, r.value) && AliasesShare(r.value, stage.aliases)
    ensures r.Ok? ==> Names(r.value) == Names(inserted) + stage.openings + AliasIds(stage.aliases)
    ensures r.Ok? ==> OpeningsAt(r.value, stage, base, len)
  {
    var variables := Taken(rows, stage.claimRowLen);
    assert stage.openings == [] || 0 < stage.claimRowLen;
    forall p | 0 <= p < |stage.openings|
      ensures p < |variables| && variables[p] < |slots| && slots[variables[p]] == None
      ensures variables[p] == ClaimSlot(p, stage.claimRowLen, base, len)
    {
      TakenUnknown(slots, rows, |stage.openings|, stage.claimRowLen, base, len, p);
    }
    if |stage.openings| > 0 {
      assert |stage.openings| <= |variables|;
    }
    var withOpenings := InsertOpenings(inserted, stage.openings, variables, slots);
    r := InsertAliases(withOpenings, stage.aliases, slots);
    if r.Ok? {
      OpeningsFound(inserted, withOpenings, r.value, stage, variables, base, len);
    }
  }

  lemma OpeningsFound(before: seq<(nat, nat)>, with: seq<(nat, nat)>, all: seq<(nat, nat)>, stage: Stage,
                      variables: seq<nat>, base: nat, len: nat)
    requires with <= all && |with| == |before| + |stage.openings| && |stage.openings| <= |variables|
    requires stage.openings == [] || 0 < stage.claimRowLen
    requires Names(with) == Names(before) + stage.openings
    requires Distinct(Names(before) + stage.openings + AliasIds(stage.aliases))
    requires forall p :: 0 <= p < |stage.openings| ==> with[|before| + p].1 == variables[p]
    requires forall p :: 0 <= p < |stage.openings| ==> variables[p] == ClaimSlot(p, stage.claimRowLen, base, len)
    ensures OpeningsAt(all, stage, base, len)
  {
    DistinctPrefix(Names(with), Names(before) + stage.openings + AliasIds(stage.aliases));
    var added := all[|with|..];
    assert with + added == all;
    forall p | 0 <= p < |stage.openings|
      ensures Lookup(all, stage.openings[p]) == Some(ClaimSlot(p, stage.claimRowLen, base, len))
    {
      assert Names(with)[|before| + p] == stage.openings[p];
      LookupAt(with, |before| + p);
      LookupExtends(with, added, stage.openings[p]);
    }
  }

  /** Among distinct ids every pair is found. */
  lemma {:induction false} LookupAt(inserted: seq<(nat, nat)>, m: nat)
    requires m < |inserted| && Distinct(Names(inserted))
    ensures Lookup(inserted, Names(inserted)[m]) == Some(inserted[m].1)
  {
    if m > 0 {
      var names := Names(inserted);
      assert Names(inserted[1..]) == names[1..];
      assert names[0] != names[m];
      forall i, j | 0 <= i < j < |names[1..]| ensures names[1..][i] != names[1..][j] {
        assert names[1..][i] == names[i + 1] && names[1..][j] == names[j + 1];
      }
      LookupAt(inserted[1..], m - 1);
    }
  }
}
