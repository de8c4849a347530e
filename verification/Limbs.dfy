/** Fixed-width little-endian limb arrays: machine words, carries and
    truncation, against the integers they stand for. */
module Limbs {
  import opened IntDivision

  const WORD := 0x1_0000_0000_0000_0000
  const DOUBLE_WORD := 0x1_0000_0000_0000_0000_0000_0000_0000_0000

  type u64 = x: int | 0 <= x < WORD
  type u128 = x: int | 0 <= x < DOUBLE_WORD

  /** `x as u64` of a double word, and the carry `(x >> 64) as u64`. */
  function Low(x: u128): u64 { x % WORD }

  function High(x: u128): u64 { x / WORD }

  /** The integer a limb array stands for. */
  function Value(limbs: seq<u64>): (v: nat)
    ensures v < Weight(|limbs|)
  {
    if limbs == [] then 0 else limbs[0] + WORD * Value(limbs[1..])
  }

  /** The weight of limb `n`. */
  function Weight(n: nat): (w: nat)
    ensures 0 < w
  {
    if n == 0 then 1 else WORD * Weight(n - 1)
  }

  /** `x` in the place of limb `n`. */
  function Shift(x: int, n: nat): int {
    if n == 0 then x else WORD * Shift(x, n - 1)
  }

  lemma {:induction false} ShiftIsProduct(x: int, n: nat)
    ensures Shift(x, n) == x * Weight(n)
  {
    if n > 0 {
      ShiftIsProduct(x, n - 1);
      WordProduct(x, Weight(n - 1));
    }
  }

  lemma WordProduct(a: int, b: int)
    ensures a * (WORD * b) == WORD * (a * b)
  {
  }

  lemma {:induction false} ShiftNext(x: int, n: nat)
    ensures Shift(x, n + 1) == Shift(WORD * x, n) == WORD * Shift(x, n)
  {
    if n > 0 {
      ShiftNext(x, n - 1);
    }
  }

  lemma {:induction false} ShiftAdd(x: int, y: int, n: nat)
    ensures Shift(x + y, n) == Shift(x, n) + Shift(y, n)
  {
    if n > 0 {
      ShiftAdd(x, y, n - 1);
    }
  }

  lemma {:induction false} ShiftSub(x: int, y: int, n: nat)
    ensures Shift(x - y, n) == Shift(x, n) - Shift(y, n)
  {
    if n > 0 {
      ShiftSub(x, y, n - 1);
    }
  }

  lemma NoLimbs()
    ensures Value([]) == 0
  {
  }

  lemma {:induction false} ShiftZero(n: nat)
    ensures Shift(0, n) == 0 && Shift(1, n) == Weight(n)
  {
    if n > 0 {
      ShiftZero(n - 1);
    }
  }

  lemma {:induction false} ShiftTwice(x: int, m: nat, n: nat)
    ensures Shift(Shift(x, m), n) == Shift(x, m + n)
  {
    if n > 0 {
      ShiftTwice(x, m, n - 1);
    }
  }

  lemma {:induction false} ValueConcat(a: seq<u64>, b: seq<u64>)
    ensures Value(a + b) == Value(a) + Shift(Value(b), |a|)
  {
    if a == [] {
      assert a + b == b;
    } else {
      assert (a + b)[1..] == a[1..] + b;
      ValueConcat(a[1..], b);
    }
  }

  lemma ValueSplit(a: seq<u64>, n: nat)
    requires n <= |a|
    ensures Value(a) == Value(a[..n]) + Shift(Value(a[n..]), n)
  {
    assert a == a[..n] + a[n..];
    ValueConcat(a[..n], a[n..]);
  }

  lemma ValueOfOne(x: u64)
    ensures Value([x]) == x
  {
    assert [x][1..] == [];
  }

  lemma ValueAppend(a: seq<u64>, x: u64)
    ensures Value(a + [x]) == Value(a) + Shift(x, |a|)
  {
    ValueOfOne(x);
    ValueConcat(a, [x]);
  }

  lemma ValueSnoc(a: seq<u64>, i: nat)
    requires i < |a|
    ensures Value(a[..i + 1]) == Value(a[..i]) + Shift(a[i], i)
  {
    assert a[..i + 1] == a[..i] + [a[i]];
    ValueAppend(a[..i], a[i]);
  }

  /** Writing one limb changes the value by that limb's share. */
  lemma {:induction false} ValueUpdate(a: seq<u64>, i: nat, x: u64)
    requires i < |a|
    ensures Value(a[i := x]) == Value(a) + Shift(x, i) - Shift(a[i], i)
  {
    if i == 0 {
      assert a[0 := x][1..] == a[1..];
    } else {
      assert a[i := x][1..] == a[1..][i - 1 := x];
      ValueUpdate(a[1..], i - 1, x);
    }
  }

  lemma {:induction false} ZeroValue(a: seq<u64>)
    requires forall i :: 0 <= i < |a| ==> a[i] == 0
    ensures Value(a) == 0
  {
    if a != [] {
      ZeroValue(a[1..]);
    }
  }

  // No double-word overflow.

  /** Word times word plus two words fits in a double word. */
  lemma ProductFits(a: u64, b: u64, c: u64, d: u64)
    ensures 0 <= a * b + c + d < DOUBLE_WORD
  {
    ProductBound(a, b, WORD - 1);
  }

  lemma ProductBound(a: nat, b: nat, m: nat)
    requires a <= m && b <= m
    ensures 0 <= a * b <= m * m
  {
    assert a * b <= a * m <= m * m;
  }

  // Truncation.

  /** `v` is `exact` with a multiple of the top weight dropped. */
  ghost predicate Truncates(v: int, exact: int, n: nat) {
    exists q: int :: v + Shift(q, n) == exact
  }

  lemma TruncatesBy(v: int, exact: int, q: int, n: nat)
    requires v + Shift(q, n) == exact
    ensures Truncates(v, exact, n)
  {
  }

  lemma TruncatesSelf(v: int, n: nat)
    ensures Truncates(v, v, n)
  {
    ShiftZero(n);
    TruncatesBy(v, v, 0, n);
  }

  /** Truncating and adding, in any order. */
  lemma TruncatesAdd(u: int, x: int, v: int, y: int, n: nat)
    requires Truncates(u, x, n) && Truncates(v, y, n)
    ensures Truncates(u + v, x + y, n) && Truncates(u - v, x - y, n)
  {
    var p :| u + Shift(p, n) == x;
    var q :| v + Shift(q, n) == y;
    ShiftAdd(p, q, n);
    ShiftSub(p, q, n);
    TruncatesBy(u + v, x + y, p + q, n);
    TruncatesBy(u - v, x - y, p - q, n);
  }

  lemma TruncatesTwice(u: int, v: int, x: int, n: nat)
    requires Truncates(u, v, n) && Truncates(v, x, n)
    ensures Truncates(u, x, n)
  {
    var p :| u + Shift(p, n) == v;
    var q :| v + Shift(q, n) == x;
    ShiftAdd(p, q, n);
    TruncatesBy(u, x, p + q, n);
  }

  /** A limb array that truncates `exact` is `exact` modulo its width. */
  lemma TruncatesIsMod(limbs: seq<u64>, exact: int)
    requires Truncates(Value(limbs), exact, |limbs|)
    ensures Value(limbs) == exact % Weight(|limbs|)
  {
    var q :| Value(limbs) + Shift(q, |limbs|) == exact;
    ShiftIsProduct(q, |limbs|);
    DivModUnique(exact, Weight(|limbs|), q, Value(limbs));
  }

  /** Limb of a possibly shorter operand. */
  function LimbOf(a: seq<u64>, i: nat): u64 {
    if i < |a| then a[i] else 0
  }

  /** The first `n` limbs, zero limbs past the end. */
  function Fit(a: seq<u64>, n: nat): (r: seq<u64>)
    ensures |r| == n && forall i :: 0 <= i < n ==> r[i] == LimbOf(a, i)
  {
    seq(n, i requires 0 <= i < n => LimbOf(a, i))
  }

  lemma WideFit(a: seq<u64>, n: nat)
    requires |a| <= n
    ensures Value(Fit(a, n)) == Value(a)
  {
    ValueSplit(Fit(a, n), |a|);
    assert Fit(a, n)[..|a|] == a;
    ZeroValue(Fit(a, n)[|a|..]);
    ShiftZero(|a|);
  }

  /** Fitting keeps the value, up to what does not fit. */
  lemma FitValue(a: seq<u64>, n: nat)
    ensures Truncates(Value(Fit(a, n)), Value(a), n)
    ensures |a| <= n ==> Value(Fit(a, n)) == Value(a)
  {
    if |a| <= n {
      WideFit(a, n);
      TruncatesSelf(Value(a), n);
    } else {
      ValueSplit(a, n);
      assert Fit(a, n) == a[..n];
      TruncatesBy(Value(a[..n]), Value(a), Value(a[n..]), n);
    }
  }

  // Addition and subtraction.

  lemma CarryStep(i: nat, v: int, x: int, y: int, s: int, carry: int, next: int, a: int, b: int)
    requires v + Shift(carry, i) == a + b && s + WORD * next == x + y + carry
    ensures v + Shift(s, i) + Shift(next, i + 1) == (a + Shift(x, i)) + (b + Shift(y, i))
  {
    ShiftNext(next, i);
    ShiftAdd(s, WORD * next, i);
    ShiftAdd(x + y, carry, i);
    ShiftAdd(x, y, i);
  }

  /** The carry chain of the additions. */
  method AddLimbs(acc: array<u64>, other: seq<u64>) returns (carry: u64)
    modifies acc
    ensures carry <= 1
    ensures Value(acc[..]) + Shift(carry, acc.Length) == old(Value(acc[..])) + Value(Fit(other, acc.Length))
  {
    ghost var before, addend := acc[..], Fit(other, acc.Length);
    carry := 0;
    ShiftZero(0);
    for i := 0 to acc.Length
      invariant carry <= 1 && forall k :: i <= k < acc.Length ==> acc[k] == before[k]
      invariant Value(acc[..i]) + Shift(carry, i) == Value(before[..i]) + Value(addend[..i])
    {
      ghost var middle, was := acc[..i], carry;
      var limb := if i < |other| then other[i] else 0;
      var sum: u128 := acc[i] + limb + carry;
      ValueSnoc(before, i);
      ValueSnoc(addend, i);
      acc[i], carry := Low(sum), High(sum);
      assert acc[..i + 1] == middle + [acc[i]];
      ValueAppend(middle, acc[i]);
      CarryStep(i, Value(middle), before[i], addend[i], acc[i], was, carry, Value(before[..i]), Value(addend[..i]));
    }
    assert acc[..acc.Length] == acc[..] && before[..acc.Length] == before && addend[..acc.Length] == addend;
  }

  /** `add_with_carry`. */
  method AddWithCarry(acc: array<u64>, other: seq<u64>) returns (overflow: bool)
    requires |other| == acc.Length
    modifies acc
    ensures overflow <==> old(Value(acc[..])) + Value(other) >= Weight(acc.Length)
    ensures Value(acc[..]) == old(Value(acc[..])) + Value(other) - (if overflow then Weight(acc.Length) else 0)
  {
    var carry := AddLimbs(acc, other);
    FitValue(other, acc.Length);
    ShiftZero(acc.Length);
    overflow := carry != 0;
  }

  function OverflowingSub(x: u64, y: u64): (u64, bool) {
    if x < y then (x - y + WORD, true) else (x - y, false)
  }

  lemma BorrowStep(i: nat, v: int, x: int, y: int, s: int, borrow: int, next: int, a: int, b: int)
    requires v - Shift(borrow, i) == a - b && s - WORD * next == x - y - borrow
    ensures v + Shift(s, i) - Shift(next, i + 1) == (a + Shift(x, i)) - (b + Shift(y, i))
  {
    ShiftNext(next, i);
    ShiftSub(s, WORD * next, i);
    ShiftSub(x - y, borrow, i);
    ShiftSub(x, y, i);
  }

  /** `sub_with_borrow`. */
  method SubWithBorrow(acc: array<u64>, other: seq<u64>) returns (underflow: bool)
    requires |other| == acc.Length
    modifies acc
    ensures underflow <==> old(Value(acc[..])) < Value(other)
    ensures Value(acc[..]) == old(Value(acc[..])) - Value(other) + (if underflow then Weight(acc.Length) else 0)
  {
    hide Value, Shift, Weight;
    ghost var before := acc[..];
    NoLimbs();
    assert acc[..0] == [] && before[..0] == [] && other[..0] == [];
    var borrow := false;
    ghost var owed := 0;
    ShiftZero(0);
    for i := 0 to acc.Length
      invariant forall k :: i <= k < acc.Length ==> acc[k] == before[k]
      invariant owed == if borrow then 1 else 0
      invariant Value(acc[..i]) - Shift(owed, i) == Value(before[..i]) - Value(other[..i])
    {
      ghost var middle, was := acc[..i], owed;
      var (d1, b1) := OverflowingSub(acc[i], other[i]);
      var (d2, b2) := OverflowingSub(d1, if borrow then 1 else 0);
      ValueSnoc(before, i);
      ValueSnoc(other, i);
      acc[i] := d2;
      borrow := b1 || b2;
      owed := if borrow then 1 else 0;
      assert acc[..i + 1] == middle + [acc[i]];
      ValueAppend(middle, acc[i]);
      BorrowStep(i, Value(middle), before[i], other[i], acc[i], was, owed, Value(before[..i]), Value(other[..i]));
    }
    assert acc[..acc.Length] == acc[..] && before[..acc.Length] == before && other[..acc.Length] == other;
    ShiftZero(acc.Length);
    underflow := borrow;
  }

  /** `add_assign_trunc`: any width of the right operand. */
  method AddAssignTrunc(acc: array<u64>, other: seq<u64>)
    modifies acc
    ensures Value(acc[..]) == (old(Value(acc[..])) + Value(other)) % Weight(acc.Length)
  {
    ghost var start, n := Value(acc[..]), acc.Length;
    var carry := AddLimbs(acc, other);
    FitValue(other, n);
    TruncatesBy(Value(acc[..]), start + Value(Fit(other, n)), carry, n);
    TruncatesSelf(start, n);
    TruncatesAdd(start, start, Value(Fit(other, n)), Value(other), n);
    TruncatesTwice(Value(acc[..]), start + Value(Fit(other, n)), start + Value(other), n);
    TruncatesIsMod(acc[..], start + Value(other));
  }

  function WrappingSub(x: u128, y: u128): u128 {
    if x < y then x - y + DOUBLE_WORD else x - y
  }

  /** Two wrapping subtractions in a double word: the low word and the borrow. */
  lemma WrappedDifference(x: u64, y: u64, borrow: u64)
    requires borrow <= 1
    ensures var diff := WrappingSub(WrappingSub(x, y), borrow);
      Low(diff) - WORD * (if diff > WORD - 1 then 1 else 0) == x - y - borrow
  {
  }

  /** `sub_assign_trunc`. */
  method SubAssignTrunc(acc: array<u64>, other: seq<u64>)
    modifies acc
    ensures Value(acc[..]) == (old(Value(acc[..])) - Value(other)) % Weight(acc.Length)
  {
    hide Value, Shift, Weight, Truncates;
    ghost var before, fitted, n := acc[..], Fit(other, acc.Length), acc.Length;
    NoLimbs();
    assert acc[..0] == [] && before[..0] == [] && fitted[..0] == [];
    var borrow: u64 := 0;
    ShiftZero(0);
    for i := 0 to acc.Length
      invariant borrow <= 1 && forall k :: i <= k < acc.Length ==> acc[k] == before[k]
      invariant Value(acc[..i]) - Shift(borrow, i) == Value(before[..i]) - Value(fitted[..i])
    {
      ghost var middle, was := acc[..i], borrow;
      var limb := if i < |other| then other[i] else 0;
      WrappedDifference(acc[i], limb, borrow);
      var diff := WrappingSub(WrappingSub(acc[i], limb), borrow);
      ValueSnoc(before, i);
      ValueSnoc(fitted, i);
      acc[i] := Low(diff);
      borrow := if diff > WORD - 1 then 1 else 0;
      assert acc[..i + 1] == middle + [acc[i]];
      ValueAppend(middle, acc[i]);
      BorrowStep(i, Value(middle), before[i], fitted[i], acc[i], was, borrow, Value(before[..i]), Value(fitted[..i]));
    }
    assert acc[..n] == acc[..] && before[..n] == before && fitted[..n] == fitted;
    FitValue(other, n);
    ShiftSub(0, borrow, n);
    ShiftZero(n);
    ghost var owed: int := borrow;
    TruncatesBy(Value(acc[..]), Value(before) - Value(fitted), -owed, n);
    TruncatesSelf(Value(before), n);
    TruncatesAdd(Value(before), Value(before), Value(fitted), Value(other), n);
    TruncatesTwice(Value(acc[..]), Value(before) - Value(fitted), Value(before) - Value(other), n);
    TruncatesIsMod(acc[..], Value(before) - Value(other));
  }

  /** `zero()` with the low limbs copied in. */
  method CopyFitted(a: seq<u64>, n: nat) returns (acc: array<u64>)
    ensures fresh(acc) && acc[..] == Fit(a, n)
  {
    acc := new u64[n](i => LimbOf(a, i));
  }

  /** `add_trunc` to `n` limbs. */
  method AddTrunc(a: seq<u64>, b: seq<u64>, n: nat) returns (acc: array<u64>)
    ensures acc.Length == n && Value(acc[..]) == (Value(a) + Value(b)) % Weight(n)
  {
    acc := CopyFitted(a, n);
    ghost var fitted := Value(acc[..]);
    FitValue(a, n);
    AddAssignTrunc(acc, b);
    ReduceFirst(acc[..], fitted, Value(a), Value(b), n);
  }

  /** `sub_trunc` to `n` limbs. */
  method SubTrunc(a: seq<u64>, b: seq<u64>, n: nat) returns (acc: array<u64>)
    ensures acc.Length == n && Value(acc[..]) == (Value(a) - Value(b)) % Weight(n)
  {
    acc := CopyFitted(a, n);
    ghost var fitted := Value(acc[..]);
    FitValue(a, n);
    SubAssignTrunc(acc, b);
    ghost var subtrahend: int := Value(b);
    ReduceFirst(acc[..], fitted, Value(a), -subtrahend, n);
  }

  /** An operand may be reduced before the sum is. */
  lemma ReduceFirst(limbs: seq<u64>, u: int, x: int, y: int, n: nat)
    requires |limbs| == n && Truncates(u, x, n) && Value(limbs) == (u + y) % Weight(n)
    ensures Value(limbs) == (x + y) % Weight(n)
  {
    var w := Weight(n);
    var p :| u + Shift(p, n) == x;
    var q := (u + y) / w;
    assert u + y == q * w + Value(limbs);
    ShiftIsProduct(q, n);
    ShiftAdd(p, q, n);
    TruncatesBy(Value(limbs), x + y, p + q, n);
    TruncatesIsMod(limbs, x + y);
  }

  // Multiplication.

  /** The share of one limb's row in a product. */
  function Row(limb: int, i: nat, other: seq<u64>): int {
    Shift(limb * Value(other), i)
  }

  lemma NoRow(limb: int, i: nat)
    ensures Row(limb, i, []) == 0
  {
    ShiftZero(i);
    assert limb * 0 == 0;
  }

  lemma RowSnoc(limb: int, i: nat, other: seq<u64>, j: nat)
    requires j < |other|
    ensures Row(limb, i, other[..j + 1]) == Row(limb, i, other[..j]) + Shift(limb * other[j], i + j)
  {
    ValueSnoc(other, j);
    ScaleShift(limb, other[j], j);
    ScaleSum(limb, Value(other[..j + 1]), Value(other[..j]), Shift(other[j], j));
    ShiftAdd(limb * Value(other[..j]), Shift(limb * other[j], j), i);
    ShiftTwice(limb * other[j], j, i);
  }

  lemma {:induction false} ScaleShift(c: int, x: int, n: nat)
    ensures c * Shift(x, n) == Shift(c * x, n)
  {
    if n > 0 {
      ScaleShift(c, x, n - 1);
      WordProduct(c, Shift(x, n - 1));
    }
  }

  lemma ScaleSum(c: int, v: int, x: int, y: int)
    requires v == x + y
    ensures c * v == c * x + c * y && v * c == c * x + c * y
  {
  }

  /** The part of a row past limb `n` is dropped by truncation to `n` limbs. */
  lemma RowTruncates(limb: int, i: nat, other: seq<u64>, n: nat)
    requires i <= n <= i + |other|
    ensures Truncates(Row(limb, i, other[..n - i]), Row(limb, i, other), n)
  {
    var k := n - i;
    ValueSplit(other, k);
    ScaleShift(limb, Value(other[k..]), k);
    ScaleSum(limb, Value(other), Value(other[..k]), Shift(Value(other[k..]), k));
    ShiftAdd(limb * Value(other[..k]), Shift(limb * Value(other[k..]), k), i);
    ShiftTwice(limb * Value(other[k..]), k, i);
    TruncatesBy(Row(limb, i, other[..k]), Row(limb, i, other), limb * Value(other[k..]), n);
  }

  /** One partial product written into limb `i + j`. */
  lemma RowStep(acc: seq<u64>, limb: u64, i: nat, other: seq<u64>, j: nat, carry: u64, s: u64, next: u64, start: int)
    requires j < |other| && i + j < |acc| && s + WORD * next == limb * other[j] + acc[i + j] + carry
    requires Value(acc) + Shift(carry, i + j) == start + Row(limb, i, other[..j])
    ensures Value(acc[i + j := s]) + Shift(next, i + j + 1) == start + Row(limb, i, other[..j + 1])
  {
    var k, product := i + j, limb * other[j];
    RowSnoc(limb, i, other, j);
    ValueUpdate(acc, k, s);
    ShiftNext(next, k);
    ShiftAdd(s, WORD * next, k);
    ShiftAdd(product + acc[k], carry, k);
    ShiftAdd(product, acc[k], k);
  }

  lemma PropagateStep(acc: seq<u64>, k: nat, carry: u64, s: u64, next: u64, exact: int)
    requires k < |acc| && s + WORD * next == acc[k] + carry && Value(acc) + Shift(carry, k) == exact
    ensures Value(acc[k := s]) + Shift(next, k + 1) == exact
  {
    ValueUpdate(acc, k, s);
    ShiftNext(next, k);
    ShiftAdd(s, WORD * next, k);
    ShiftAdd(acc[k], carry, k);
  }

  /** `x * y + acc[k] + carry` in a double word: the low word stays in the limb. */
  method MulAddLimb(acc: array<u64>, k: nat, x: u64, y: u64, carry: u64) returns (next: u64)
    requires k < acc.Length
    modifies acc
    ensures acc[..] == old(acc[..])[k := acc[k]]
    ensures acc[k] + WORD * next == x * y + old(acc[k]) + carry
  {
    ProductFits(x, y, acc[k], carry);
    var prod: u128 := x * y + acc[k] + carry;
    acc[k], next := Low(prod), High(prod);
  }

  /** One row of `fmadd`: the products, then the carry as far as it goes. */
  method FmaddRow(acc: array<u64>, limb: u64, i: nat, b: seq<u64>)
    requires i < acc.Length
    modifies acc
    ensures Truncates(Value(acc[..]), old(Value(acc[..])) + Row(limb, i, b), acc.Length)
  {
    hide Value, Shift, Row;
    ghost var start, n := Value(acc[..]), acc.Length;
    var carry: u64 := 0;
    var limit := if |b| < acc.Length - i then |b| else acc.Length - i;
    ShiftZero(i);
    NoRow(limb, i);
    assert b[..0] == [];
    for j := 0 to limit
      invariant Value(acc[..]) + Shift(carry, i + j) == start + Row(limb, i, b[..j])
    {
      ghost var before, was := acc[..], carry;
      carry := MulAddLimb(acc, i + j, limb, b[j], carry);
      RowStep(before, limb, i, b, j, was, acc[i + j], carry, start);
    }
    var k := i + limit;
    while carry != 0 && k < acc.Length
      invariant i + limit <= k <= n
      invariant Value(acc[..]) + Shift(carry, k) == start + Row(limb, i, b[..limit])
      invariant limit < |b| ==> k == n
    {
      ghost var before, was := acc[..], carry;
      var sum: u128 := acc[k] + carry;
      acc[k], carry := Low(sum), High(sum);
      assert acc[..] == before[k := Low(sum)];
      PropagateStep(before, k, was, Low(sum), carry, start + Row(limb, i, b[..limit]));
      k := k + 1;
    }
    RowDone(Value(acc[..]), carry, k, start, limb, i, b, limit, n);
  }

  lemma RowDone(v: int, carry: int, k: nat, start: int, limb: int, i: nat, b: seq<u64>, limit: nat, n: nat)
    requires i <= n && limit == (if |b| < n - i then |b| else n - i) && k <= n && (carry == 0 || k == n)
    requires v + Shift(carry, k) == start + Row(limb, i, b[..limit])
    ensures Truncates(v, start + Row(limb, i, b), n)
  {
    var part := start + Row(limb, i, b[..limit]);
    if carry == 0 {
      ShiftZero(k);
      TruncatesSelf(v, n);
    } else {
      TruncatesBy(v, part, carry, n);
    }
    if limit == |b| {
      assert b[..limit] == b;
    } else {
      RowTruncates(limb, i, b, n);
      TruncatesSelf(start, n);
      TruncatesAdd(start, start, Row(limb, i, b[..limit]), Row(limb, i, b), n);
      TruncatesTwice(v, part, start + Row(limb, i, b), n);
    }
  }

  /** A product up to limb `i`, and the next row. */
  lemma ProductSnoc(a: seq<u64>, i: nat, b: seq<u64>)
    requires i < |a|
    ensures Value(a[..i + 1]) * Value(b) == Value(a[..i]) * Value(b) + Row(a[i], i, b)
  {
    ValueSnoc(a, i);
    ScaleShift(Value(b), a[i], i);
    assert Value(b) * a[i] == a[i] * Value(b);
    OneMoreRow(Value(a[..i + 1]), Value(a[..i]), Shift(a[i], i), Value(b), Row(a[i], i, b));
  }

  lemma OneMoreRow(next: int, before: int, limb: int, w: int, row: int)
    requires next == before + limb && w * limb == row
    ensures next * w == before * w + row
  {
  }

  lemma ProductTruncates(a: seq<u64>, b: seq<u64>, n: nat)
    requires n <= |a|
    ensures Truncates(Value(a[..n]) * Value(b), Value(a) * Value(b), n)
  {
    ValueSplit(a, n);
    ScaleSum(Value(b), Value(a), Value(a[..n]), Shift(Value(a[n..]), n));
    ScaleShift(Value(b), Value(a[n..]), n);
    TruncatesBy(Value(a[..n]) * Value(b), Value(a) * Value(b), Value(b) * Value(a[n..]), n);
  }

  /** `fmadd`: exact modulo the width, for all three widths. */
  method Fmadd(acc: array<u64>, a: seq<u64>, b: seq<u64>)
    modifies acc
    ensures Value(acc[..]) == (old(Value(acc[..])) + Value(a) * Value(b)) % Weight(acc.Length)
  {
    ghost var start, n := Value(acc[..]), acc.Length;
    var limit := if |a| < acc.Length then |a| else acc.Length;
    assert 0 * Value(b) == 0;
    TruncatesSelf(start, n);
    for i := 0 to limit
      invariant Truncates(Value(acc[..]), start + Value(a[..i]) * Value(b), n)
    {
      ghost var before := Value(acc[..]);
      FmaddRow(acc, a[i], i, b);
      ProductSnoc(a, i, b);
      AccumulateRow(before, start + Value(a[..i]) * Value(b), Row(a[i], i, b), Value(acc[..]), n);
    }
    if limit == |a| {
      assert a[..limit] == a;
    } else {
      ProductTruncates(a, b, n);
      TruncatesSelf(start, n);
      TruncatesAdd(start, start, Value(a[..n]) * Value(b), Value(a) * Value(b), n);
      TruncatesTwice(Value(acc[..]), start + Value(a[..n]) * Value(b), start + Value(a) * Value(b), n);
    }
    TruncatesIsMod(acc[..], start + Value(a) * Value(b));
  }

  lemma AccumulateRow(before: int, exact: int, row: int, after: int, n: nat)
    requires Truncates(before, exact, n) && Truncates(after, before + row, n)
    ensures Truncates(after, exact + row, n)
  {
    TruncatesSelf(row, n);
    TruncatesAdd(before, exact, row, row, n);
    TruncatesTwice(after, before + row, exact + row, n);
  }

  function WrappingAdd(x: u64, y: u64): u64 {
    (x + y) % WORD
  }

  /** How many products of row `j` land inside `n` limbs. */
  function Landed(i: nat, j: nat, n: nat): nat {
    if j >= n then 0 else if i < n - j then i else n - j
  }

  /** The products of one row of `fm_limbs_into`; those past the end are skipped. */
  method SpillProducts(a: seq<u64>, limb: u64, j: nat, acc: array<u64>) returns (carry: u64)
    modifies acc
    ensures var done := Landed(|a|, j, acc.Length);
      Value(acc[..]) + Shift(carry, j + done) == old(Value(acc[..])) + Row(limb, j, a[..done])
    ensures forall k :: |a| + j <= k < acc.Length ==> acc[k] == old(acc[k])
    ensures j >= acc.Length ==> carry == 0
  {
    ghost var start, n := Value(acc[..]), acc.Length;
    carry := 0;
    ShiftZero(j);
    assert limb * 0 == 0;
    for i := 0 to |a|
      invariant Value(acc[..]) + Shift(carry, j + Landed(i, j, n)) == start + Row(limb, j, a[..Landed(i, j, n)])
      invariant forall k :: j + i <= k < n ==> acc[k] == old(acc[k])
      invariant j >= n ==> carry == 0
    {
      var idx := j + i;
      if idx < acc.Length {
        assert Landed(i, j, n) == i && Landed(i + 1, j, n) == i + 1;
        ghost var before, was := acc[..], carry;
        carry := MulAddLimb(acc, idx, limb, a[i], carry);
        RowStep(before, limb, j, a, i, was, acc[idx], carry, start);
      }
    }
  }

  /** One row of `fm_limbs_into`. The carry is added into the spill limb without
      propagation, which is exact because that limb is still zero. */
  method SpillRow(a: seq<u64>, limb: u64, j: nat, acc: array<u64>)
    requires forall k :: |a| + j <= k < acc.Length ==> acc[k] == 0
    modifies acc
    ensures Truncates(Value(acc[..]), old(Value(acc[..])) + Row(limb, j, a), acc.Length)
    ensures forall k :: |a| + j < k < acc.Length ==> acc[k] == 0
  {
    ghost var start, n := Value(acc[..]), acc.Length;
    var carry := SpillProducts(a, limb, j, acc);
    var next := j + |a|;
    if next < acc.Length {
      assert a[..|a|] == a;
      SpillExact(acc[..], next, carry, start + Row(limb, j, a));
      ghost var before := acc[..];
      AddToZero(acc[next], carry);
      acc[next] := WrappingAdd(acc[next], carry);
      assert acc[..] == before[next := carry];
    } else {
      RowCut(Value(acc[..]), carry, start, limb, j, a, Landed(|a|, j, n), n);
    }
  }

  lemma AddToZero(x: u64, carry: u64)
    requires x == 0
    ensures WrappingAdd(x, carry) == carry
  {
  }

  /** A carry written into a zero limb. */
  lemma SpillExact(acc: seq<u64>, next: nat, carry: u64, exact: int)
    requires next < |acc| && acc[next] == 0 && Value(acc) + Shift(carry, next) == exact
    ensures Truncates(Value(acc[next := carry]), exact, |acc|)
  {
    ValueUpdate(acc, next, carry);
    ShiftZero(next);
    TruncatesSelf(exact, |acc|);
  }

  lemma RowCut(v: int, carry: int, start: int, limb: int, j: nat, a: seq<u64>, done: nat, n: nat)
    requires n <= j + |a| && done == (if j >= n then 0 else n - j) && (j >= n ==> carry == 0)
    requires v + Shift(carry, j + done) == start + Row(limb, j, a[..done])
    ensures Truncates(v, start + Row(limb, j, a), n)
  {
    if j < n {
      RowDone(v, carry, n, start, limb, j, a, done, n);
    } else {
      ShiftZero(j);
      assert limb * 0 == 0;
      ShiftTwice(limb * Value(a), j - n, n);
      TruncatesBy(v, start + Row(limb, j, a), Shift(limb * Value(a), j - n), n);
    }
  }

  lemma ZeroRow(j: nat, a: seq<u64>)
    ensures Row(0, j, a) == 0
  {
    assert 0 * Value(a) == 0;
    ShiftZero(j);
  }

  /** `fm_limbs_into`, for an accumulator whose limbs past `a` are zero. */
  method FmLimbsInto(a: seq<u64>, b: seq<u64>, acc: array<u64>)
    requires forall k :: |a| <= k < acc.Length ==> acc[k] == 0
    modifies acc
    ensures Value(acc[..]) == (old(Value(acc[..])) + Value(b) * Value(a)) % Weight(acc.Length)
  {
    ghost var start, n := Value(acc[..]), acc.Length;
    assert 0 * Value(a) == 0;
    TruncatesSelf(start, n);
    for j := 0 to |b|
      invariant forall k :: |a| + j <= k < n ==> acc[k] == 0
      invariant Truncates(Value(acc[..]), start + Value(b[..j]) * Value(a), n)
    {
      ghost var before := Value(acc[..]);
      ProductSnoc(b, j, a);
      if b[j] != 0 {
        SpillRow(a, b[j], j, acc);
        AccumulateRow(before, start + Value(b[..j]) * Value(a), Row(b[j], j, a), Value(acc[..]), n);
      } else {
        ZeroRow(j, a);
      }
    }
    assert b[..|b|] == b;
    TruncatesIsMod(acc[..], start + Value(b) * Value(a));
  }

  /** `mul_trunc` to `n` limbs. */
  method MulTrunc(a: seq<u64>, b: seq<u64>, n: nat) returns (acc: array<u64>)
    ensures fresh(acc) && acc.Length == n && Value(acc[..]) == (Value(a) * Value(b)) % Weight(n)
  {
    acc := new u64[n](_ => 0);
    ZeroValue(acc[..]);
    FmLimbsInto(a, b, acc);
    assert Value(a) * Value(b) == Value(b) * Value(a);
  }

  /** The unpropagated spill loses the carry of a full limb: with an accumulator
      that is not zero there, the row is not the exact sum. */
  lemma SpillNeedsZeroLimb()
    ensures var acc, a, b := [WORD - 1, WORD - 1, 0], [WORD - 1], [WORD - 1];
      var carry := High(a[0] * b[0] + acc[0]);
      var spilled := [Low(a[0] * b[0] + acc[0]), WrappingAdd(acc[1], carry), 0];
      Value(spilled) != (Value(acc) + Value(b) * Value(a)) % Weight(3)
  {
    var top: u64 := WORD - 1;
    ValueOfOne(top);
    ValueOfThree(top, top, 0);
    ValueOfThree(0, WORD - 2, 0);
    assert Weight(3) == WORD * WORD * WORD by {
      assert Weight(1) == WORD && Weight(2) == WORD * WORD;
    }
    var exact := Value([top, top, 0]) + Value([top]) * Value([top]);
    DivModUnique(exact, Weight(3), 0, exact);
  }

  lemma ValueOfThree(x: u64, y: u64, z: u64)
    ensures Value([x, y, z]) == x + WORD * (y + WORD * z)
  {
    assert [x, y, z][1..] == [y, z] && [y, z][1..] == [z];
    ValueOfOne(z);
  }

  // Comparison.

  datatype Ordering = Less | Equal | Greater

  function Compare(x: int, y: int): Ordering {
    if x < y then Less else if x == y then Equal else Greater
  }

  lemma TopLimbDecides(a: seq<u64>, b: seq<u64>, i: nat)
    requires |a| == |b| && i < |a| && a[i] < b[i] && a[i + 1..] == b[i + 1..]
    ensures Value(a) < Value(b)
  {
    ValueSplit(a, i + 1);
    ValueSplit(b, i + 1);
    ValueSnoc(a, i);
    ValueSnoc(b, i);
    ShiftGap(a[i], b[i], i);
  }

  lemma {:induction false} ShiftGap(x: int, y: int, n: nat)
    requires x < y
    ensures Shift(x, n) + Weight(n) <= Shift(y, n)
  {
    if n > 0 {
      ShiftGap(x, y, n - 1);
    }
  }

  /** `cmp`, from the top limb down. */
  method Cmp(a: seq<u64>, b: seq<u64>) returns (ord: Ordering)
    requires |a| == |b|
    ensures ord == Compare(Value(a), Value(b))
  {
    var i := |a|;
    while i > 0
      invariant 0 <= i <= |a| && a[i..] == b[i..]
    {
      i := i - 1;
      if a[i] < b[i] {
        TopLimbDecides(a, b, i);
        return Less;
      } else if b[i] < a[i] {
        TopLimbDecides(b, a, i);
        return Greater;
      }
    }
    assert a[0..] == a && b[0..] == b;
    ord := Equal;
  }
}
