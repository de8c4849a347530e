/** Sign-magnitude integers over limb arrays: one sign state machine over two
    magnitude families, whole limbs and limbs with a 32-bit tail. */
module Signed {
  import opened Results
  import opened IntDivision
  import opened Limbs

  const TAIL := 0x1_0000_0000

  type u32 = x: int | 0 <= x < TAIL

  function Abs(x: int): (a: nat)
    ensures a == x || a == -x
  {
    if x < 0 then -x else x
  }

  /** The integer a sign and a magnitude stand for; both zeros stand for zero. */
  function ToInt(positive: bool, magnitude: int): int {
    if positive then magnitude else -magnitude
  }

  /** What an operation with exact result `s` leaves in a value `width` wide:
      the magnitude is cut to the width, the sign is the result's own, and a
      zero result takes `zeroSign`. */
  ghost predicate Leaves(positive: bool, magnitude: nat, s: int, width: nat, zeroSign: bool)
    requires 0 < width
  {
    && magnitude == Abs(s) % width
    && positive == if s == 0 then zeroSign else s > 0
  }

  /** The result is the exact integer if and only if its magnitude fits. */
  lemma ExactIffFits(positive: bool, magnitude: nat, s: int, width: nat, zeroSign: bool)
    requires 0 < width && Leaves(positive, magnitude, s, width, zeroSign)
    ensures ToInt(positive, magnitude) == s <==> Abs(s) < width
  {
    var m := Abs(s);
    assert m % width < width;
    if m < width {
      DivModUnique(m, width, 0, m);
    }
  }

  // The state machine, on integers.

  lemma SameSigns(positive: bool, a: nat, b: nat, width: nat)
    requires 0 < width
    ensures Leaves(positive, (a + b) % width, ToInt(positive, a) + ToInt(positive, b), width, positive)
  {
  }

  lemma OppositeSigns(positive: bool, a: nat, b: nat, width: nat)
    requires b <= a < width
    ensures Leaves(positive, a - b, ToInt(positive, a) + ToInt(!positive, b), width, positive)
  {
    DivModUnique(a - b, width, 0, a - b);
  }

  lemma OppositeSignsLarger(positive: bool, a: nat, b: nat, width: nat)
    requires a < b < width
    ensures Leaves(!positive, b - a, ToInt(positive, a) + ToInt(!positive, b), width, positive)
  {
    DivModUnique(b - a, width, 0, b - a);
  }

  lemma ProductOfSigns(p: bool, a: nat, q: bool, b: nat, width: nat)
    requires 0 < width
    ensures a * b >= 0 && Leaves(p == q, (a * b) % width, ToInt(p, a) * ToInt(q, b), width, p == q)
  {
    SignsMultiply(a, b);
  }

  lemma SignsMultiply(a: int, b: int)
    requires 0 <= a && 0 <= b
    ensures a * b >= 0 && (-a) * b == -(a * b) && a * (-b) == -(a * b) && (-a) * (-b) == a * b
  {
  }

  /** Sign-aware equality: equal as integers. */
  lemma EqualAsIntegers(p: bool, a: nat, q: bool, b: nat)
    ensures (a == 0 && b == 0) || (p == q && a == b) <==> ToInt(p, a) == ToInt(q, b)
  {
  }

  /** The outcome of the sign cases of `cmp`. */
  function CompareSigned(p: bool, a: nat, q: bool, b: nat): Ordering {
    if a == 0 && b == 0 then Equal
    else if p && !q then Greater
    else if !p && q then Less
    else if p then Compare(a, b)
    else Reverse(Compare(a, b))
  }

  function Reverse(o: Ordering): Ordering {
    match o
    case Less => Greater
    case Equal => Equal
    case Greater => Less
  }

  lemma ComparedAsIntegers(p: bool, a: nat, q: bool, b: nat)
    ensures CompareSigned(p, a, q, b) == Compare(ToInt(p, a), ToInt(q, b))
  {
  }

  // Whole limbs.

  /** A copy of a `SignedBigInt`. */
  datatype SignedLimbs = SignedLimbs(limbs: seq<u64>, isPositive: bool) {
    function Int(): int {
      ToInt(isPositive, Value(limbs))
    }

    function Negate(): (r: SignedLimbs)
      ensures r.Int() == -Int()
    {
      SignedLimbs(limbs, !isPositive)
    }
  }

  class SignedBigInt {
    const magnitude: array<u64>
    var isPositive: bool

    ghost function Mag(): (m: nat)
      reads magnitude
      ensures m < Width()
    {
      Value(magnitude[..])
    }

    ghost function Width(): (w: nat)
      ensures 0 < w
    {
      Weight(magnitude.Length)
    }

    ghost function Int(): int
      reads this, magnitude
    {
      ToInt(isPositive, Mag())
    }

    constructor (value: SignedLimbs)
      ensures fresh(magnitude) && magnitude.Length == |value.limbs| && Int() == value.Int()
      ensures isPositive == value.isPositive
    {
      magnitude := new u64[|value.limbs|](i requires 0 <= i < |value.limbs| => value.limbs[i]);
      isPositive := value.isPositive;
      new;
      assert magnitude[..] == value.limbs;
    }

    method MagIsZero() returns (zero: bool)
      ensures zero <==> Mag() == 0
    {
      zero := AllZero(magnitude[..]);
    }

    method MagCmp(rhs: seq<u64>) returns (ord: Ordering)
      requires |rhs| == magnitude.Length
      ensures ord == Compare(Mag(), Value(rhs))
    {
      ord := Cmp(magnitude[..], rhs);
    }

    method MagAdd(rhs: seq<u64>)
      requires |rhs| == magnitude.Length
      modifies magnitude
      ensures Mag() == (old(Mag()) + Value(rhs)) % Width()
    {
      var overflow := AddWithCarry(magnitude, rhs);
      ShiftZero(magnitude.Length);
      DivModUnique(old(Mag()) + Value(rhs), Width(), if overflow then 1 else 0, Mag());
    }

    method MagSub(rhs: seq<u64>)
      requires |rhs| == magnitude.Length && Value(rhs) <= Mag()
      modifies magnitude
      ensures Mag() == old(Mag()) - Value(rhs)
    {
      var _ := SubWithBorrow(magnitude, rhs);
    }

    method MagMul(rhs: seq<u64>)
      requires |rhs| == magnitude.Length
      modifies magnitude
      ensures Mag() == (old(Mag()) * Value(rhs)) % Width()
    {
      var product := MulTrunc(magnitude[..], rhs, magnitude.Length);
      Overwrite(product[..]);
    }

    method Overwrite(limbs: seq<u64>)
      requires |limbs| == magnitude.Length
      modifies magnitude
      ensures magnitude[..] == limbs
    {
      forall i | 0 <= i < magnitude.Length {
        magnitude[i] := limbs[i];
      }
    }

    /** `add_assign_in_place`. */
    method AddAssign(rhs: SignedLimbs)
      requires |rhs.limbs| == magnitude.Length
      modifies this, magnitude
      ensures Leaves(isPositive, Mag(), old(Int()) + rhs.Int(), Width(), old(isPositive))
    {
      ghost var a, b, positive := Mag(), Value(rhs.limbs), isPositive;
      if isPositive == rhs.isPositive {
        MagAdd(rhs.limbs);
        SameSigns(positive, a, b, Width());
      } else {
        var ord := MagCmp(rhs.limbs);
        if ord != Less {
          MagSub(rhs.limbs);
          OppositeSigns(positive, a, b, Width());
        } else {
          var replaced := magnitude[..];
          Overwrite(rhs.limbs);
          isPositive := rhs.isPositive;
          MagSub(replaced);
          OppositeSignsLarger(positive, a, b, Width());
        }
      }
    }

    /** `sub_assign_in_place`. */
    method SubAssign(rhs: SignedLimbs)
      requires |rhs.limbs| == magnitude.Length
      modifies this, magnitude
      ensures Leaves(isPositive, Mag(), old(Int()) - rhs.Int(), Width(), old(isPositive))
    {
      AddAssign(rhs.Negate());
    }

    /** `mul_assign_in_place`. */
    method MulAssign(rhs: SignedLimbs)
      requires |rhs.limbs| == magnitude.Length
      modifies this, magnitude
      ensures Leaves(isPositive, Mag(), old(Int()) * rhs.Int(), Width(), old(isPositive) == rhs.isPositive)
    {
      ProductOfSigns(isPositive, Mag(), rhs.isPositive, Value(rhs.limbs), Width());
      isPositive := isPositive == rhs.isPositive;
      MagMul(rhs.limbs);
    }

    /** `eq`. */
    method Eq(rhs: SignedLimbs) returns (eq: bool)
      requires |rhs.limbs| == magnitude.Length
      ensures eq <==> Int() == rhs.Int()
    {
      EqualAsIntegers(isPositive, Mag(), rhs.isPositive, Value(rhs.limbs));
      var zero := MagIsZero();
      var rhsZero := AllZero(rhs.limbs);
      var ord := MagCmp(rhs.limbs);
      eq := (zero && rhsZero) || (isPositive == rhs.isPositive && ord == Equal);
    }

    /** `cmp`. */
    method Order(rhs: SignedLimbs) returns (ord: Ordering)
      requires |rhs.limbs| == magnitude.Length
      ensures ord == Compare(Int(), rhs.Int())
    {
      ComparedAsIntegers(isPositive, Mag(), rhs.isPositive, Value(rhs.limbs));
      var zero := MagIsZero();
      var rhsZero := AllZero(rhs.limbs);
      if zero && rhsZero {
        return Equal;
      }
      match (isPositive, rhs.isPositive) {
        case (true, false) => ord := Greater;
        case (false, true) => ord := Less;
        case (positive, _) =>
          var mag := MagCmp(rhs.limbs);
          ord := if positive then mag else Reverse(mag);
      }
    }

    /** `fmadd_trunc`: the product is cut to this width before it is added, so
        the sum is right whenever the product fits. */
    method FmaddTrunc(x: SignedLimbs, y: SignedLimbs)
      modifies this, magnitude
      ensures Leaves(isPositive, Mag(), old(Int()) + ProductTrunc(x, y, Width()), Width(), old(isPositive))
      ensures Abs(x.Int() * y.Int()) < Width() ==>
        Leaves(isPositive, Mag(), old(Int()) + x.Int() * y.Int(), Width(), old(isPositive))
    {
      var product := MulTruncSigned(x, y, magnitude.Length);
      AddAssign(product);
      if Abs(x.Int() * y.Int()) < Width() {
        ProductTruncExact(x, y, Width());
      }
    }
  }

  /** The signed product with its magnitude cut to the width. */
  function ProductTrunc(x: SignedLimbs, y: SignedLimbs, width: nat): int
    requires 0 < width
  {
    ToInt(x.isPositive == y.isPositive, (Value(x.limbs) * Value(y.limbs)) % width)
  }

  lemma ProductTruncExact(x: SignedLimbs, y: SignedLimbs, width: nat)
    requires 0 < width
    ensures ProductTrunc(x, y, width) == x.Int() * y.Int() <==> Abs(x.Int() * y.Int()) < width
  {
    var a, b := Value(x.limbs), Value(y.limbs);
    var same := x.isPositive == y.isPositive;
    ProductOfSigns(x.isPositive, a, y.isPositive, b, width);
    ExactIffFits(same, (a * b) % width, x.Int() * y.Int(), width, same);
  }

  /** `mul_trunc` to `n` limbs. */
  method MulTruncSigned(x: SignedLimbs, y: SignedLimbs, n: nat) returns (r: SignedLimbs)
    ensures |r.limbs| == n && r.Int() == ProductTrunc(x, y, Weight(n))
  {
    var product := MulTrunc(x.limbs, y.limbs, n);
    r := SignedLimbs(product[..], x.isPositive == y.isPositive);
  }

  method AllZero(limbs: seq<u64>) returns (zero: bool)
    ensures zero <==> Value(limbs) == 0
  {
    for i := 0 to |limbs|
      invariant forall k :: 0 <= k < i ==> limbs[k] == 0
    {
      if limbs[i] != 0 {
        NonzeroValue(limbs, i);
        return false;
      }
    }
    ZeroValue(limbs);
    zero := true;
  }

  lemma {:induction false} NonzeroValue(a: seq<u64>, i: nat)
    requires i < |a| && a[i] != 0
    ensures Value(a) > 0
  {
    if i > 0 {
      NonzeroValue(a[1..], i - 1);
    }
  }

  // Limbs with a 32-bit tail.

  /** A copy of a `SignedBigIntHi32`. */
  datatype SignedTail = SignedTail(lo: seq<u64>, hi: u32, isPositive: bool) {
    function Mag(): (m: nat) {
      TailValue(lo, hi)
    }

    function Int(): int {
      ToInt(isPositive, Mag())
    }

    function Negate(): (r: SignedTail)
      ensures r.Int() == -Int()
    {
      SignedTail(lo, hi, !isPositive)
    }

    /** `to_signed_bigint_nplus1`: the same integer in whole limbs. */
    function Widen(): (r: SignedLimbs)
      ensures |r.limbs| == |lo| + 1 && r.Int() == Int()
    {
      ValueAppend(lo, hi);
      SignedLimbs(lo + [hi as int], isPositive)
    }
  }

  function TailValue(lo: seq<u64>, hi: int): (v: int)
    ensures 0 <= hi ==> 0 <= v
  {
    ShiftZero(|lo|);
    assert 0 < hi ==> 0 < Shift(hi, |lo|) by {
      if 0 < hi {
        ShiftGap(0, hi, |lo|);
      }
    }
    Value(lo) + Shift(hi, |lo|)
  }

  function TailWidth(n: nat): (w: nat)
    ensures 0 < w
  {
    ShiftZero(n);
    ShiftGap(0, TAIL, n);
    Shift(TAIL, n)
  }

  lemma TailFits(lo: seq<u64>, hi: u32)
    ensures TailValue(lo, hi) < TailWidth(|lo|)
  {
    ShiftGap(hi, hi + 1, |lo|);
    ShiftAdd(hi, 1, |lo|);
    ShiftZero(|lo|);
    if hi + 1 < TAIL {
      ShiftGap(hi + 1, TAIL, |lo|);
    }
  }

  function WrapTail(x: int): u32 {
    x % TAIL
  }

  /** Wrapping the tail cuts the value to the width. */
  lemma TailWraps(lo: seq<u64>, exact: int)
    ensures TailValue(lo, WrapTail(exact)) == TailValue(lo, exact) % TailWidth(|lo|)
  {
    var n, hi, q := |lo|, WrapTail(exact), exact / TAIL;
    TailFits(lo, hi);
    ShiftAdd(hi, TAIL * q, n);
    ScaleShift(q, TAIL, n);
    DivModUnique(TailValue(lo, exact), TailWidth(n), q, TailValue(lo, hi));
  }

  function WrappingSub32(x: u32, y: u32): u32 {
    WrapTail(x - y)
  }

  class SignedBigIntHi32 {
    const lo: array<u64>
    var hi: u32
    var isPositive: bool

    ghost function Mag(): (m: nat)
      reads this, lo
      ensures m < Width()
    {
      TailFits(lo[..], hi);
      TailValue(lo[..], hi)
    }

    ghost function Width(): (w: nat)
      ensures 0 < w
    {
      TailWidth(lo.Length)
    }

    ghost function Int(): int
      reads this, lo
    {
      ToInt(isPositive, Mag())
    }

    constructor (value: SignedTail)
      ensures fresh(lo) && lo.Length == |value.lo| && Int() == value.Int() && isPositive == value.isPositive
    {
      lo := new u64[|value.lo|](i requires 0 <= i < |value.lo| => value.lo[i]);
      hi, isPositive := value.hi, value.isPositive;
      new;
      assert lo[..] == value.lo;
    }

    /** `mag_cmp`: the tail first, then the limbs from the top. */
    method MagCmp(rhs: SignedTail) returns (ord: Ordering)
      requires |rhs.lo| == lo.Length
      ensures ord == Compare(Mag(), rhs.Mag())
    {
      ShiftZero(lo.Length);
      if hi < rhs.hi {
        ShiftGap(hi, rhs.hi, lo.Length);
        return Less;
      } else if rhs.hi < hi {
        ShiftGap(rhs.hi, hi, lo.Length);
        return Greater;
      }
      ord := Cmp(lo[..], rhs.lo);
    }

    method MagAdd(rhs: SignedTail)
      requires |rhs.lo| == lo.Length
      modifies this, lo
      ensures isPositive == old(isPositive) && Mag() == (old(Mag()) + rhs.Mag()) % Width()
    {
      ghost var before := lo[..];
      var carry := AddLimbs(lo, rhs.lo);
      FitValue(rhs.lo, lo.Length);
      var tail: int := hi + rhs.hi + carry;
      var wrapped := WrapTail(tail);
      TailSum(before, hi, rhs.lo, rhs.hi, carry, lo[..], wrapped);
      hi := wrapped;
    }

    method MagSub(rhs: SignedTail)
      requires |rhs.lo| == lo.Length && rhs.Mag() <= Mag()
      modifies this, lo
      ensures isPositive == old(isPositive) && Mag() == old(Mag()) - rhs.Mag()
    {
      ghost var before := lo[..];
      var borrow := SubWithBorrow(lo, rhs.lo);
      var owed: u32 := if borrow then 1 else 0;
      ShiftZero(lo.Length);
      WrappedTwice(hi, rhs.hi, owed);
      var tail := WrappingSub32(WrappingSub32(hi, rhs.hi), owed);
      TailDifference(before, hi, rhs.lo, rhs.hi, owed, lo[..]);
      TailWrapsExactly(lo[..], hi - rhs.hi - owed, tail);
      hi := tail;
    }

    /** `mag_mul`. */
    method MagMul(rhs: SignedTail)
      requires |rhs.lo| == lo.Length && 2 * (lo.Length + 1) <= 16
      modifies this, lo
      ensures isPositive == old(isPositive) && Mag() == (old(Mag()) * rhs.Mag()) % Width()
    {
      var low, tail := MulTail(lo[..], hi, rhs.lo, rhs.hi);
      Overwrite(SignedTail(low, tail, isPositive));
    }

    method Overwrite(value: SignedTail)
      requires |value.lo| == lo.Length
      modifies this, lo
      ensures lo[..] == value.lo && hi == value.hi && isPositive == value.isPositive
    {
      forall i | 0 <= i < lo.Length {
        lo[i] := value.lo[i];
      }
      hi, isPositive := value.hi, value.isPositive;
    }

    /** `add_assign_in_place`. */
    method AddAssign(rhs: SignedTail)
      requires |rhs.lo| == lo.Length
      modifies this, lo
      ensures Leaves(isPositive, Mag(), old(Int()) + rhs.Int(), Width(), old(isPositive))
    {
      ghost var a, b, positive := Mag(), rhs.Mag(), isPositive;
      TailFits(rhs.lo, rhs.hi);
      if isPositive == rhs.isPositive {
        MagAdd(rhs);
        SameSigns(positive, a, b, Width());
      } else {
        var ord := MagCmp(rhs);
        if ord != Less {
          MagSub(rhs);
          OppositeSigns(positive, a, b, Width());
        } else {
          var replaced := SignedTail(lo[..], hi, isPositive);
          Overwrite(rhs);
          MagSub(replaced);
          OppositeSignsLarger(positive, a, b, Width());
        }
      }
    }

    /** `sub_assign_in_place`. */
    method SubAssign(rhs: SignedTail)
      requires |rhs.lo| == lo.Length
      modifies this, lo
      ensures Leaves(isPositive, Mag(), old(Int()) - rhs.Int(), Width(), old(isPositive))
    {
      AddAssign(rhs.Negate());
    }

    /** `mul_assign_in_place`. */
    method MulAssign(rhs: SignedTail)
      requires |rhs.lo| == lo.Length && 2 * (lo.Length + 1) <= 16
      modifies this, lo
      ensures Leaves(isPositive, Mag(), old(Int()) * rhs.Int(), Width(), old(isPositive) == rhs.isPositive)
    {
      ProductOfSigns(isPositive, Mag(), rhs.isPositive, rhs.Mag(), Width());
      isPositive := isPositive == rhs.isPositive;
      MagMul(rhs);
    }

    /** `eq`. */
    method Eq(rhs: SignedTail) returns (eq: bool)
      requires |rhs.lo| == lo.Length
      ensures eq <==> Int() == rhs.Int()
    {
      EqualAsIntegers(isPositive, Mag(), rhs.isPositive, rhs.Mag());
      var zero := TailIsZero(lo[..], hi);
      var rhsZero := TailIsZero(rhs.lo, rhs.hi);
      var ord := MagCmp(rhs);
      eq := (zero && rhsZero) || (isPositive == rhs.isPositive && ord == Equal);
    }

    /** `cmp`. */
    method Order(rhs: SignedTail) returns (ord: Ordering)
      requires |rhs.lo| == lo.Length
      ensures ord == Compare(Int(), rhs.Int())
    {
      ComparedAsIntegers(isPositive, Mag(), rhs.isPositive, rhs.Mag());
      var zero := TailIsZero(lo[..], hi);
      var rhsZero := TailIsZero(rhs.lo, rhs.hi);
      if zero && rhsZero {
        return Equal;
      }
      match (isPositive, rhs.isPositive) {
        case (true, false) => ord := Greater;
        case (false, true) => ord := Less;
        case (positive, _) =>
          var mag := MagCmp(rhs);
          ord := if positive then mag else Reverse(mag);
      }
    }
  }

  method TailIsZero(lo: seq<u64>, hi: u32) returns (zero: bool)
    ensures zero <==> TailValue(lo, hi) == 0
  {
    ShiftZero(|lo|);
    if hi != 0 {
      ShiftGap(0, hi, |lo|);
      return false;
    }
    zero := AllZero(lo);
  }

  /** The sum of two tailed magnitudes, the tail wrapped. */
  lemma TailSum(lo: seq<u64>, hi: int, rlo: seq<u64>, rhi: int, carry: int, low: seq<u64>, wrapped: u32)
    requires |lo| == |rlo| == |low| && Value(low) + Shift(carry, |lo|) == Value(lo) + Value(rlo)
    requires wrapped == WrapTail(hi + rhi + carry)
    ensures TailValue(low, wrapped) == (TailValue(lo, hi) + TailValue(rlo, rhi)) % TailWidth(|low|)
  {
    TailWraps(low, hi + rhi + carry);
    assert TailValue(low, hi + rhi + carry) == TailValue(lo, hi) + TailValue(rlo, rhi) by {
      SumAlgebra(|lo|, Value(low), Value(lo), Value(rlo), hi, rhi, carry);
    }
  }

  lemma SumAlgebra(n: nat, low: int, lo: int, rlo: int, hi: int, rhi: int, carry: int)
    requires low + Shift(carry, n) == lo + rlo
    ensures low + Shift(hi + rhi + carry, n) == (lo + Shift(hi, n)) + (rlo + Shift(rhi, n))
  {
    ShiftAdd(hi + rhi, carry, n);
    ShiftAdd(hi, rhi, n);
  }

  /** The difference of two tailed magnitudes, before the tail is wrapped. */
  lemma TailDifference(lo: seq<u64>, hi: u32, rlo: seq<u64>, rhi: u32, owed: u32, low: seq<u64>)
    requires |lo| == |rlo| == |low| && Value(low) == Value(lo) - Value(rlo) + Shift(owed, |lo|)
    ensures TailValue(low, hi - rhi - owed) == TailValue(lo, hi) - TailValue(rlo, rhi) < TailWidth(|lo|)
  {
    TailAlgebra(|lo|, Value(low), Value(lo), Value(rlo), hi, rhi, owed);
    TailFits(lo, hi);
  }

  /** A value that fits is not changed by wrapping its tail. */
  lemma TailWrapsExactly(lo: seq<u64>, tail: int, wrapped: u32)
    requires 0 <= TailValue(lo, tail) < TailWidth(|lo|) && wrapped == WrapTail(tail)
    ensures TailValue(lo, wrapped) == TailValue(lo, tail)
  {
    TailWraps(lo, tail);
    DivModUnique(TailValue(lo, tail), TailWidth(|lo|), 0, TailValue(lo, tail));
  }

  lemma TailAlgebra(n: nat, low: int, lo: int, rlo: int, hi: int, rhi: int, owed: int)
    requires low == lo - rlo + Shift(owed, n)
    ensures low + Shift(hi - rhi - owed, n) == (lo + Shift(hi, n)) - (rlo + Shift(rhi, n))
  {
    ShiftSub(hi - rhi, owed, n);
    ShiftSub(hi, rhi, n);
  }

  /** The multiplication of two tailed magnitudes: rows of whole limbs into a
      wider buffer, the last carry of each row dropped, the tail cut to its 32 bits. */
  method MulTail(alo: seq<u64>, ahi: u32, blo: seq<u64>, bhi: u32) returns (lo: seq<u64>, hi: u32)
    requires |alo| == |blo| && 2 * (|alo| + 1) <= 16
    ensures |lo| == |alo| && TailValue(lo, hi) == (TailValue(alo, ahi) * TailValue(blo, bhi)) % TailWidth(|alo|)
  {
    hide Value, Shift, Truncates, WrapTail;
    var n := |alo|;
    var prod := MulRows(alo + [ahi as int], blo + [bhi as int]);
    ValueAppend(alo, ahi);
    ValueAppend(blo, bhi);
    LowLimbs(prod, n, TailValue(alo, ahi) * TailValue(blo, bhi));
    lo, hi := prod[..n], WrapTail(prod[n]);
  }

  method MulRows(a: seq<u64>, b: seq<u64>) returns (product: seq<u64>)
    requires |a| == |b| && 2 * |a| <= 16
    ensures |product| == 16 && Truncates(Value(product), Value(a) * Value(b), |a|)
  {
    var prod := new u64[16](_ => 0);
    ZeroValue(prod[..]);
    assert 0 * Value(b) == 0;
    TruncatesSelf(0, |a|);
    for i := 0 to |a|
      invariant Truncates(Value(prod[..]), Value(a[..i]) * Value(b), |a|)
    {
      ghost var before := Value(prod[..]);
      ProductRow(prod, a[i], i, b);
      ProductSnoc(a, i, b);
      AccumulateRow(before, Value(a[..i]) * Value(b), Row(a[i], i, b), Value(prod[..]), |a|);
    }
    assert a[..|a|] == a;
    product := prod[..];
  }

  lemma WrappedTwice(x: u32, y: u32, owed: u32)
    requires owed <= 1
    ensures WrappingSub32(WrappingSub32(x, y), owed) == WrapTail(x - y - owed)
  {
  }

  /** One row of the product, its last carry dropped. */
  method ProductRow(prod: array<u64>, limb: u64, i: nat, b: seq<u64>)
    requires i + |b| <= prod.Length
    modifies prod
    ensures Truncates(Value(prod[..]), old(Value(prod[..])) + Row(limb, i, b), |b|)
  {
    ghost var start := Value(prod[..]);
    var carry: u64 := 0;
    ShiftZero(i);
    assert limb * 0 == 0;
    for j := 0 to |b|
      invariant Value(prod[..]) + Shift(carry, i + j) == start + Row(limb, i, b[..j])
    {
      ghost var before, was := prod[..], carry;
      carry := MulAddLimb(prod, i + j, limb, b[j], carry);
      RowStep(before, limb, i, b, j, was, prod[i + j], carry, start);
    }
    assert b[..|b|] == b;
    ShiftTwice(carry, i, |b|);
    TruncatesBy(Value(prod[..]), start + Row(limb, i, b), Shift(carry, i), |b|);
  }

  /** The low limbs and the wrapped tail of a buffer that is right modulo one more whole limb. */
  lemma LowLimbs(prod: seq<u64>, n: nat, exact: int)
    requires n + 1 <= |prod| && Truncates(Value(prod), exact, n + 1)
    ensures TailValue(prod[..n], WrapTail(prod[n])) == exact % TailWidth(n)
  {
    var q :| Value(prod) + Shift(q, n + 1) == exact;
    BufferSplit(prod, n);
    RestAlgebra(n, Value(prod[..n]) + Shift(prod[n], n), Value(prod[n + 1..]), q, exact);
    TailOfRest(n, prod[..n], prod[n], Value(prod[n + 1..]) + q, exact);
  }

  lemma BufferSplit(prod: seq<u64>, n: nat)
    requires n + 1 <= |prod|
    ensures Value(prod) == Value(prod[..n]) + Shift(prod[n], n) + Shift(Value(prod[n + 1..]), n + 1)
  {
    ValueSplit(prod, n + 1);
    ValueSnoc(prod, n);
  }

  lemma RestAlgebra(n: nat, low: int, high: int, q: int, exact: int)
    requires low + Shift(high, n + 1) + Shift(q, n + 1) == exact
    ensures low + Shift(high + q, n + 1) == exact
  {
    ShiftAdd(high, q, n + 1);
  }

  lemma TailOfRest(n: nat, lo: seq<u64>, x: int, rest: int, exact: int)
    requires |lo| == n && exact == Value(lo) + Shift(x, n) + Shift(rest, n + 1)
    ensures TailValue(lo, WrapTail(x)) == exact % TailWidth(n)
  {
    OneTail(lo, x, rest);
    TailWraps(lo, x + WORD * rest);
    SameTail(x, rest);
  }

  /** Everything above the low limbs, as one tail. */
  lemma OneTail(lo: seq<u64>, x: int, rest: int)
    ensures Value(lo) + Shift(x, |lo|) + Shift(rest, |lo| + 1) == TailValue(lo, x + WORD * rest)
  {
    ShiftNext(rest, |lo|);
    ShiftAdd(x, WORD * rest, |lo|);
  }

  lemma SameTail(x: int, q: int)
    ensures WrapTail(x + WORD * q) == WrapTail(x)
  {
    DivModShift(x, TAIL * q, TAIL);
    assert TAIL * q * TAIL == WORD * q;
  }

  // Conversions.

  const I64_LIMIT := 0x8000_0000_0000_0000
  const I128_LIMIT := 0x8000_0000_0000_0000_0000_0000_0000_0000

  type i64 = x: int | -I64_LIMIT <= x < I64_LIMIT
  type i128 = x: int | -I128_LIMIT <= x < I128_LIMIT

  function FromI64(value: i64, n: nat): (r: SignedLimbs)
    requires 0 < n
    ensures |r.limbs| == n
  {
    SignedLimbs(Fit([Abs(value)], n), value >= 0)
  }

  function FromU128WithSign(value: u128, positive: bool, n: nat): (r: SignedLimbs)
    requires 2 <= n
    ensures |r.limbs| == n
  {
    SignedLimbs(Fit([Low(value), High(value)], n), positive)
  }

  function FromI128(value: i128, n: nat): (r: SignedLimbs)
    requires 2 <= n
    ensures |r.limbs| == n
  {
    FromU128WithSign(Abs(value), value >= 0, n)
  }

  lemma ConversionsExact(x: i64, y: i128, n: nat)
    ensures 0 < n ==> FromI64(x, n).Int() == x
    ensures 2 <= n ==> FromI128(y, n).Int() == y
  {
    if 0 < n {
      FitValue([Abs(x)], n);
      ValueOfOne(Abs(x));
    }
    if 2 <= n {
      FitValue([Low(Abs(y)), High(Abs(y))], n);
      ValueOfTwo(Low(Abs(y)), High(Abs(y)));
    }
  }

  lemma ValueOfTwo(x: u64, y: u64)
    ensures Value([x, y]) == x + WORD * y
  {
    assert [x, y][1..] == [y];
    ValueOfOne(y);
  }

  /** `S64::to_i128`: every one-limb value fits. */
  function OneLimbToI128(s: SignedLimbs): (r: i128)
    requires |s.limbs| == 1
    ensures r == s.Int()
  {
    ValueOfOne(s.limbs[0]);
    assert s.limbs == [s.limbs[0]];
    var magnitude: int := s.limbs[0];
    if s.isPositive then magnitude else -magnitude
  }

  /** `S128::to_i128`: the value exactly when it is in range, the least one included. */
  function TwoLimbsToI128(s: SignedLimbs): (r: Option<i128>)
    requires |s.limbs| == 2
    ensures r.Some? <==> -I128_LIMIT <= s.Int() < I128_LIMIT
    ensures r.Some? ==> r.value == s.Int()
  {
    ValueOfTwo(s.limbs[0], s.limbs[1]);
    assert s.limbs == [s.limbs[0], s.limbs[1]];
    var mag: int := s.limbs[1] * WORD + s.limbs[0];
    if s.isPositive then
      if mag / I128_LIMIT == 0 then Some(mag) else None
    else if mag / I128_LIMIT == 0 then Some(-mag)
    else if mag == I128_LIMIT then Some(-I128_LIMIT) else None
  }

  /** Every `i128` survives the round trip. */
  lemma I128RoundTrip(x: i128)
    ensures TwoLimbsToI128(FromI128(x, 2)) == Some(x)
  {
    ConversionsExact(0, x, 2);
  }
}
