/** Missing values and error returns. */
module Results {
  datatype Option<+T> = None | Some(value: T)

  datatype Result<+T, +E> = Ok(value: T) | Err(error: E)
}

/** Quotients and remainders by a variable divisor, kept away from everything else. */
module IntDivision {

  lemma MulMonotone(g: int, a: int, k: int)
    requires 0 < g
    ensures g * a <= g * k <==> a <= k
  {
  }

  lemma SmallMultiple(k: int, p: int)
    requires 0 < p && -p < k * p < p
    ensures k == 0
  {
  }

  lemma DivModUnique(x: int, p: int, q: int, r: int)
    requires 0 < p && 0 <= r < p && x == q * p + r
    ensures x / p == q && x % p == r
  {
    var k := q - x / p;
    assert k * p == x % p - r by {
      assert x == (x / p) * p + x % p;
      assert (q - x / p) * p == q * p - (x / p) * p;
    }
    SmallMultiple(k, p);
  }

  /** Adding a multiple of the divisor moves the quotient and keeps the remainder. */
  lemma DivModShift(x: int, k: int, p: int)
    requires 0 < p
    ensures (x + k * p) / p == x / p + k && (x + k * p) % p == x % p
  {
    assert x + k * p == (x / p + k) * p + x % p by {
      assert x == (x / p) * p + x % p;
      assert (x / p + k) * p == (x / p) * p + k * p;
    }
    DivModUnique(x + k * p, p, x / p + k, x % p);
  }
}

/** The scalar field.

    A field element is an integer standing for its residue class: sums,
    differences and products are the integers' own, and two integers are the
    same element when `red`, the canonical reduction, sends them to the same
    value. `red` is also the canonical encoding a transcript absorbs.
    `inv` gives a representative of the inverse of a nonzero element. */
module Fields {
  import opened Results

  datatype Field = Field(red: int -> int, inv: int -> int)

  ghost predicate AddLaw(f: Field, a: int, b: int) {
    f.red(a + b) == f.red(f.red(a) + f.red(b))
  }

  ghost predicate MulLaw(f: Field, a: int, b: int) {
    f.red(a * b) == f.red(f.red(a) * f.red(b))
  }

  ghost predicate InvLaw(f: Field, a: int) {
    f.red(a) != f.red(0) ==> f.red(a * f.inv(a)) == f.red(1)
  }

  ghost predicate IdempotentLaw(f: Field, a: int) {
    f.red(f.red(a)) == f.red(a)
  }

  /** The laws of a prime field; `PrimeFieldIsField` proves them for every prime. */
  ghost predicate IsField(f: Field) {
    && f.red(0) != f.red(1)
    && (forall a, b :: AddLaw(f, a, b))
    && (forall a, b :: MulLaw(f, a, b))
    && (forall a :: InvLaw(f, a))
    && (forall a :: IdempotentLaw(f, a))
  }

  /** `x == y` in the field. */
  predicate Same(f: Field, x: int, y: int) {
    f.red(x) == f.red(y)
  }

  /** Element by element equality of two vectors over the field. */
  ghost predicate SameVec(f: Field, xs: seq<int>, ys: seq<int>) {
    && |xs| == |ys|
    && forall i :: 0 <= i < |xs| ==> Same(f, xs[i], ys[i])
  }

  /** `Field::inverse`: nothing for zero. */
  function Inverse(f: Field, a: int): Option<int> {
    if Same(f, a, 0) then None else Some(f.inv(a))
  }

  lemma SameAdd(f: Field, a: int, b: int, c: int, d: int)
    requires IsField(f) && Same(f, a, b) && Same(f, c, d)
    ensures Same(f, a + c, b + d)
  {
    assert AddLaw(f, a, c) && AddLaw(f, b, d);
  }

  lemma SameMul(f: Field, a: int, b: int, c: int, d: int)
    requires IsField(f) && Same(f, a, b) && Same(f, c, d)
    ensures Same(f, a * c, b * d)
  {
    assert MulLaw(f, a, c) && MulLaw(f, b, d);
  }

  lemma SameSub(f: Field, a: int, b: int, c: int, d: int)
    requires IsField(f) && Same(f, a, b) && Same(f, c, d)
    ensures Same(f, a - c, b - d)
  {
    SameMul(f, -1, -1, c, d);
    assert -1 * c == -c && -1 * d == -d;
    SameAdd(f, a, b, -c, -d);
    assert a + -c == a - c && b + -d == b - d;
  }

  lemma SameDifference(f: Field, a: int, b: int)
    requires IsField(f)
    ensures Same(f, a - b, 0) <==> Same(f, a, b)
  {
    if Same(f, a, b) {
      SameSub(f, a, b, b, b);
      assert b - b == 0;
    }
    if Same(f, a - b, 0) {
      SameAdd(f, a - b, 0, b, b);
      assert a - b + b == a && 0 + b == b;
    }
  }

  lemma InverseWorks(f: Field, a: int)
    requires IsField(f) && !Same(f, a, 0)
    ensures Same(f, a * f.inv(a), 1)
  {
    assert InvLaw(f, a);
  }

  /** A factor that is not zero can be cancelled: there are no zero divisors. */
  lemma Cancel(f: Field, c: int, a: int, b: int)
    requires IsField(f) && !Same(f, c, 0) && Same(f, c * a, c * b)
    ensures Same(f, a, b)
  {
    InverseWorks(f, c);
    var d := f.inv(c);
    SameMul(f, d, d, c * a, c * b);
    SameMul(f, c * d, 1, a, a);
    SameMul(f, c * d, 1, b, b);
    assert d * (c * a) == (c * d) * a && d * (c * b) == (c * d) * b;
  }

  lemma ZeroProduct(f: Field, a: int, b: int)
    requires IsField(f) && Same(f, a * b, 0) && !Same(f, a, 0)
    ensures Same(f, b, 0)
  {
    assert a * 0 == 0;
    Cancel(f, a, b, 0);
  }

  lemma NonzeroProduct(f: Field, a: int, b: int)
    requires IsField(f) && !Same(f, a, 0) && !Same(f, b, 0)
    ensures !Same(f, a * b, 0)
  {
    if Same(f, a * b, 0) {
      ZeroProduct(f, a, b);
    }
  }
}

/** The integers modulo a prime are an instance, so no law above is left open. */
module PrimeFields {
  import opened Fields
  import opened IntDivision

  ghost predicate IsPrime(p: int) {
    2 <= p && forall d :: 1 < d < p ==> p % d != 0
  }

  /** Extended Euclid: the gcd of `a` and `b` with the coefficient of `a` and of `b`. */
  function Egcd(a: nat, b: nat): (r: (nat, int, int))
    ensures r.0 == r.1 * a + r.2 * b
    decreases b
  {
    if b == 0 then (a, 1, 0)
    else
      var (g, s, t) := Egcd(b, a % b);
      assert g == s * b + t * (a % b);
      assert a == (a / b) * b + a % b;
      assert t * a == t * ((a / b) * b) + t * (a % b);
      assert t * ((a / b) * b) == (t * (a / b)) * b;
      (g, t, s - t * (a / b))
  }

  lemma {:induction false} EgcdDivides(a: nat, b: nat)
    requires 0 < a + b
    ensures var g := Egcd(a, b).0; 0 < g && a % g == 0 && b % g == 0
    decreases b
  {
    if b != 0 {
      EgcdDivides(b, a % b);
      DividesBack(a, b, Egcd(b, a % b).0);
    }
  }

  /** A divisor of `b` and of `a % b` divides `a`. */
  lemma DividesBack(a: nat, b: nat, g: nat)
    requires 0 < b && 0 < g && b % g == 0 && (a % b) % g == 0
    ensures a % g == 0
  {
    var q, x, y := a / b, b / g, (a % b) / g;
    assert b == g * x && a % b == g * y && a == q * b + a % b;
    FactorOut(q, g, x, y);
    MultipleMod(g, q * x + y);
  }

  lemma FactorOut(q: int, g: int, x: int, y: int)
    ensures q * (g * x) + g * y == g * (q * x + y)
  {
  }

  lemma MultipleMod(g: int, k: int)
    requires 0 < g
    ensures (g * k) % g == 0
  {
    assert g * k == k * g + 0;
    DivModUnique(g * k, g, k, 0);
  }

  function PrimeField(p: nat): Field
    requires 2 <= p
  {
    Field(x => x % p, x => Egcd(x % p, p).1)
  }

  lemma PrimeFieldIsField(p: nat)
    requires IsPrime(p)
    ensures IsField(PrimeField(p))
  {
    forall a, b ensures AddLaw(PrimeField(p), a, b) { PrimeAddLaw(p, a, b); }
    forall a, b ensures MulLaw(PrimeField(p), a, b) { PrimeMulLaw(p, a, b); }
    forall a ensures InvLaw(PrimeField(p), a) { PrimeInvLaw(p, a); }
    forall a ensures IdempotentLaw(PrimeField(p), a) { PrimeIdempotentLaw(p, a); }
    ZeroOneMod(p);
  }

  lemma ZeroOneMod(p: int)
    requires 2 <= p
    ensures 0 % p == 0 && 1 % p == 1
  {
    DivModUnique(0, p, 0, 0);
    DivModUnique(1, p, 0, 1);
  }

  lemma PrimeAddLaw(p: nat, a: int, b: int)
    requires 2 <= p
    ensures AddLaw(PrimeField(p), a, b)
  {
    ModAdd(a, b, p);
  }

  lemma PrimeMulLaw(p: nat, a: int, b: int)
    requires 2 <= p
    ensures MulLaw(PrimeField(p), a, b)
  {
    ModMul(a, b, p);
  }

  lemma PrimeIdempotentLaw(p: nat, a: int)
    requires 2 <= p
    ensures IdempotentLaw(PrimeField(p), a)
  {
    DivModUnique(a % p, p, 0, a % p);
  }

  lemma PrimeInvLaw(p: nat, a: int)
    requires IsPrime(p)
    ensures InvLaw(PrimeField(p), a)
  {
    ZeroOneMod(p);
    if a % p != 0 {
      PrimeInverse(p, a);
    }
  }

  lemma ModAdd(a: int, b: int, p: int)
    requires 0 < p
    ensures (a + b) % p == (a % p + b % p) % p
  {
    var x, y := a / p, b / p;
    assert a == x * p + a % p && b == y * p + b % p;
    assert (x + y) * p == x * p + y * p;
    DivModShift(a % p + b % p, x + y, p);
  }

  lemma ModMul(a: int, b: int, p: int)
    requires 0 < p
    ensures (a * b) % p == ((a % p) * (b % p)) % p
  {
    var x, y, u, v := a / p, b / p, a % p, b % p;
    ProductSplit(x, y, u, v, p);
    assert a == x * p + u && b == y * p + v;
    DivModShift(u * v, x * y * p + x * v + u * y, p);
  }

  lemma ProductSplit(x: int, y: int, u: int, v: int, p: int)
    ensures (x * p + u) * (y * p + v) == u * v + (x * y * p + x * v + u * y) * p
  {
  }

  lemma PrimeInverse(p: nat, a: int)
    requires IsPrime(p) && a % p != 0
    ensures (a * Egcd(a % p, p).1) % p == 1
  {
    var x := a % p;
    var (g, s, t) := Egcd(x, p);
    EgcdDivides(x, p);
    DivisorAtMost(x, g);
    BezoutShift(a, a / p, x, p, s, t);
    DivModShift(1, (a / p) * s - t, p);
    ZeroOneMod(p);
  }

  lemma DivisorAtMost(x: int, g: int)
    requires 0 < x && 0 < g && x % g == 0
    ensures g <= x
  {
    var k := x / g;
    assert x == g * k;
    MulMonotone(g, 1, k);
  }

  lemma BezoutShift(a: int, q: int, x: int, p: int, s: int, t: int)
    requires a == q * p + x && 1 == s * x + t * p
    ensures a * s == 1 + (q * s - t) * p
  {
    assert a * s == (q * p + x) * s == q * s * p + s * x;
  }
}
