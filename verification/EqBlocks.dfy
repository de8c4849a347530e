/** Parts of the eq table without the whole table: single entries, aligned
    blocks and the walk over them, and sums of eq over a range. */
module EqBlocks {
  import opened Results
  import opened Fields
  import opened IntDivision
  import opened Vectors
  import opened Multilinear
  import opened EqTables
  import opened EqPlusOne
  import opened RowCommitment

  // One entry.

  /** One more variable at the low end picks the entry's last bit. */
  lemma {:induction false} EqAtSnoc(r: seq<int>, x: int, index: nat)
    requires index < Pow2(|r| + 1)
    ensures |r + [x]| == |r| + 1 && index / 2 < Pow2(|r|)
    ensures EqAt(r + [x], index) == EqAt(r, index / 2) * EqWeight(x, index % 2 == 0)
  {
    EqTableSnoc(r, x);
    EqTableAt(r + [x], index);
    EqTableAt(r, index / 2);
  }

  /** The low bits of an index shifted right: one more of them. */
  lemma NextLowBits(x: nat, p: nat)
    requires 0 < p
    ensures (x % (2 * p)) / 2 == (x / 2) % p && (x % (2 * p)) % 2 == x % 2
  {
    var q, y := x / (2 * p), x % (2 * p);
    assert x == q * (2 * p) + y;
    assert x / 2 == q * p + y / 2 && x % 2 == y % 2 by {
      assert q * (2 * p) == 2 * (q * p);
    }
    DivModUnique(x / 2, p, q, y / 2);
  }

  lemma ShiftedTwice(x: nat, d: nat)
    requires 0 < d
    ensures (x / d) / 2 == x / (2 * d)
  {
    var q, y := x / (2 * d), x % (2 * d);
    assert x == q * (2 * d) + y && q * (2 * d) == (2 * q) * d;
    if y < d {
      DivModUnique(x, d, 2 * q, y);
    } else {
      DivModUnique(x, d, 2 * q + 1, y - d);
    }
  }

  /** `eq_index_msb`: the bits from the top, bits past the arity ignored. */
  method EqIndexMsb(point: seq<int>, index: nat) returns (eq: int)
    ensures eq == EqAt(point, index % Pow2(|point|))
  {
    var n := |point|;
    eq := 1;
    assert point[..0] == [];
    for i := 0 to n
      invariant eq == EqAt(point[..i], (index / Pow2(n - i)) % Pow2(i))
    {
      NextEntry(point, index, i);
      if BitOf(index, n - 1 - i) == 1 {
        eq := eq * point[i];
      } else {
        eq := eq * (1 - point[i]);
      }
    }
    assert point[..n] == point && index / 1 == index;
  }

  lemma NextEntry(point: seq<int>, index: nat, i: nat)
    requires i < |point|
    ensures var n, entry := |point|, (index / Pow2(|point| - i)) % Pow2(i);
      EqAt(point[..i + 1], (index / Pow2(n - i - 1)) % Pow2(i + 1))
        == EqAt(point[..i], entry) * EqWeight(point[i], BitOf(index, n - 1 - i) != 1)
  {
    var d := Pow2(|point| - i - 1);
    var x := index / d;
    assert Pow2(|point| - i) == 2 * d && point[..i + 1] == point[..i] + [point[i]];
    ShiftedTwice(index, d);
    NextLowBits(x, Pow2(i));
    EqAtSnoc(point[..i], point[i], x % Pow2(i + 1));
  }

  // Aligned blocks.

  /** A block of a power-of-two size, aligned to its size, is a scaled eq table
      of the low variables. */
  lemma BlockIsScaled(r: seq<int>, k: nat, p: nat)
    requires k <= |r| && p < Pow2(|r| - k)
    ensures Place(p, Pow2(k)) + Pow2(k) <= Pow2(|r|)
    ensures EqTable(r)[Place(p, Pow2(k))..Place(p, Pow2(k)) + Pow2(k)] == Scaled(EqAt(r[..|r| - k], p), r[|r| - k..])
  {
    var a, b := r[..|r| - k], r[|r| - k..];
    assert a + b == r;
    BlockFits(|r| - k, k, p);
    BlockOf(r, a, b, p, Place(p, Pow2(k)), Pow2(k));
  }

  lemma BlockOf(r: seq<int>, a: seq<int>, b: seq<int>, p: nat, start: nat, size: nat)
    requires a + b == r && p < Pow2(|a|) && size == Pow2(|b|) && start == Place(p, size) && start + size <= Pow2(|r|)
    ensures EqTable(r)[start..start + size] == Scaled(EqAt(a, p), b)
  {
    hide EqTable, EqAt, Place;
    var block, scaled := EqTable(r)[start..start + size], Scaled(EqAt(a, p), b);
    forall q | 0 <= q < size ensures block[q] == scaled[q] {
      BlockEntry(r, a, b, p, size, q);
    }
  }

  lemma BlockFits(m: nat, k: nat, p: nat)
    requires p < Pow2(m)
    ensures Place(p, Pow2(k)) + Pow2(k) <= Pow2(m + k)
  {
    TensorFits(m, k, p, Pow2(k) - 1);
  }

  lemma BlockEntry(r: seq<int>, a: seq<int>, b: seq<int>, p: nat, size: nat, q: nat)
    requires a + b == r && p < Pow2(|a|) && size == Pow2(|b|) && q < size && Place(p, size) + q < Pow2(|r|)
    ensures EqTable(r)[Place(p, size) + q] == EqAt(a, p) * EqTable(b)[q]
  {
    hide *;
    EqTensorAt(r, a, b, size, p, q);
    EqTableAt(r, Place(p, size) + q);
    EqTableAt(b, q);
  }

  /** `evals_for_aligned_block`; index bits past the arity are ignored. */
  method AlignedBlock(r: seq<int>, start: nat, blockSize: nat) returns (table: seq<int>)
    requires IsPow2(blockSize) && blockSize <= Pow2(|r|) && start % blockSize == 0
    ensures start % Pow2(|r|) + blockSize <= Pow2(|r|)
    ensures table == EqTable(r)[start % Pow2(|r|)..start % Pow2(|r|) + blockSize]
  {
    var k := Log2(blockSize);
    BlockVars(r, start, blockSize);
    var prefix, prefixValue := |r| - k, start / blockSize;
    var scale := EqIndexMsb(r[..prefix], prefixValue);
    BlockIsScaled(r, k, prefixValue % Pow2(prefix));
    table := EqTables.Evals(r[prefix..], scale);
  }

  lemma SmallMod(x: nat, p: nat)
    requires x < p
    ensures x % p == x
  {
  }

  /** The block's variables and its place among the blocks. */
  lemma BlockVars(r: seq<int>, start: nat, size: nat)
    requires IsPow2(size) && size <= Pow2(|r|) && start % size == 0
    ensures Log2(size) <= |r| && size == Pow2(Log2(size))
    ensures var m := Pow2(|r| - Log2(size));
      0 <= start / size && 0 <= (start / size) % m < m && Place((start / size) % m, size) == start % Pow2(|r|)
  {
    var k := Log2(size);
    IsPow2Log(size);
    Pow2Ordered(k, |r|);
    Pow2Add(|r| - k, k);
    hide *;
    MultipleMod(start, size, Pow2(|r| - k));
    PlaceIsProduct((start / size) % Pow2(|r| - k), size);
  }

  /** A multiple of the block size, cut to the domain, is the multiple its
      quotient is, cut to the number of blocks. */
  lemma MultipleMod(x: nat, size: nat, m: nat)
    requires 0 < size && 0 < m && x % size == 0
    ensures 0 <= x / size && 0 <= (x / size) % m < m && ((x / size) % m) * size == x % (m * size)
  {
    var q := x / size;
    var a, b := q / m, q % m;
    assert x == q * size && q == a * m + b;
    assert x == a * (m * size) + b * size by {
      assert (a * m + b) * size == a * (m * size) + b * size;
    }
    MulMonotone(size, b + 1, m);
    assert (b + 1) * size == b * size + size;
    DivModUnique(x, m * size, a, b * size);
  }

  lemma {:induction false} Pow2Ordered(m: nat, n: nat)
    requires Pow2(m) <= Pow2(n)
    ensures m <= n
    decreases m + n
  {
    if m > 0 && n > 0 {
      Pow2Ordered(m - 1, n - 1);
    }
  }

  /** The largest power of two not above `n`. */
  function FloorPow2(n: nat): (p: nat)
    requires 0 < n
    ensures IsPow2(p) && p <= n < 2 * p
  {
    if n == 1 then 1 else 2 * FloorPow2(n / 2)
  }

  /** `1 << trailing_zeros`: the largest power of two dividing `n`. */
  function LowestBit(n: nat): (p: nat)
    requires 0 < n
    ensures IsPow2(p) && 0 < p <= n
  {
    if n % 2 == 1 then 1 else 2 * LowestBit(n / 2)
  }

  /** Every smaller power of two divides it as well. */
  lemma {:induction false} AlignedTo(n: nat, size: nat)
    requires 0 < n && IsPow2(size) && size <= LowestBit(n)
    ensures n % size == 0
    decreases n
  {
    if size > 1 {
      AlignedTo(n / 2, size / 2);
      hide *;
      DoubleMultiple(n / 2, size / 2);
    }
  }

  lemma DoubleMultiple(x: nat, d: nat)
    requires 0 < d && x % d == 0
    ensures (2 * x) % (2 * d) == 0
  {
    var q := x / d;
    assert x == q * d;
    assert 2 * x == q * (2 * d) + 0;
    DivModUnique(2 * x, 2 * d, q, 0);
  }

  function Min(a: nat, b: nat): nat {
    if a < b then a else b
  }

  /** The block `evals_for_max_aligned_block` chooses: the largest power of two
      that fits and divides the start. */
  function MaxBlock(n: nat, start: nat, remaining: nat): (size: nat)
    requires 0 < remaining
    ensures IsPow2(size) && 0 < size <= remaining && start % size == 0
    ensures start < Pow2(n) ==> size <= Pow2(n)
  {
    Pow2IsPow2(n);
    var size := Min(FloorPow2(remaining), if start == 0 then Pow2(n) else LowestBit(start));
    if start > 0 then AlignedTo(start, size); size else size
  }

  /** `evals_for_max_aligned_block`. */
  method MaxAlignedBlock(r: seq<int>, start: nat, remaining: nat) returns (blockSize: nat, table: seq<int>)
    requires 0 < remaining && MaxBlock(|r|, start, remaining) <= Pow2(|r|)
    ensures blockSize == MaxBlock(|r|, start, remaining) && start % Pow2(|r|) + blockSize <= Pow2(|r|)
    ensures table == EqTable(r)[start % Pow2(|r|)..start % Pow2(|r|) + blockSize]
  {
    blockSize := MaxBlock(|r|, start, remaining);
    table := AlignedBlock(r, start, blockSize);
  }

  /** The index `j` steps after `start`, around the table's end. */
  function Around(r: seq<int>, start: nat, j: nat): (index: nat)
    ensures index < Pow2(|r|)
  {
    (start + j) % Pow2(|r|)
  }

  ghost predicate GoesAround(r: seq<int>, start: nat, slice: seq<int>) {
    forall j :: 0 <= j < |slice| ==> slice[j] == EqTable(r)[Around(r, start, j)]
  }

  /** `shifted_eq_slice`: the entries from a start on, around the table's end. */
  method ShiftedEqSlice(r: seq<int>, start: nat, len: nat) returns (slice: seq<int>)
    ensures |slice| == len && GoesAround(r, start, slice)
  {
    var domain := Pow2(|r|);
    var index, remaining := start % domain, len;
    slice := [];
    AroundStart(r, start);
    hide *;
    while remaining > 0
      invariant |slice| + remaining == len && index == Around(r, start, |slice|) && GoesAround(r, start, slice)
    {
      var span := Room(remaining, domain, index);
      SmallMod(index, domain);
      var size, block := MaxAlignedBlock(r, index, span);
      WalkNext(r, start, slice, index, size, block);
      slice := slice + block;
      index := (index + size) % domain;
      remaining := remaining - size;
    }
  }

  /** A block stops at the end of the table. */
  function Room(remaining: nat, domain: nat, index: nat): (span: nat)
    requires 0 < remaining && index < domain
    ensures 0 < span <= remaining && index + span <= domain
  {
    Min(remaining, domain - index)
  }

  lemma AroundStart(r: seq<int>, start: nat)
    ensures Around(r, start, 0) == start % Pow2(|r|) && GoesAround(r, start, [])
  {
  }

  lemma WalkNext(r: seq<int>, start: nat, slice: seq<int>, index: nat, size: nat, block: seq<int>)
    requires index == Around(r, start, |slice|) && GoesAround(r, start, slice)
    requires index + size <= Pow2(|r|) && block == EqTable(r)[index..index + size]
    ensures |slice + block| == |slice| + size && GoesAround(r, start, slice + block)
    ensures (index + size) % Pow2(|r|) == Around(r, start, |slice| + size)
  {
    hide EqTable, Around, Pow2;
    var all := slice + block;
    forall j | 0 <= j < |all| ensures all[j] == EqTable(r)[Around(r, start, j)] {
      if j >= |slice| {
        AroundStep(r, start, |slice|, j - |slice|);
      }
    }
    AroundBlock(r, start, |slice|, size);
  }

  lemma AroundBlock(r: seq<int>, start: nat, j: nat, size: nat)
    ensures (Around(r, start, j) + size) % Pow2(|r|) == Around(r, start, j + size)
  {
    AroundNext(start + j, size, Pow2(|r|));
  }

  lemma AroundStep(r: seq<int>, start: nat, j: nat, q: nat)
    requires Around(r, start, j) + q < Pow2(|r|)
    ensures Around(r, start, j + q) == Around(r, start, j) + q
  {
    AroundEnd(start + j, q, Pow2(|r|));
  }

  lemma AroundEnd(x: nat, q: nat, p: nat)
    requires 0 < p && x % p + q < p
    ensures (x + q) % p == x % p + q
  {
    var k := x / p;
    assert x + q == k * p + (x % p + q);
    DivModUnique(x + q, p, k, x % p + q);
  }

  lemma AroundNext(x: nat, size: nat, p: nat)
    requires 0 < p
    ensures (x % p + size) % p == (x + size) % p
  {
    DivModShift(x % p + size, x / p, p);
    assert x == x / p * p + x % p;
  }

  // Sums of eq over a range.

  lemma {:induction false} SumConcat(a: seq<int>, b: seq<int>)
    ensures Sum(a + b) == Sum(a) + Sum(b)
  {
    if a == [] {
      assert a + b == b;
    } else {
      assert (a + b)[1..] == a[1..] + b;
      SumConcat(a[1..], b);
    }
  }

  lemma {:induction false} SumScale(c: int, a: seq<int>)
    ensures Sum(Scale(c, a)) == c * Sum(a)
  {
    if a != [] {
      assert Scale(c, a)[1..] == Scale(c, a[1..]);
      SumScale(c, a[1..]);
      Spread(c, a[0], Sum(a[1..]));
    }
  }

  /** The whole table sums to one. */
  lemma {:induction false} SumOfEqTable(r: seq<int>)
    ensures Sum(EqTable(r)) == 1
  {
    if r != [] {
      var t := EqTable(r[1..]);
      SumOfEqTable(r[1..]);
      SumConcat(Scale(1 - r[0], t), Scale(r[0], t));
      SumScale(1 - r[0], t);
      SumScale(r[0], t);
    }
  }

  /** The entries below a bound, as one more variable is added: each pair sums
      to the entry it came from. */
  lemma {:induction false} SumBelowNext(t: seq<int>, x: int, b: nat)
    requires b <= |t|
    ensures Sum(Interleaved(t, x)[..2 * b]) == Sum(t[..b])
  {
    if b > 0 {
      SumBelowNext(t, x, b - 1);
      var d := Interleaved(t, x);
      assert d[..2 * b] == d[..2 * (b - 1)] + [d[2 * b - 2], d[2 * b - 1]] && t[..b] == t[..b - 1] + [t[b - 1]];
      SumConcat(d[..2 * (b - 1)], [d[2 * b - 2], d[2 * b - 1]]);
      SumConcat(t[..b - 1], [t[b - 1]]);
      SumTwo(d[2 * b - 2], d[2 * b - 1]);
      SumOne(t[b - 1]);
      assert t[b - 1] * (1 - x) + t[b - 1] * x == t[b - 1];
    }
  }

  lemma SumOne(x: int)
    ensures Sum([x]) == x
  {
    assert [x][1..] == [];
  }

  lemma SumTwo(x: int, y: int)
    ensures Sum([x, y]) == x + y
  {
    assert [x, y][1..] == [y];
    SumOne(y);
  }

  /** The sum of eq over the indices below a bound. */
  function SumBelow(r: seq<int>, bound: nat): int
    requires bound <= Pow2(|r|)
  {
    Sum(EqTable(r)[..bound])
  }

  lemma SumBelowStep(r: seq<int>, x: int, b: nat, bit: nat)
    requires b < Pow2(|r|) && bit <= 1
    ensures 2 * b + bit < Pow2(|r + [x]|)
    ensures SumBelow(r + [x], 2 * b + bit) == SumBelow(r, b) + (if bit == 1 then EqAt(r, b) * (1 - x) else 0)
    ensures EqAt(r + [x], 2 * b + bit) == EqAt(r, b) * EqWeight(x, bit == 0)
  {
    EqTableSnoc(r, x);
    EqAtSnoc(r, x, 2 * b + bit);
    hide *;
    SumBelowNext(EqTable(r), x, b);
    PairEntry(r, x, b);
    SumBelowIs(r, b);
    SumBelowIs(r + [x], 2 * b + bit);
    if bit == 1 {
      SumNext(Interleaved(EqTable(r), x), 2 * b);
    }
  }

  lemma SumBelowIs(r: seq<int>, bound: nat)
    requires bound <= Pow2(|r|)
    ensures SumBelow(r, bound) == Sum(EqTable(r)[..bound])
  {
  }

  lemma PairEntry(r: seq<int>, x: int, b: nat)
    requires b < Pow2(|r|)
    ensures Interleaved(EqTable(r), x)[2 * b] == EqAt(r, b) * (1 - x)
  {
    EqTableAt(r, b);
  }

  lemma SumNext(t: seq<int>, i: nat)
    requires i < |t|
    ensures Sum(t[..i + 1]) == Sum(t[..i]) + t[i]
  {
    assert t[..i + 1] == t[..i] + [t[i]];
    SumConcat(t[..i], [t[i]]);
    SumOne(t[i]);
  }

  /** `less_than_mle_msb`: the sum of eq over all indices below the bound. */
  method LessThanMle(bound: nat, point: seq<int>) returns (lt: int)
    requires bound <= Pow2(|point|)
    ensures lt == SumBelow(point, bound)
  {
    var n := |point|;
    if bound == Pow2(n) {
      SumOfEqTable(point);
      assert EqTable(point)[..bound] == EqTable(point);
      return 1;
    }
    hide *;
    lt := 0;
    var eq := 1;
    BoundStart(point, bound);
    for i := 0 to n
      invariant TopBits(bound, n, i) < Pow2(i) && |point[..i]| == i
      invariant lt == SumBelow(point[..i], TopBits(bound, n, i)) && eq == EqAt(point[..i], TopBits(bound, n, i))
    {
      BoundStep(point, bound, i);
      Unfolded(point[i], BitOf(bound, n - 1 - i), lt, eq, SumBelow(point[..i + 1], TopBits(bound, n, i + 1)),
               EqAt(point[..i + 1], TopBits(bound, n, i + 1)));
      if BitOf(bound, n - 1 - i) == 1 {
        lt := lt + eq * (1 - point[i]);
        eq := eq * point[i];
      } else {
        eq := eq * (1 - point[i]);
      }
    }
    assert point[..n] == point;
    AllBits(bound, n);
  }

  /** The top `i` of `n` bits. */
  function TopBits(index: nat, n: nat, i: nat): nat
    requires i <= n
  {
    Quotient(index, Pow2(n - i))
  }

  function Quotient(x: nat, d: nat): nat
    requires 0 < d
  {
    x / d
  }

  lemma AllBits(index: nat, n: nat)
    ensures TopBits(index, n, n) == index
  {
    assert index / 1 == index;
  }

  lemma BoundStart(point: seq<int>, bound: nat)
    requires bound < Pow2(|point|)
    ensures TopBits(bound, |point|, 0) == 0 < Pow2(0) && point[..0] == [] && SumBelow([], 0) == 0 && EqAt([], 0) == 1
  {
    DivModUnique(bound, Pow2(|point|), 0, bound);
  }

  lemma TopBitsNext(index: nat, n: nat, i: nat)
    requires i < n
    ensures TopBits(index, n, i + 1) == 2 * TopBits(index, n, i) + BitOf(index, n - 1 - i)
    ensures 0 <= BitOf(index, n - 1 - i) <= 1
  {
    ShiftedTwice(index, Pow2(n - i - 1));
  }

  /** The running sum and the running entry with one more bit. */
  ghost predicate BoundMoves(x: int, bit: int, sum: int, eq: int, nextSum: int, nextEq: int) {
    nextSum == sum + (if bit == 1 then eq * (1 - x) else 0) && nextEq == eq * (if bit == 1 then x else 1 - x)
  }

  lemma Unfolded(x: int, bit: int, sum: int, eq: int, nextSum: int, nextEq: int)
    requires BoundMoves(x, bit, sum, eq, nextSum, nextEq)
    ensures bit == 1 ==> nextSum == sum + eq * (1 - x) && nextEq == eq * x
    ensures bit != 1 ==> nextSum == sum && nextEq == eq * (1 - x)
  {
  }

  lemma BoundStep(point: seq<int>, bound: nat, i: nat)
    requires i < |point| && TopBits(bound, |point|, i) < Pow2(i)
    ensures TopBits(bound, |point|, i + 1) < Pow2(i + 1) && |point[..i]| == i && |point[..i + 1]| == i + 1
    ensures BoundMoves(point[i], BitOf(bound, |point| - 1 - i), SumBelow(point[..i], TopBits(bound, |point|, i)),
                       EqAt(point[..i], TopBits(bound, |point|, i)), SumBelow(point[..i + 1],
                                                                              TopBits(bound, |point|, i + 1)),
                       EqAt(point[..i + 1], TopBits(bound, |point|, i + 1)))
  {
    hide SumBelow, EqAt, TopBits, BitOf;
    assert point[..i + 1] == point[..i] + [point[i]];
    TopBitsNext(bound, |point|, i);
    SumBelowStep(point[..i], point[i], TopBits(bound, |point|, i), BitOf(bound, |point| - 1 - i));
  }

  datatype MleError =
    | InvalidRange(start: nat, end: nat)
    | DomainTooLarge(arity: nat)
    | RangeEndOutOfDomain(end: nat, domainSize: nat)
    | BlockVariablesExceedArity(blockVars: nat, arity: nat)
    | BlockStartUnaligned(start: nat, blockSize: nat)
    | BlockEndOutOfDomain(end: nat, domainSize: nat)

  /** `range_mask_mle_msb`: the sum of eq over the range. */
  method RangeMask(start: nat, end: nat, point: seq<int>) returns (r: Result<int, MleError>)
    ensures r.Ok? <==> start < end <= Pow2(|point|) && |point| < 128
    ensures r.Ok? ==> r.value == Sum(EqTable(point)[start..end])
  {
    if start >= end {
      return Err(InvalidRange(start, end));
    }
    if |point| >= 128 {
      return Err(DomainTooLarge(|point|));
    }
    if end > Pow2(|point|) {
      return Err(RangeEndOutOfDomain(end, Pow2(|point|)));
    }
    var high := LessThanMle(end, point);
    var low := LessThanMle(start, point);
    SumBetween(EqTable(point), start, end);
    r := Ok(high - low);
  }

  lemma SumBetween(t: seq<int>, start: nat, end: nat)
    requires start <= end <= |t|
    ensures Sum(t[start..end]) == Sum(t[..end]) - Sum(t[..start])
  {
    assert t[..end] == t[..start] + t[start..end];
    SumConcat(t[..start], t[start..end]);
  }

  /** `block_selector_mle_msb`: one entry of the prefix's table, which is the
      sum of eq over the block. */
  method BlockSelector(start: nat, blockVars: nat, point: seq<int>) returns (r: Result<int, MleError>)
    ensures r.Ok? <==> (
      && blockVars <= |point| && blockVars < 64 && |point| < 128
      && start % Pow2(blockVars) == 0 && start + Pow2(blockVars) <= Pow2(|point|))
    ensures r.Ok? ==> r.value == Sum(EqTable(point)[start..start + Pow2(blockVars)])
  {
    if blockVars > |point| {
      return Err(BlockVariablesExceedArity(blockVars, |point|));
    }
    if blockVars >= 64 {
      return Err(DomainTooLarge(blockVars));
    }
    if |point| >= 128 {
      return Err(DomainTooLarge(|point|));
    }
    var size := Pow2(blockVars);
    if start % size != 0 {
      return Err(BlockStartUnaligned(start, size));
    }
    if start + size > Pow2(|point|) {
      return Err(BlockEndOutOfDomain(start + size, Pow2(|point|)));
    }
    var prefix := |point| - blockVars;
    var value := EqIndexMsb(point[..prefix], start / size);
    SelectorSums(point, blockVars, start);
    r := Ok(value);
  }

  lemma FewerBlocks(start: nat, size: nat, m: nat, domain: nat)
    requires 0 < size && domain == m * size && start < domain
    ensures 0 <= start / size < m
  {
    var q := start / size;
    assert start == q * size + start % size;
    if m <= q {
      MulMonotone(size, m, q);
    }
  }

  lemma ScaledIs(c: int, r: seq<int>)
    ensures Scaled(c, r) == Scale(c, EqTable(r))
  {
  }

  lemma SelectorSums(point: seq<int>, k: nat, start: nat)
    requires k <= |point| && start % Pow2(k) == 0 && start + Pow2(k) <= Pow2(|point|)
    ensures var p := start / Pow2(k);
      && p < Pow2(|point| - k) && p % Pow2(|point| - k) == p
      && Sum(EqTable(point)[start..start + Pow2(k)]) == EqAt(point[..|point| - k], p)
  {
    hide Sum, EqTable, EqAt, Place, Scaled;
    var size := Pow2(k);
    var p, low := start / size, point[|point| - k..];
    Pow2IsPow2(k);
    Pow2Add(|point| - k, k);
    BlockVars(point, start, size);
    SmallMod(start, Pow2(|point|));
    FewerBlocks(start, size, Pow2(|point| - k), Pow2(|point|));
    BlockIsScaled(point, k, p);
    ScaledIs(EqAt(point[..|point| - k], p), low);
    SumScale(EqAt(point[..|point| - k], p), EqTable(low));
    SumOfEqTable(low);
    SmallMod(p, Pow2(|point| - k));
  }
}
