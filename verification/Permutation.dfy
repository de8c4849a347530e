/** Reordering the variables of a table: the index relabelling that puts a
    table into opening-round order, and what it does to its extension. */
module Permutation {
  import opened Results
  import opened Vectors
  import opened Multilinear

  // The extension is affine in every variable.

  ghost predicate Boolean(v: seq<int>) {
    forall i :: 0 <= i < |v| ==> v[i] == 0 || v[i] == 1
  }

  lemma InterpEnds(a: int, b: int)
    ensures Interp(0, a, b) == a && Interp(1, a, b) == b
  {
  }

  lemma {:induction false} AffineIn(t: seq<int>, r: seq<int>, i: nat)
    requires |t| == Pow2(|r|) && i < |r|
    ensures Mle(t, r) == Interp(r[i], Mle(t, r[i := 0]), Mle(t, r[i := 1]))
    decreases i
  {
    var h := Pow2(|r| - 1);
    var lo, hi := t[..h], t[h..];
    MleStep(t, r);
    MleStep(t, r[i := 0]);
    MleStep(t, r[i := 1]);
    if i == 0 {
      assert r[0 := 0][1..] == r[1..] && r[0 := 1][1..] == r[1..];
      hide *;
      InterpEnds(Mle(lo, r[1..]), Mle(hi, r[1..]));
    } else {
      var tail := r[1..];
      AffineIn(lo, tail, i - 1);
      AffineIn(hi, tail, i - 1);
      assert r[i := 0][1..] == tail[i - 1 := 0] && r[i := 1][1..] == tail[i - 1 := 1];
      hide *;
      LerpExchange(r[0], r[i], Mle(lo, tail[i - 1 := 0]), Mle(hi, tail[i - 1 := 0]), Mle(lo, tail[i - 1 := 1]),
                   Mle(hi, tail[i - 1 := 1]));
    }
  }

  // Moving the variables of a point.

  /** A bijection of `n` positions, with its inverse. */
  ghost predicate Inverses(q: seq<nat>, inv: seq<nat>) {
    && |q| == |inv|
    && (forall i :: 0 <= i < |q| ==> q[i] < |q| && inv[q[i]] == i)
    && (forall j :: 0 <= j < |inv| ==> inv[j] < |q| && q[inv[j]] == j)
  }

  /** Position `i` takes what was at position `q[i]`. */
  function Move(q: seq<nat>, z: seq<int>): (y: seq<int>)
    requires |q| == |z| && forall i :: 0 <= i < |q| ==> q[i] < |z|
    ensures |y| == |z| && forall i {:trigger y[i]} :: 0 <= i < |y| ==> y[i] == z[q[i]]
  {
    seq(|q|, i requires 0 <= i < |q| => z[q[i]])
  }

  lemma MoveUpdate(q: seq<nat>, inv: seq<nat>, z: seq<int>, i: nat, x: int)
    requires Inverses(q, inv) && |q| == |z| && i < |z|
    ensures Move(q, z[i := x]) == Move(q, z)[inv[i] := x]
  {
    var a, b := Move(q, z[i := x]), Move(q, z)[inv[i] := x];
    forall j | 0 <= j < |z| ensures a[j] == b[j] {
      if q[j] == i {
        assert inv[q[j]] == j;
      }
    }
  }

  /** `p` holds at every vertex what `t` holds at the moved vertex. */
  ghost predicate Moved(p: seq<int>, t: seq<int>, q: seq<nat>) {
    && |p| == |t| == Pow2(|q|) && (forall i :: 0 <= i < |q| ==> q[i] < |q|)
    && forall v :: |v| == |q| && Boolean(v) ==> MovedAt(p, t, q, v)
  }

  ghost predicate MovedAt(p: seq<int>, t: seq<int>, q: seq<nat>, v: seq<int>)
    requires |p| == |t| == Pow2(|q|) && |v| == |q| && forall i :: 0 <= i < |q| ==> q[i] < |q|
  {
    Mle(p, v) == Mle(t, Move(q, v))
  }

  /** A table with moved variables has the moved extension: the vertices decide every point. */
  lemma {:induction false} MovedMle(p: seq<int>, t: seq<int>, q: seq<nat>, inv: seq<nat>, z: seq<int>, k: nat)
    requires Inverses(q, inv) && Moved(p, t, q) && |z| == |q| && k <= |z|
    requires Boolean(z[k..])
    ensures Mle(p, z) == Mle(t, Move(q, z))
    decreases k
  {
    if k == 0 {
      assert z[0..] == z;
      assert MovedAt(p, t, q, z);
    } else {
      var i := k - 1;
      var z0, z1 := z[i := 0], z[i := 1];
      assert z0[i..] == [0] + z[k..] && z1[i..] == [1] + z[k..];
      MovedMle(p, t, q, inv, z0, i);
      MovedMle(p, t, q, inv, z1, i);
      AffineIn(p, z, i);
      AffineIn(t, Move(q, z), inv[i]);
      MoveUpdate(q, inv, z, i, 0);
      MoveUpdate(q, inv, z, i, 1);
      assert Move(q, z)[inv[i]] == z[i];
    }
  }

  // Indices by their bits.

  /** The index with the given bits, most significant first. */
  function IndexOf(bits: seq<int>): (index: nat)
    requires Boolean(bits)
    ensures index < Pow2(|bits|)
  {
    if bits == [] then 0
    else
      assert Boolean(bits[1..]);
      bits[0] * Pow2(|bits| - 1) + IndexOf(bits[1..])
  }

  lemma {:induction false} BitsOfIndex(bits: seq<int>)
    requires Boolean(bits)
    ensures Bits(IndexOf(bits), |bits|) == bits
  {
    if bits != [] {
      assert Boolean(bits[1..]);
      BitsOfIndex(bits[1..]);
      assert bits[0] * Pow2(|bits| - 1) == if bits[0] == 1 then Pow2(|bits| - 1) else 0;
      assert bits == [bits[0]] + bits[1..];
    }
  }

  lemma {:induction false} IndexOfBits(index: nat, n: nat)
    requires index < Pow2(n)
    ensures Boolean(Bits(index, n)) && IndexOf(Bits(index, n)) == index
  {
    if n > 0 {
      var half := Pow2(n - 1);
      var low := if index < half then index else index - half;
      IndexOfBits(low, n - 1);
      assert Bits(index, n)[1..] == Bits(low, n - 1);
    }
  }

  /** Setting a clear bit adds its weight. */
  lemma {:induction false} SetBit(bits: seq<int>, k: nat)
    requires Boolean(bits) && k < |bits| && bits[|bits| - 1 - k] == 0
    ensures Boolean(bits[|bits| - 1 - k := 1])
    ensures IndexOf(bits[|bits| - 1 - k := 1]) == IndexOf(bits) + Pow2(k)
  {
    var i := |bits| - 1 - k;
    var after := bits[i := 1];
    assert Boolean(after) && Boolean(bits[1..]);
    if i == 0 {
      assert after[1..] == bits[1..];
    } else {
      SetBit(bits[1..], k);
      assert after[1..] == bits[1..][i - 1 := 1];
    }
  }

  /** `x | (bit << k)`. */
  function OrBit(x: nat, k: nat, bit: int): nat {
    if bit == 1 && BitOf(x, k) == 0 then x + Pow2(k) else x
  }

  lemma BitIsEntry(bits: seq<int>, k: nat)
    requires Boolean(bits) && k < |bits|
    ensures BitOf(IndexOf(bits), k) == bits[|bits| - 1 - k]
  {
    BitsOfIndex(bits);
    BooleanPointIsBits(IndexOf(bits), |bits|);
    assert BooleanPoint(IndexOf(bits), |bits|)[|bits| - 1 - k] == BitOf(IndexOf(bits), k);
  }

  lemma OrBitSets(bits: seq<int>, k: nat, bit: int)
    requires Boolean(bits) && k < |bits| && bits[|bits| - 1 - k] == 0 && (bit == 0 || bit == 1)
    ensures Boolean(bits[|bits| - 1 - k := bit])
    ensures OrBit(IndexOf(bits), k, bit) == IndexOf(bits[|bits| - 1 - k := bit])
  {
    BitIsEntry(bits, k);
    if bit == 1 {
      SetBit(bits, k);
    } else {
      assert bits[|bits| - 1 - k := 0] == bits;
    }
  }

  // Permuting a table.

  /** Where each most-significant-first position of the old index takes its
      bit from, for a relabelling of least-significant-first positions. */
  function BePositions(oldToNew: seq<nat>): (q: seq<nat>)
    requires forall o :: 0 <= o < |oldToNew| ==> oldToNew[o] < |oldToNew|
    ensures |q| == |oldToNew|
    ensures forall i {:trigger q[i]} :: 0 <= i < |q| ==> q[i] == |q| - 1 - oldToNew[|q| - 1 - i] < |q|
  {
    var n := |oldToNew|;
    seq(n, i requires 0 <= i < n => n - 1 - oldToNew[n - 1 - i])
  }

  lemma BePositionsInverse(oldToNew: seq<nat>, newToOld: seq<nat>)
    requires Inverses(oldToNew, newToOld)
    ensures Inverses(BePositions(oldToNew), BePositions(newToOld))
  {
    var q, inv, n := BePositions(oldToNew), BePositions(newToOld), |oldToNew|;
    forall i | 0 <= i < n ensures inv[q[i]] == i && q[inv[i]] == i {
      assert newToOld[oldToNew[n - 1 - i]] == n - 1 - i && oldToNew[newToOld[n - 1 - i]] == n - 1 - i;
    }
  }

  /** The old index that lands at `index`. */
  function OldIndex(oldToNew: seq<nat>, index: nat): (old_: nat)
    requires index < Pow2(|oldToNew|) && forall o :: 0 <= o < |oldToNew| ==> oldToNew[o] < |oldToNew|
    ensures old_ < Pow2(|oldToNew|)
  {
    IndexOfBits(index, |oldToNew|);
    var moved := Move(BePositions(oldToNew), Bits(index, |oldToNew|));
    assert Boolean(moved);
    IndexOf(moved)
  }

  /** The index map is a bijection. */
  lemma OldIndexBijective(oldToNew: seq<nat>, newToOld: seq<nat>, index: nat)
    requires Inverses(oldToNew, newToOld) && index < Pow2(|oldToNew|)
    ensures OldIndex(newToOld, OldIndex(oldToNew, index)) == index
    ensures OldIndex(oldToNew, OldIndex(newToOld, index)) == index
  {
    MoveBack(oldToNew, newToOld, index);
    MoveBack(newToOld, oldToNew, index);
  }

  lemma MoveBack(oldToNew: seq<nat>, newToOld: seq<nat>, index: nat)
    requires Inverses(oldToNew, newToOld) && index < Pow2(|oldToNew|)
    ensures OldIndex(newToOld, OldIndex(oldToNew, index)) == index
  {
    var n, q, inv := |oldToNew|, BePositions(oldToNew), BePositions(newToOld);
    BePositionsInverse(oldToNew, newToOld);
    var v := Bits(index, n);
    IndexOfBits(index, n);
    var moved := Move(q, v);
    assert Boolean(moved);
    BitsOfIndex(moved);
    assert Move(inv, moved) == v;
  }

  /** `permute_coefficients`, as a table. */
  function Permuted(table: seq<int>, oldToNew: seq<nat>): (p: seq<int>)
    requires |table| == Pow2(|oldToNew|) && forall o :: 0 <= o < |oldToNew| ==> oldToNew[o] < |oldToNew|
    ensures |p| == |table|
  {
    seq(|table|, index requires 0 <= index < |table| => table[OldIndex(oldToNew, index)])
  }

  // What a reordering leaves alone: a sum over all entries.

  /** `p` lists every position below `n` once. */
  ghost predicate ListsAll(p: seq<nat>, n: nat) {
    && |p| == n && (forall i :: 0 <= i < n ==> p[i] < n) && (forall k :: 0 <= k < n ==> k in p)
    && forall i, j :: 0 <= i < j < n ==> p[i] != p[j]
  }

  function Picked(w: seq<int>, p: seq<nat>): (r: seq<int>)
    ensures |r| == |p|
  {
    seq(|p|, i requires 0 <= i < |p| => if p[i] < |w| then w[p[i]] else 0)
  }

  /** Taking the last position out of the list leaves a list of the others. */
  lemma ListsRest(p: seq<nat>, n: nat, j: nat)
    requires 0 < n && ListsAll(p, n) && j < n && p[j] == n - 1
    ensures ListsAll(p[..j] + p[j + 1..], n - 1)
  {
    var rest := p[..j] + p[j + 1..];
    forall i | 0 <= i < n - 1 ensures rest[i] < n - 1 {
      assert rest[i] == p[if i < j then i else i + 1];
    }
    forall k | 0 <= k < n - 1 ensures k in rest {
      assert k in p;
      var i :| 0 <= i < n && p[i] == k;
      assert i != j && rest[if i < j then i else i - 1] == k;
    }
  }

  lemma {:induction false} DotPicked(v: seq<int>, e: seq<int>, p: seq<nat>)
    requires |v| == |e| && ListsAll(p, |v|)
    ensures Dot(Picked(v, p), Picked(e, p)) == Dot(v, e)
  {
    if v == [] {
      assert Picked(v, p) == [] && Picked(e, p) == [];
    } else {
      hide Picked, Dot;
      var n := |v|;
      assert n - 1 in p;
      var j :| 0 <= j < n && p[j] == n - 1;
      var a, b := p[..j], p[j + 1..];
      ListsRest(p, n, j);
      DotPicked(v[..n - 1], e[..n - 1], a + b);
      PickedAround(v, p, j);
      PickedAround(e, p, j);
      DotConcat(Picked(v, a), [v[n - 1]] + Picked(v, b), Picked(e, a), [e[n - 1]] + Picked(e, b));
      DotConcat([v[n - 1]], Picked(v, b), [e[n - 1]], Picked(e, b));
      DotConcat(Picked(v, a), Picked(v, b), Picked(e, a), Picked(e, b));
      DotSnoc(v, e, n - 1);
      assert v[..n] == v && e[..n] == e;
    }
  }

  lemma PickedAround(w: seq<int>, p: seq<nat>, j: nat)
    requires w != [] && ListsAll(p, |w|) && j < |p| && p[j] == |w| - 1
    ensures Picked(w, p) == Picked(w, p[..j]) + ([w[|w| - 1]] + Picked(w, p[j + 1..]))
    ensures Picked(w[..|w| - 1], p[..j] + p[j + 1..]) == Picked(w, p[..j]) + Picked(w, p[j + 1..])
  {
    ListsRest(p, |w|, j);
  }

  /** The inner product of two tables does not see the relabelling. */
  lemma DotPermuted(v: seq<int>, e: seq<int>, oldToNew: seq<nat>, newToOld: seq<nat>)
    requires |v| == |e| == Pow2(|oldToNew|) && Inverses(oldToNew, newToOld)
    ensures Dot(Permuted(v, oldToNew), Permuted(e, oldToNew)) == Dot(v, e)
  {
    var n := |v|;
    var p := seq(n, i requires 0 <= i < n => OldIndex(oldToNew, i));
    forall k | 0 <= k < n ensures k in p {
      OldIndexBijective(oldToNew, newToOld, k);
      assert p[OldIndex(newToOld, k)] == k;
    }
    forall i, j | 0 <= i < j < n ensures p[i] != p[j] {
      OldIndexBijective(oldToNew, newToOld, i);
      OldIndexBijective(oldToNew, newToOld, j);
    }
    DotPicked(v, e, p);
    assert Picked(v, p) == Permuted(v, oldToNew) && Picked(e, p) == Permuted(e, oldToNew);
  }

  lemma PermutedIsMoved(table: seq<int>, oldToNew: seq<nat>)
    requires |table| == Pow2(|oldToNew|) && forall o :: 0 <= o < |oldToNew| ==> oldToNew[o] < |oldToNew|
    ensures Moved(Permuted(table, oldToNew), table, BePositions(oldToNew))
  {
    var p, q := Permuted(table, oldToNew), BePositions(oldToNew);
    forall v | |v| == |q| && Boolean(v) ensures MovedAt(p, table, q, v) {
      PermutedAtVertex(table, oldToNew, v);
    }
  }

  lemma PermutedAtVertex(table: seq<int>, oldToNew: seq<nat>, v: seq<int>)
    requires |table| == Pow2(|oldToNew|) && forall o :: 0 <= o < |oldToNew| ==> oldToNew[o] < |oldToNew|
    requires |v| == |oldToNew| && Boolean(v)
    ensures Mle(Permuted(table, oldToNew), v) == Mle(table, Move(BePositions(oldToNew), v))
  {
    var moved := Move(BePositions(oldToNew), v);
    assert Boolean(moved);
    BitsOfIndex(v);
    BitsOfIndex(moved);
    var p := Permuted(table, oldToNew);
    assert p[IndexOf(v)] == table[IndexOf(moved)];
    hide *;
    MleAtVertex(p, IndexOf(v), |v|);
    MleAtVertex(table, IndexOf(moved), |v|);
  }

  /** The extension of a permuted table is the original's at the moved point. */
  lemma PermutedMle(table: seq<int>, oldToNew: seq<nat>, newToOld: seq<nat>, z: seq<int>)
    requires Inverses(oldToNew, newToOld) && |table| == Pow2(|oldToNew|) && |z| == |oldToNew|
    ensures Mle(Permuted(table, oldToNew), z) == Mle(table, Move(BePositions(oldToNew), z))
  {
    PermutedIsMoved(table, oldToNew);
    BePositionsInverse(oldToNew, newToOld);
    MovedMle(Permuted(table, oldToNew), table, BePositions(oldToNew), BePositions(newToOld), z, |z|);
  }

  /** The bits gathered after `k` rounds of the loop, the others still clear. */
  ghost predicate Gathered(bits: seq<int>, moved: seq<int>, oldToNew: seq<nat>, k: nat) {
    var n := |oldToNew|;
    && |bits| == |moved| == n && Boolean(bits) && Boolean(moved)
    && forall o :: 0 <= o < n ==> bits[n - 1 - o] == if oldToNew[o] < k then moved[n - 1 - o] else 0
  }

  lemma GatherStep(bits: seq<int>, moved: seq<int>, oldToNew: seq<nat>, newToOld: seq<nat>, k: nat)
    requires Inverses(oldToNew, newToOld) && k < |oldToNew| && Gathered(bits, moved, oldToNew, k)
    ensures var at := |oldToNew| - 1 - newToOld[k];
      bits[at] == 0 && Gathered(bits[at := moved[at]], moved, oldToNew, k + 1)
  {
    var n, at := |oldToNew|, |oldToNew| - 1 - newToOld[k];
    assert oldToNew[newToOld[k]] == k;
    var after := bits[at := moved[at]];
    forall o | 0 <= o < n ensures after[n - 1 - o] == if oldToNew[o] < k + 1 then moved[n - 1 - o] else 0 {
      if oldToNew[o] == k {
        assert o == newToOld[k];
      }
    }
  }

  lemma GatherDone(bits: seq<int>, moved: seq<int>, oldToNew: seq<nat>, newToOld: seq<nat>)
    requires Inverses(oldToNew, newToOld) && Gathered(bits, moved, oldToNew, |oldToNew|)
    ensures bits == moved
  {
    forall i | 0 <= i < |bits| ensures bits[i] == moved[i] {
      var o := |oldToNew| - 1 - i;
      assert oldToNew[o] < |oldToNew| && |oldToNew| - 1 - o == i;
    }
  }

  /** The bit of the new index that the loop moves at step `k`. */
  lemma MovedBit(index: nat, oldToNew: seq<nat>, newToOld: seq<nat>, k: nat)
    requires Inverses(oldToNew, newToOld) && k < |oldToNew| && index < Pow2(|oldToNew|)
    ensures var n := |oldToNew|;
      Move(BePositions(oldToNew), Bits(index, n))[n - 1 - newToOld[k]] == BitOf(index, k)
  {
    var n, q := |oldToNew|, BePositions(oldToNew);
    var at := n - 1 - newToOld[k];
    assert oldToNew[newToOld[k]] == k && n - 1 - at == newToOld[k];
    assert q[at] == n - 1 - k;
    hide *;
    IndexOfBits(index, n);
    BitIsEntry(Bits(index, n), k);
  }

  /** The `gather` closure: the old index is or-ed together bit by bit. */
  method Gather(index: nat, newToOld: seq<nat>, ghost oldToNew: seq<nat>) returns (old_: nat)
    requires Inverses(oldToNew, newToOld) && index < Pow2(|newToOld|)
    ensures old_ == OldIndex(oldToNew, index)
  {
    ghost var n := |newToOld|;
    ghost var moved := Move(BePositions(oldToNew), Bits(index, n));
    ghost var bits := Zeros(n);
    IndexOfBits(index, n);
    assert Boolean(moved);
    ZeroIndex(n);
    old_ := 0;
    for k := 0 to |newToOld|
      invariant Gathered(bits, moved, oldToNew, k) && old_ == IndexOf(bits)
    {
      var bit := BitOf(index, k);
      MovedBit(index, oldToNew, newToOld, k);
      GatherStep(bits, moved, oldToNew, newToOld, k);
      OrBitSets(bits, newToOld[k], bit);
      old_ := OrBit(old_, newToOld[k], bit);
      bits := bits[n - 1 - newToOld[k] := bit];
    }
    GatherDone(bits, moved, oldToNew, newToOld);
  }

  lemma {:induction false} ZeroIndex(n: nat)
    ensures Boolean(Zeros(n)) && IndexOf(Zeros(n)) == 0
  {
    if n > 0 {
      ZeroIndex(n - 1);
      assert Zeros(n)[1..] == Zeros(n - 1);
      assert 0 * Pow2(n - 1) == 0;
    }
  }

  /** `permute_coefficients`. */
  method PermuteCoefficients(table: seq<int>, oldToNew: seq<nat>, ghost inverse: seq<nat>) returns (out: seq<int>)
    requires Inverses(oldToNew, inverse) && |table| == Pow2(|oldToNew|)
    ensures out == Permuted(table, oldToNew)
  {
    var n := |oldToNew|;
    var newToOld := seq(n, _ => 0);
    for o := 0 to n
      invariant |newToOld| == n && forall k :: 0 <= k < n && inverse[k] < o ==> newToOld[k] == inverse[k]
    {
      newToOld := newToOld[oldToNew[o] := o];
    }
    assert newToOld == inverse;
    out := [];
    for index := 0 to |table|
      invariant |out| == index && forall i :: 0 <= i < index ==> out[i] == Permuted(table, oldToNew)[i]
    {
      var source := Gather(index, newToOld, oldToNew);
      out := out + [table[source]];
    }
  }

  // The relabelling that opening rounds imply.

  /** `order` lists the variables by round, and `rank` says where each is listed. */
  ghost predicate ByRound(rounds: seq<nat>, order: seq<nat>, rank: seq<nat>) {
    && |rounds| == |order| && Inverses(order, rank)
    && forall a, b :: 0 <= a < b < |order| ==> rounds[order[a]] <= rounds[order[b]]
  }

  /** `order` lists the first `n` variables once each, by round. */
  ghost predicate Listed(rounds: seq<nat>, order: seq<nat>, n: nat) {
    && |order| == n <= |rounds| && (forall k :: 0 <= k < n ==> order[k] < n)
    && (forall i :: 0 <= i < n ==> i in order)
    && (forall a, b :: 0 <= a < b < n ==> order[a] != order[b])
    && (forall a, b :: 0 <= a < b < n ==> rounds[order[a]] <= rounds[order[b]])
  }

  /** `sort_unstable_by_key`: the variables by round. */
  method SortByRound(rounds: seq<nat>) returns (order: seq<nat>)
    ensures Listed(rounds, order, |rounds|)
  {
    order := [];
    for n := 0 to |rounds|
      invariant Listed(rounds, order, n)
    {
      var at := 0;
      while at < n && rounds[order[at]] <= rounds[n]
        invariant at <= n && forall k :: 0 <= k < at ==> rounds[order[k]] <= rounds[n]
      {
        at := at + 1;
      }
      InsertListed(rounds, order, n, at);
      order := order[..at] + [n] + order[at..];
    }
  }

  lemma InsertListed(rounds: seq<nat>, order: seq<nat>, n: nat, at: nat)
    requires n < |rounds| && Listed(rounds, order, n) && at <= n
    requires forall k :: 0 <= k < at ==> rounds[order[k]] <= rounds[n]
    requires at < n ==> rounds[n] <= rounds[order[at]]
    ensures Listed(rounds, order[..at] + [n] + order[at..], n + 1)
  {
    var after := order[..at] + [n] + order[at..];
    forall k | 0 <= k <= n ensures after[k] == if k < at then order[k] else if k == at then n else order[k - 1] {
    }
    ListedEach(order, n, at, after);
    forall a, b | 0 <= a < b <= n ensures rounds[after[a]] <= rounds[after[b]] {
      var x, y := if a < at then a else a - 1, if b < at then b else b - 1;
      if a != at && b != at {
        assert order[x] == after[a] && order[y] == after[b];
      } else if b == at {
        assert order[x] == after[a];
      } else {
        assert order[y] == after[b] && rounds[order[at]] <= rounds[order[y]];
      }
    }
  }

  lemma ListedEach(order: seq<nat>, n: nat, at: nat, after: seq<nat>)
    requires |order| == n && at <= n && after == order[..at] + [n] + order[at..]
    requires (forall k :: 0 <= k < n ==> order[k] < n) && (forall i :: 0 <= i < n ==> i in order)
    requires forall a, b :: 0 <= a < b < n ==> order[a] != order[b]
    ensures (forall k :: 0 <= k <= n ==> after[k] <= n) && (forall i :: 0 <= i <= n ==> i in after)
    ensures forall a, b :: 0 <= a < b <= n ==> after[a] != after[b]
  {
    forall i | 0 <= i <= n ensures i in after {
      if i == n {
        assert after[at] == n;
      } else {
        assert i in order;
        var k :| 0 <= k < n && order[k] == i;
        assert after[if k < at then k else k + 1] == i;
      }
    }
  }

  /** The relabelling, least significant first. */
  function OldToNew(rank: seq<nat>): (r: seq<nat>)
    ensures |r| == |rank|
  {
    seq(|rank|, o requires 0 <= o < |rank| => rank[|rank| - 1 - o])
  }

  function NewToOld(order: seq<nat>): (r: seq<nat>)
    ensures |r| == |order|
  {
    seq(|order|, k requires 0 <= k < |order| => if order[k] < |order| then |order| - 1 - order[k] else 0)
  }

  lemma RelabelInverse(order: seq<nat>, rank: seq<nat>)
    requires Inverses(order, rank)
    ensures Inverses(OldToNew(rank), NewToOld(order))
  {
    var n, old_, new_ := |order|, OldToNew(rank), NewToOld(order);
    forall o | 0 <= o < n ensures new_[old_[o]] == o && old_[new_[o]] == o {
      assert order[rank[n - 1 - o]] == n - 1 - o && rank[order[o]] == o;
    }
  }

  function Identity(n: nat): (r: seq<nat>)
    ensures |r| == n && forall i :: 0 <= i < n ==> r[i] == i
  {
    seq(n, i => i)
  }

  /** `lsb_permutation`: nothing when the relabelling is the identity. */
  method LsbPermutation(rounds: seq<nat>)
    returns (result: Option<seq<nat>>, ghost order: seq<nat>, ghost rank: seq<nat>)
    ensures ByRound(rounds, order, rank)
    ensures result == if OldToNew(rank) == Identity(|rounds|) then None else Some(OldToNew(rank))
  {
    var n := |rounds|;
    var byRound := SortByRound(rounds);
    var relabel: seq<nat> := seq(n, _ => 0);
    for k := 0 to n
      invariant |relabel| == n && forall j :: 0 <= j < k ==> relabel[n - 1 - byRound[j]] == j
    {
      relabel := relabel[n - 1 - byRound[k] := k];
    }
    order, rank := byRound, Turned(relabel);
    RanksInvert(rounds, order, relabel);
    var moved := AnyMoved(relabel);
    result := if moved then Some(relabel) else None;
  }

  /** Least significant first is big endian read backwards. */
  function Turned(relabel: seq<nat>): (rank: seq<nat>)
    ensures |rank| == |relabel|
  {
    seq(|relabel|, i requires 0 <= i < |relabel| => relabel[|relabel| - 1 - i])
  }

  lemma RanksInvert(rounds: seq<nat>, order: seq<nat>, relabel: seq<nat>)
    requires Listed(rounds, order, |rounds|) && |relabel| == |rounds|
    requires forall j :: 0 <= j < |order| ==> relabel[|order| - 1 - order[j]] == j
    ensures Inverses(order, Turned(relabel)) && OldToNew(Turned(relabel)) == relabel
  {
    var n, rank := |rounds|, Turned(relabel);
    forall k | 0 <= k < n ensures rank[order[k]] == k {
      assert relabel[n - 1 - order[k]] == k;
    }
    forall i | 0 <= i < n ensures rank[i] < n && order[rank[i]] == i {
      assert i in order;
      var k :| 0 <= k < n && order[k] == i;
    }
  }

  method AnyMoved(relabel: seq<nat>) returns (moved: bool)
    ensures moved <==> relabel != Identity(|relabel|)
  {
    for o := 0 to |relabel|
      invariant forall k :: 0 <= k < o ==> relabel[k] == k
    {
      if o != relabel[o] {
        return true;
      }
    }
    moved := false;
  }

  lemma PermutedIdentity(table: seq<int>, n: nat)
    requires |table| == Pow2(n)
    ensures Permuted(table, Identity(n)) == table
  {
    var p, q := Permuted(table, Identity(n)), BePositions(Identity(n));
    forall index | 0 <= index < |table| ensures p[index] == table[index] {
      IndexOfBits(index, n);
      assert Move(q, Bits(index, n)) == Bits(index, n);
    }
  }

  /** One table of `permute_tables`. */
  method PermuteWith(table: seq<int>, relabel: Option<seq<nat>>, ghost order: seq<nat>, ghost rank: seq<nat>)
    returns (out: seq<int>)
    requires Inverses(OldToNew(rank), NewToOld(order)) && |table| == Pow2(|rank|)
    requires relabel == if OldToNew(rank) == Identity(|rank|) then None else Some(OldToNew(rank))
    ensures out == Permuted(table, OldToNew(rank))
  {
    match relabel {
      case Some(oldToNew) =>
        out := PermuteCoefficients(table, oldToNew, NewToOld(order));
      case None =>
        out := table;
        PermutedIdentity(table, |rank|);
    }
  }

  // Binding a permuted table, lowest variable first.

  function Reverse(c: seq<int>): (r: seq<int>)
    ensures |r| == |c| && forall i {:trigger r[i]} :: 0 <= i < |r| ==> r[i] == c[|c| - 1 - i]
  {
    seq(|c|, i requires 0 <= i < |c| => c[|c| - 1 - i])
  }

  /** Bound by a list of challenges, the lowest variable first. */
  function BoundLow(t: seq<int>, n: nat, c: seq<int>): (b: seq<int>)
    requires |t| == Pow2(n) && |c| <= n
    ensures |b| == Pow2(n - |c|)
    decreases |c|
  {
    if c == [] then t
    else
      var k := |c| - 1;
      EvenDouble(Pow2(n - |c|));
      BindLow(BoundLow(t, n, c[..k]), c[k])
  }

  lemma {:induction false} BoundLowMle(t: seq<int>, n: nat, c: seq<int>, rest: seq<int>)
    requires |t| == Pow2(n) && |c| + |rest| == n
    ensures Mle(BoundLow(t, n, c), rest) == Mle(t, rest + Reverse(c))
    decreases |c|
  {
    if c == [] {
      assert rest + Reverse(c) == rest;
    } else {
      var k := |c| - 1;
      EvenDouble(Pow2(n - |c|));
      MleBindLow(BoundLow(t, n, c[..k]), c[k], rest);
      BoundLowMle(t, n, c[..k], rest + [c[k]]);
      assert rest + [c[k]] + Reverse(c[..k]) == rest + Reverse(c);
    }
  }

  /** Every variable at the challenge of its place in the round order. */
  function ByRank(c: seq<int>, rank: seq<nat>): (point: seq<int>)
    requires |c| == |rank| && forall i :: 0 <= i < |rank| ==> rank[i] < |c|
    ensures |point| == |rank|
  {
    seq(|rank|, i requires 0 <= i < |rank| => c[rank[i]])
  }

  /** Permuted into round order and bound lowest variable first, a table ends
      on its own extension where each variable has the challenge of its round rank. */
  lemma PermutedThenBound(table: seq<int>, order: seq<nat>, rank: seq<nat>, c: seq<int>)
    requires Inverses(order, rank) && Inverses(OldToNew(rank), NewToOld(order))
    requires |c| == |rank| && |table| == Pow2(|rank|)
    ensures BoundLow(Permuted(table, OldToNew(rank)), |rank|, c) == [Mle(table, ByRank(c, rank))]
  {
    var n, old_ := |rank|, OldToNew(rank);
    RelabelledPoint(order, rank, c);
    hide *;
    BoundLowMle(Permuted(table, old_), n, c, []);
    assert [] + Reverse(c) == Reverse(c);
    PermutedMle(table, old_, NewToOld(order), Reverse(c));
    var b := BoundLow(Permuted(table, old_), n, c);
    LastEntry(b);
  }

  lemma LastEntry(b: seq<int>)
    requires |b| == Pow2(0)
    ensures b == [Mle(b, [])]
  {
  }

  lemma RelabelledPoint(order: seq<nat>, rank: seq<nat>, c: seq<int>)
    requires Inverses(order, rank) && Inverses(OldToNew(rank), NewToOld(order)) && |c| == |rank|
    ensures Move(BePositions(OldToNew(rank)), Reverse(c)) == ByRank(c, rank)
  {
    var n, old_, q := |rank|, OldToNew(rank), BePositions(OldToNew(rank));
    forall i | 0 <= i < n ensures Reverse(c)[q[i]] == c[rank[i]] {
      assert q[i] == n - 1 - old_[n - 1 - i] == n - 1 - rank[i];
    }
  }
}
