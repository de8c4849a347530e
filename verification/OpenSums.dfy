/** Sums of a product of two extensions over the variables that are still open. */
module OpenSums {
  import opened Results
  import opened Vectors
  import opened Multilinear

  /** `point` fixes some coordinates and leaves the others open; the sum of the
      product of the two extensions over all ways to fill the open ones with
      zeros and ones. `fixed` are the coordinates already passed. */
  function OpenSum(v: seq<int>, e: seq<int>, fixed: seq<int>, point: seq<Option<int>>): int
    requires |v| == |e| == Pow2(|fixed| + |point|)
    decreases |point|
  {
    if point == [] then Mle(v, fixed) * Mle(e, fixed)
    else
      match point[0]
      case Some(x) => OpenSum(v, e, fixed + [x], point[1..])
      case None => OpenSum(v, e, fixed + [0], point[1..]) + OpenSum(v, e, fixed + [1], point[1..])
  }

  /** Any open coordinate may be summed over first. */
  lemma {:induction false} SplitAny(v: seq<int>, e: seq<int>, fixed: seq<int>, point: seq<Option<int>>, i: nat)
    requires |v| == |e| == Pow2(|fixed| + |point|) && i < |point| && point[i].None?
    ensures OpenSum(v, e, fixed, point)
         == OpenSum(v, e, fixed, point[i := Some(0)]) + OpenSum(v, e, fixed, point[i := Some(1)])
    decreases |point|
  {
    var zero, one := point[i := Some(0)], point[i := Some(1)];
    if i == 0 {
      assert zero[1..] == point[1..] && one[1..] == point[1..];
    } else {
      var rest := point[1..];
      assert zero[1..] == rest[i - 1 := Some(0)] && one[1..] == rest[i - 1 := Some(1)];
      match point[0] {
        case Some(x) => SplitAny(v, e, fixed + [x], rest, i - 1);
        case None =>
          SplitAny(v, e, fixed + [0], rest, i - 1);
          SplitAny(v, e, fixed + [1], rest, i - 1);
      }
    }
  }

  function Values(point: seq<Option<int>>): (p: seq<int>)
    ensures |p| == |point|
  {
    seq(|point|, i requires 0 <= i < |point| => if point[i].Some? then point[i].value else 0)
  }

  /** With nothing open there is one term. */
  lemma {:induction false} NothingOpen(v: seq<int>, e: seq<int>, fixed: seq<int>, point: seq<Option<int>>)
    requires |v| == |e| == Pow2(|fixed| + |point|) && forall i :: 0 <= i < |point| ==> point[i].Some?
    ensures OpenSum(v, e, fixed, point) == Mle(v, fixed + Values(point)) * Mle(e, fixed + Values(point))
    decreases |point|
  {
    if point == [] {
      assert fixed + Values(point) == fixed;
    } else {
      var x := point[0].value;
      NothingOpen(v, e, fixed + [x], point[1..]);
      assert fixed + [x] + Values(point[1..]) == fixed + Values(point);
    }
  }
}
