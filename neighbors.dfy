/**
 * The neighbour table (`Neighbors`) of the delta measurements and the local
 * order parameter delta computed from it. Row `i` keeps the neighbours of ring
 * `i` and their distances when the measurement started; delta compares those
 * distances with the current ones.
 */
module NeighborTable {
  import opened Wrappers
  import opened Numeric

  class Neighbors {
    const numMaxRings: nat
    const numMaxNeighs: nat
    var nb: array2<int>
    var ds: array2<real>
    var neighCount: array<int>
    var rowMask: array<bool>
    var numRows: int

    /** Every buffer has the table's shape and every row count fits its row. */
    ghost predicate Valid()
      reads this, neighCount
    {
      nb.Length0 == numMaxRings && nb.Length1 == numMaxNeighs &&
      ds.Length0 == numMaxRings && ds.Length1 == numMaxNeighs &&
      neighCount.Length == numMaxRings && rowMask.Length == numMaxRings &&
      forall k :: 0 <= k < numMaxRings ==> 0 <= neighCount[k] <= numMaxNeighs
    }

    /** `rings_neighs(i)`: the first `neigh_count[i]` entries of row `i`. */
    function RingsNeighs(i: int): (r: seq<int>)
      requires Valid() && 0 <= i < numMaxRings
      reads this, nb, neighCount
    {
      var a, c := nb, neighCount[i];
      seq(c, j requires 0 <= j < c reads a => a[i, j])
    }

    /** `dists(i)`: the first `neigh_count[i]` distances of row `i`. */
    function Dists(i: int): (r: seq<real>)
      requires Valid() && 0 <= i < numMaxRings
      reads this, ds, neighCount
    {
      var a, c := ds, neighCount[i];
      seq(c, j requires 0 <= j < c reads a => a[i, j])
    }

    /** A zeroed table with no rows in use. */
    constructor (rows: nat, cols: nat)
      ensures Valid() && numMaxRings == rows && numMaxNeighs == cols
      ensures fresh(nb) && fresh(ds) && fresh(neighCount) && fresh(rowMask)
      ensures numRows == 0 && forall k :: 0 <= k < rows ==> neighCount[k] == 0 && !rowMask[k]
      ensures forall k, j :: 0 <= k < rows && 0 <= j < cols ==> nb[k, j] == 0 && ds[k, j] == 0.0
    {
      numMaxRings, numMaxNeighs := rows, cols;
      nb := new int[rows, cols]((_, _) => 0);
      ds := new real[rows, cols]((_, _) => 0.0);
      neighCount := new int[rows](_ => 0);
      rowMask := new bool[rows](_ => false);
      numRows := 0;
    }

    /**
     * `update(i, neighs, dists)`: writes the neighbours and distances at the head
     * of row `i`, leaving the rest of the row as it was, records their number,
     * marks the row and counts it. A row index past the table raises IndexError
     * and a list longer than a row raises ValueError, both before any write.
     */
    method Update(i: nat, neighs: seq<int>, dists: seq<real>) returns (r: Result<()>)
      requires Valid() && |dists| == |neighs|
      modifies this, nb, ds, neighCount, rowMask
      ensures Valid() && nb == old(nb) && ds == old(ds)
      ensures neighCount == old(neighCount) && rowMask == old(rowMask)
      ensures r.Err? <==> i >= numMaxRings || |neighs| > numMaxNeighs
      ensures r.Err? ==> r.error == (if i >= numMaxRings then IndexError else ValueError)
      ensures r.Err? ==> unchanged(this, nb, ds, neighCount, rowMask)
      ensures r.Ok? ==>
        (forall k, j :: 0 <= k < numMaxRings && 0 <= j < numMaxNeighs ==>
          nb[k, j] == (if k == i && j < |neighs| then neighs[j] else old(nb[k, j])) &&
          ds[k, j] == (if k == i && j < |neighs| then dists[j] else old(ds[k, j]))) &&
        neighCount[..] == old(neighCount[..])[i := |neighs|] &&
        rowMask[..] == old(rowMask[..])[i := true] && numRows == old(numRows) + 1
      ensures r.Ok? ==> RingsNeighs(i) == neighs && Dists(i) == dists
      ensures r.Ok? ==> forall k :: 0 <= k < numMaxRings && k != i ==>
        RingsNeighs(k) == old(RingsNeighs(k)) && Dists(k) == old(Dists(k))
    {
      if i >= numMaxRings {
        return Err(IndexError);
      }
      if |neighs| > numMaxNeighs {
        return Err(ValueError);
      }
      var n := |neighs|;
      forall j | 0 <= j < n {
        nb[i, j] := neighs[j];
      }
      forall j | 0 <= j < n {
        ds[i, j] := dists[j];
      }
      neighCount[i] := n;
      rowMask[i] := true;
      numRows := numRows + 1;
      r := Ok(());
    }

    /** `reset`: no row in use; the stored rows and their counts stay. */
    method Reset()
      requires Valid()
      modifies this, rowMask
      ensures Valid() && rowMask == old(rowMask) && numRows == 0
      ensures nb == old(nb) && ds == old(ds) && neighCount == old(neighCount)
      ensures forall k :: 0 <= k < rowMask.Length ==> !rowMask[k]
    {
      numRows := 0;
      forall k | 0 <= k < rowMask.Length {
        rowMask[k] := false;
      }
    }
  }

  /** Squared distance between two centres. */
  function SqDist(a: Point, b: Point): real
  {
    SqNorm(Sub(a, b))
  }

  /** The neighbours of ring `i` are ring slots of `cms`, one recorded distance each. */
  predicate RowFits(cms: seq<Point>, i: int, nbs: seq<int>, d0: seq<real>)
  {
    0 <= i < |cms| && |d0| == |nbs| && forall k :: 0 <= k < |nbs| ==> 0 <= nbs[k] < |cms|
  }

  /** No neighbour sits on the ring's centre. */
  predicate Apart(cms: seq<Point>, i: int, nbs: seq<int>)
    requires 0 <= i < |cms| && forall k :: 0 <= k < |nbs| ==> 0 <= nbs[k] < |cms|
  {
    forall k :: 0 <= k < |nbs| ==> SqDist(cms[nbs[k]], cms[i]) != 0.0
  }

  /** The terms d0^2 / d^2: each recorded distance squared over the current one squared. */
  function Ratios(cms: seq<Point>, i: int, nbs: seq<int>, d0: seq<real>): (r: seq<real>)
    requires RowFits(cms, i, nbs, d0) && Apart(cms, i, nbs)
    ensures |r| == |nbs|
    ensures forall k :: 0 <= k < |nbs| ==> r[k] == d0[k] * d0[k] / SqDist(cms[nbs[k]], cms[i])
  {
    seq(|nbs|, k requires 0 <= k < |nbs| => d0[k] * d0[k] / SqDist(cms[nbs[k]], cms[i]))
  }

  /**
   * Delta of ring `i`: one minus the mean of d0^2/d^2 over its neighbours. A ring
   * without neighbours (0/0) or with a neighbour on its centre (x/0) has no finite
   * delta, which is `None`.
   */
  function RingDelta(cms: seq<Point>, i: int, nbs: seq<int>, d0: seq<real>): (r: Option<real>)
    requires RowFits(cms, i, nbs, d0)
    ensures r.Some? <==> |nbs| > 0 && Apart(cms, i, nbs)
  {
    if |nbs| == 0 || !Apart(cms, i, nbs) then None
    else Some(1.0 - Sum(Ratios(cms, i, nbs, d0)) / |nbs| as real)
  }

  lemma {:induction false} SumConst(s: seq<real>, c: real)
    requires forall k :: 0 <= k < |s| ==> s[k] == c
    ensures Sum(s) == |s| as real * c
  {
    if s != [] {
      SumConst(s[..|s| - 1], c);
    }
  }

  lemma {:induction false} SumNonNeg(s: seq<real>)
    requires forall k :: 0 <= k < |s| ==> s[k] >= 0.0
    ensures Sum(s) >= 0.0
  {
    if s != [] {
      SumNonNeg(s[..|s| - 1]);
    }
  }

  lemma {:induction false} SumAtMostOne(s: seq<real>)
    requires forall k :: 0 <= k < |s| ==> s[k] <= 1.0
    ensures Sum(s) <= |s| as real
  {
    if s != [] {
      SumAtMostOne(s[..|s| - 1]);
    }
  }

  /** Every neighbour still at its recorded distance: delta is exactly zero. */
  lemma RingDeltaUndisturbed(cms: seq<Point>, i: int, nbs: seq<int>, d0: seq<real>)
    requires RowFits(cms, i, nbs, d0) && |nbs| > 0
    requires forall k :: 0 <= k < |nbs| ==> d0[k] != 0.0 && SqDist(cms[nbs[k]], cms[i]) == d0[k] * d0[k]
    ensures RingDelta(cms, i, nbs, d0) == Some(0.0)
  {
    assert Apart(cms, i, nbs) by {
      forall k | 0 <= k < |nbs|
        ensures SqDist(cms[nbs[k]], cms[i]) != 0.0
      {
        NonZeroSq(SqDist(cms[nbs[k]], cms[i]), d0[k]);
      }
    }
    var rs := Ratios(cms, i, nbs, d0);
    forall k | 0 <= k < |rs|
      ensures rs[k] == 1.0
    {
      SqPos(d0[k]);
      SelfQuot(d0[k] * d0[k]);
    }
    SumConst(rs, 1.0);
    SelfQuot(|nbs| as real);
  }

  /** Delta never exceeds one. */
  lemma RingDeltaAtMostOne(cms: seq<Point>, i: int, nbs: seq<int>, d0: seq<real>)
    requires RowFits(cms, i, nbs, d0)
    ensures var r := RingDelta(cms, i, nbs, d0); r.Some? ==> r.value <= 1.0
  {
    if |nbs| > 0 && Apart(cms, i, nbs) {
      var rs := Ratios(cms, i, nbs, d0);
      forall k | 0 <= k < |rs|
        ensures rs[k] >= 0.0
      {
        SqNonNeg(Sub(cms[nbs[k]], cms[i]));
        SqNonNegR(d0[k]);
        QuotNonNeg(d0[k] * d0[k], SqDist(cms[nbs[k]], cms[i]));
      }
      SumNonNeg(rs);
      QuotNonNeg(Sum(rs), |nbs| as real);
    }
  }

  /** Delta is not negative when no neighbour came closer than its recorded distance. */
  lemma RingDeltaNonNeg(cms: seq<Point>, i: int, nbs: seq<int>, d0: seq<real>)
    requires RowFits(cms, i, nbs, d0)
    requires forall k :: 0 <= k < |nbs| ==> SqDist(cms[nbs[k]], cms[i]) >= d0[k] * d0[k]
    ensures var r := RingDelta(cms, i, nbs, d0); r.Some? ==> r.value >= 0.0
  {
    if |nbs| > 0 && Apart(cms, i, nbs) {
      var rs := Ratios(cms, i, nbs, d0);
      forall k | 0 <= k < |rs|
        ensures rs[k] <= 1.0
      {
        SqNonNegR(d0[k]);
        RatioAtMostOne(d0[k] * d0[k], SqDist(cms[nbs[k]], cms[i]));
      }
      SumAtMostOne(rs);
      QuotAtMostOne(Sum(rs), |nbs| as real);
    }
  }

  lemma SqPos(x: real)
    requires x != 0.0
    ensures x * x > 0.0
  {
    if x < 0.0 {
      assert x * x == (-x) * (-x);
    }
  }

  lemma SqNonNegR(x: real)
    ensures x * x >= 0.0
  {
    if x != 0.0 {
      SqPos(x);
    }
  }

  lemma NonZeroSq(q: real, x: real)
    requires x != 0.0 && q == x * x
    ensures q != 0.0
  {
    SqPos(x);
    calc {
      q;
      x * x;
    >
      0.0;
    }
  }

  lemma QuotAtMostOne(x: real, y: real)
    requires x <= y && y > 0.0
    ensures x / y <= 1.0
  {
  }

  lemma SelfQuot(x: real)
    requires x != 0.0
    ensures x / x == 1.0
  {
  }

  lemma QuotNonNeg(x: real, y: real)
    requires x >= 0.0 && y > 0.0
    ensures x / y >= 0.0
  {
  }

  lemma SqNonNeg(a: Point)
    ensures SqNorm(a) >= 0.0
  {
    SqNonNegR(a.0);
    SqNonNegR(a.1);
  }

  lemma RatioAtMostOne(x: real, y: real)
    requires 0.0 <= x <= y && y != 0.0
    ensures x / y <= 1.0
  {
  }
}
