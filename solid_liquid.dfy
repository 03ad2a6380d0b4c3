/**
 * The solid-liquid delta collector (`Collector` of the solid-liquid pipeline).
 * A measurement starts by recording, for every active ring of the extended
 * strip, its neighbours and their distances; after `wait_time` it finishes with
 * the mean delta of the centre rings. The neighbour search (Delaunay edges) is
 * not modelled: its result is passed to `start`.
 */
module SolidLiquid {
  import opened Wrappers
  import opened Numeric
  import Delta
  import RingPool
  import RingsQuantities
  import NeighborTable

  /** `mask`: the slots that are active and strictly inside the extended strip. */
  function RegionMask(s: Delta.Snapshot, n: nat, lo: real, hi: real): (m: seq<bool>)
    requires Delta.Fits(s, n)
    ensures |m| == n && forall k :: 0 <= k < n ==> (m[k] <==> lo < s.cms[k].0 < hi && k in s.active)
  {
    seq(n, k requires 0 <= k < n => lo < s.cms[k].0 < hi && k in s.active)
  }

  /** `cm[mask]`: the centres of the masked slots, in slot order. */
  function Masked(cms: seq<Point>, mask: seq<bool>): (r: seq<Point>)
    requires |mask| == |cms|
    ensures |r| == CountTrue(mask)
  {
    RingPool.ActiveSlotsSpec(mask);
    var idx := RingPool.ActiveSlots(mask);
    assert forall k :: 0 <= k < |idx| ==> idx[k] in idx;
    RingsQuantities.Pick(cms, idx)
  }

  /** `in_center`: which of the selected centres lie strictly inside the centre strip. */
  function InCenter(sel: seq<Point>, lo: real, hi: real): (r: seq<bool>)
    ensures |r| == |sel| && forall i :: 0 <= i < |sel| ==> (r[i] <==> lo < sel[i].0 < hi)
  {
    seq(|sel|, i requires 0 <= i < |sel| => lo < sel[i].0 < hi)
  }

  function Any(b: seq<bool>): bool
  {
    exists i :: 0 <= i < |b| && b[i]
  }

  /** Every neighbour list indexes the `m` selected rings. */
  predicate NeighsIn(neighbors: seq<seq<int>>, m: int)
  {
    forall i, j :: 0 <= i < |neighbors| && 0 <= j < |neighbors[i]| ==> 0 <= neighbors[i][j] < m
  }

  /** The neighbour search result fits the selection: one list per ring, one distance per neighbour. */
  predicate Shaped(neighbors: seq<seq<int>>, dists: seq<seq<real>>, m: int)
  {
    |neighbors| == m && |dists| == m &&
    (forall i :: 0 <= i < m ==> |dists[i]| == |neighbors[i]|) && NeighsIn(neighbors, m)
  }

  /** Some row `update` refuses: one past the table, or one longer than a row. */
  predicate Overflows(neighbors: seq<seq<int>>, rows: nat, cols: nat)
  {
    |neighbors| > rows || exists i :: 0 <= i < |neighbors| && |neighbors[i]| > cols
  }

  /** One neighbour row per selected ring, each fitting the selection. */
  predicate RowsFit(cm: seq<Point>, nbs: seq<seq<int>>, d0: seq<seq<real>>)
  {
    |nbs| == |d0| == |cm| && forall i :: 0 <= i < |cm| ==> NeighborTable.RowFits(cm, i, nbs[i], d0[i])
  }

  /** Deltas of the centre rings among the first `m` selected, in order. */
  function CenterDeltas(cm: seq<Point>, inCenter: seq<bool>, nbs: seq<seq<int>>, d0: seq<seq<real>>, m: int)
    : (r: seq<Option<real>>)
    requires 0 <= m <= |inCenter| == |cm| == |nbs| == |d0|
    requires forall i :: 0 <= i < |cm| ==> NeighborTable.RowFits(cm, i, nbs[i], d0[i])
    ensures |r| == CountTrue(inCenter[..m])
  {
    if m == 0 then []
    else
      assert inCenter[..m][..m - 1] == inCenter[..m - 1];
      CenterDeltas(cm, inCenter, nbs, d0, m - 1) +
        (if inCenter[m - 1] then [NeighborTable.RingDelta(cm, m - 1, nbs[m - 1], d0[m - 1])] else [])
  }

  /** The running sum of the centre deltas after one more selected ring. */
  lemma SumOptStep(cm: seq<Point>, inCenter: seq<bool>, nbs: seq<seq<int>>, d0: seq<seq<real>>, i: int)
    requires 0 <= i < |inCenter| == |cm| && RowsFit(cm, nbs, d0)
    ensures var p := SumOpt(CenterDeltas(cm, inCenter, nbs, d0, i));
            var d := NeighborTable.RingDelta(cm, i, nbs[i], d0[i]);
            SumOpt(CenterDeltas(cm, inCenter, nbs, d0, i + 1)) ==
              if !inCenter[i] then p else if p.Some? && d.Some? then Some(p.value + d.value) else None
  {
    var prev := CenterDeltas(cm, inCenter, nbs, d0, i);
    if inCenter[i] {
      var d := NeighborTable.RingDelta(cm, i, nbs[i], d0[i]);
      assert CenterDeltas(cm, inCenter, nbs, d0, i + 1) == prev + [d];
      assert (prev + [d])[..|prev|] == prev;
    } else {
      assert CenterDeltas(cm, inCenter, nbs, d0, i + 1) == prev;
    }
  }

  lemma {:induction false} AnyCount(b: seq<bool>)
    requires Any(b)
    ensures CountTrue(b) > 0
  {
    var n := |b| - 1;
    if !b[n] {
      var i :| 0 <= i < |b| && b[i];
      assert b[..n][i] == b[i];
      AnyCount(b[..n]);
    }
  }

  /** `delta_total`: the sum, which is not finite once one term is not. */
  function SumOpt(xs: seq<Option<real>>): (r: Option<real>)
    ensures r.Some? <==> forall k :: 0 <= k < |xs| ==> xs[k].Some?
  {
    if xs == [] then Some(0.0)
    else
      var p := SumOpt(xs[..|xs| - 1]);
      if p.Some? && xs[|xs| - 1].Some? then Some(p.value + xs[|xs| - 1].value) else None
  }

  /** The finite terms add up as reals. */
  lemma {:induction false} SumOptValue(xs: seq<Option<real>>, vs: seq<real>)
    requires |vs| == |xs| && forall k :: 0 <= k < |xs| ==> xs[k] == Some(vs[k])
    ensures SumOpt(xs) == Some(Sum(vs))
  {
    if xs != [] {
      SumOptValue(xs[..|xs| - 1], vs[..|vs| - 1]);
    }
  }

  /** The value `finish` appends: the mean over the centre rings of their delta. */
  function MeanDelta(ds: seq<Option<real>>, count: nat): (r: Option<real>)
    requires count > 0
    ensures r.Some? <==> forall k :: 0 <= k < |ds| ==> ds[k].Some?
  {
    Mean(SumOpt(ds), count)
  }

  /** `delta_total / in_center.sum()`. */
  function Mean(total: Option<real>, count: nat): Option<real>
    requires count > 0
  {
    if total.Some? then Some(total.value / count as real) else None
  }

  /** Every finite term is at most one. */
  predicate AtMostOnes(ds: seq<Option<real>>)
  {
    forall k :: 0 <= k < |ds| && ds[k].Some? ==> ds[k].value <= 1.0
  }

  lemma AtMostOnesAppend(a: seq<Option<real>>, b: seq<Option<real>>)
    requires AtMostOnes(a) && AtMostOnes(b)
    ensures AtMostOnes(a + b)
  {
    forall k | 0 <= k < |a + b| && (a + b)[k].Some? ensures (a + b)[k].value <= 1.0 {
      if k >= |a| {
        assert (a + b)[k] == b[k - |a|];
      }
    }
  }

  /** Each centre delta is at most one. */
  lemma {:induction false} CenterDeltasAtMostOne(cm: seq<Point>, inCenter: seq<bool>, nbs: seq<seq<int>>, d0: seq<seq<real>>, m: int)
    requires 0 <= m <= |inCenter| == |cm| && RowsFit(cm, nbs, d0)
    ensures AtMostOnes(CenterDeltas(cm, inCenter, nbs, d0, m))
  {
    if m > 0 {
      var prev := CenterDeltas(cm, inCenter, nbs, d0, m - 1);
      var last := NeighborTable.RingDelta(cm, m - 1, nbs[m - 1], d0[m - 1]);
      var tail := if inCenter[m - 1] then [last] else [];
      assert CenterDeltas(cm, inCenter, nbs, d0, m) == prev + tail;
      CenterDeltasAtMostOne(cm, inCenter, nbs, d0, m - 1);
      NeighborTable.RingDeltaAtMostOne(cm, m - 1, nbs[m - 1], d0[m - 1]);
      assert AtMostOnes(tail);
      AtMostOnesAppend(prev, tail);
    }
  }

  /** A ring whose neighbours all kept their recorded distance, none of them zero. */
  predicate Undisturbed(cm: seq<Point>, i: int, nbs: seq<int>, d0: seq<real>)
    requires NeighborTable.RowFits(cm, i, nbs, d0)
  {
    |nbs| > 0 &&
    forall k :: 0 <= k < |nbs| ==> d0[k] != 0.0 && NeighborTable.SqDist(cm[nbs[k]], cm[i]) == d0[k] * d0[k]
  }

  predicate Zeros(ds: seq<Option<real>>)
  {
    forall k :: 0 <= k < |ds| ==> ds[k] == Some(0.0)
  }

  lemma ZerosAppend(a: seq<Option<real>>, b: seq<Option<real>>)
    requires Zeros(a) && Zeros(b)
    ensures Zeros(a + b)
  {
    forall k | 0 <= k < |a + b| ensures (a + b)[k] == Some(0.0) {
      if k >= |a| {
        assert (a + b)[k] == b[k - |a|];
      }
    }
  }

  lemma {:induction false} CenterDeltasZero(cm: seq<Point>, inCenter: seq<bool>, nbs: seq<seq<int>>, d0: seq<seq<real>>, m: int)
    requires 0 <= m <= |inCenter| == |cm| && RowsFit(cm, nbs, d0)
    requires forall i :: 0 <= i < m && inCenter[i] ==> Undisturbed(cm, i, nbs[i], d0[i])
    ensures Zeros(CenterDeltas(cm, inCenter, nbs, d0, m))
  {
    if m > 0 {
      var prev := CenterDeltas(cm, inCenter, nbs, d0, m - 1);
      var last := NeighborTable.RingDelta(cm, m - 1, nbs[m - 1], d0[m - 1]);
      var tail := if inCenter[m - 1] then [last] else [];
      assert CenterDeltas(cm, inCenter, nbs, d0, m) == prev + tail;
      CenterDeltasZero(cm, inCenter, nbs, d0, m - 1);
      if inCenter[m - 1] {
        NeighborTable.RingDeltaUndisturbed(cm, m - 1, nbs[m - 1], d0[m - 1]);
      }
      assert Zeros(tail);
      ZerosAppend(prev, tail);
    }
  }

  /** The mean delta of a measurement, when finite, is at most one. */
  lemma MeanDeltaAtMostOne(cm: seq<Point>, inCenter: seq<bool>, nbs: seq<seq<int>>, d0: seq<seq<real>>)
    requires |inCenter| == |cm| && RowsFit(cm, nbs, d0) && CountTrue(inCenter) > 0
    ensures var r := MeanDelta(CenterDeltas(cm, inCenter, nbs, d0, |cm|), CountTrue(inCenter));
      r.Some? ==> r.value <= 1.0
  {
    var ds := CenterDeltas(cm, inCenter, nbs, d0, |cm|);
    assert inCenter[..|cm|] == inCenter;
    if forall k :: 0 <= k < |ds| ==> ds[k].Some? {
      var vs := seq(|ds|, k requires 0 <= k < |ds| => ds[k].value);
      SumOptValue(ds, vs);
      CenterDeltasAtMostOne(cm, inCenter, nbs, d0, |cm|);
      assert forall k :: 0 <= k < |vs| ==> ds[k].Some? && vs[k] == ds[k].value;
      NeighborTable.SumAtMostOne(vs);
      NeighborTable.QuotAtMostOne(Sum(vs), CountTrue(inCenter) as real);
    }
  }

  /** A measurement over which no centre ring moved relative to its neighbours gives delta 0. */
  lemma MeanDeltaUndisturbed(cm: seq<Point>, inCenter: seq<bool>, nbs: seq<seq<int>>, d0: seq<seq<real>>)
    requires |inCenter| == |cm| && RowsFit(cm, nbs, d0) && CountTrue(inCenter) > 0
    requires forall i :: 0 <= i < |cm| && inCenter[i] ==> Undisturbed(cm, i, nbs[i], d0[i])
    ensures MeanDelta(CenterDeltas(cm, inCenter, nbs, d0, |cm|), CountTrue(inCenter)) == Some(0.0)
  {
    CenterDeltasZero(cm, inCenter, nbs, d0, |cm|);
    MeanOfZeros(CenterDeltas(cm, inCenter, nbs, d0, |cm|), CountTrue(inCenter));
  }

  /** Zero deltas average to zero. */
  lemma MeanOfZeros(ds: seq<Option<real>>, count: nat)
    requires Zeros(ds) && count > 0
    ensures MeanDelta(ds, count) == Some(0.0)
  {
    var vs := seq(|ds|, k requires 0 <= k < |ds| => 0.0);
    assert forall k :: 0 <= k < |ds| ==> ds[k] == Some(vs[k]);
    SumOptValue(ds, vs);
    NeighborTable.SumConst(vs, 0.0);
    assert |vs| as real * 0.0 == 0.0;
    assert SumOpt(ds) == Some(0.0);
    assert 0.0 / count as real == 0.0;
  }

  class Collector {
    const waitTime: real
    const xlo: real
    const xhi: real
    /** `xlims_extended`: the strip widened by two ring diameters on each side. */
    const extLo: real
    const extHi: real
    /** Number of ring slots of the solver. */
    const numTotal: nat
    var state: Delta.State
    var initTime: real
    var table: NeighborTable.Neighbors
    var maskActive: array<bool>
    var mask: seq<bool>
    var inCenter: seq<bool>
    var deltas: seq<Option<real>>
    var times: seq<real>

    /**
     * While waiting, the stored mask selects as many rings as `in_center` has
     * entries, some of them in the centre, and each of their rows lists only
     * selected rings.
     */
    ghost predicate Valid()
      reads this, table, table.nb, table.neighCount
    {
      table.Valid() && maskActive.Length == numTotal && maskActive != table.rowMask &&
      (state == Delta.Waiting ==>
        |mask| == numTotal && |inCenter| == CountTrue(mask) <= table.numMaxRings && Any(inCenter) &&
        forall i :: 0 <= i < |inCenter| ==> NeighborRow(i))
    }

    ghost predicate NeighborRow(i: int)
      requires table.Valid() && 0 <= i < table.numMaxRings
      reads this, table, table.nb, table.neighCount
    {
      var r := table.RingsNeighs(i);
      forall j :: 0 <= j < |r| ==> 0 <= r[j] < |inCenter|
    }

    /** The table size is passed in; the source estimates it from the strip area and the ring size. */
    constructor (waitTime: real, xlims: (real, real), ringDiameter: real, numMaxRings: nat, numTotal: nat)
      ensures Valid() && state == Delta.Starting && initTime == -1.0
      ensures this.waitTime == waitTime && xlo == xlims.0 && xhi == xlims.1 && this.numTotal == numTotal
      ensures extLo == xlims.0 - 2.0 * ringDiameter && extHi == xlims.1 + 2.0 * ringDiameter
      ensures fresh(table) && table.numMaxRings == numMaxRings && table.numMaxNeighs == 10
      ensures fresh(maskActive) && forall k :: 0 <= k < numTotal ==> !maskActive[k]
      ensures deltas == [] && times == []
    {
      this.waitTime := waitTime;
      xlo, xhi := xlims.0, xlims.1;
      extLo, extHi := xlims.0 - 2.0 * ringDiameter, xlims.1 + 2.0 * ringDiameter;
      this.numTotal := numTotal;
      state := Delta.Starting;
      initTime := -1.0;
      table := new NeighborTable.Neighbors(numMaxRings, 10);
      maskActive := new bool[numTotal](_ => false);
      mask, inCenter := [], [];
      deltas, times := [], [];
    }

    /**
     * `start`: marks the active slots, selects the active rings of the extended
     * strip and the centre ones among them; false when no selected ring is in
     * the centre. Otherwise row `i` of the table receives the neighbours of the
     * i-th selected ring; a refused row raises, leaving the earlier rows written.
     */
    method Start(s: Delta.Snapshot, neighbors: seq<seq<int>>, dists: seq<seq<real>>) returns (r: Result<bool>)
      requires Valid() && Delta.Fits(s, numTotal)
      requires Shaped(neighbors, dists, CountTrue(RegionMask(s, numTotal, extLo, extHi)))
      modifies this, maskActive, table, table.nb, table.ds, table.neighCount, table.rowMask
      ensures table == old(table) && maskActive == old(maskActive) && table.Valid()
      ensures maskActive.Length == numTotal && maskActive != table.rowMask
      ensures forall k :: 0 <= k < numTotal ==> (maskActive[k] <==> k in s.active)
      ensures mask == RegionMask(s, numTotal, extLo, extHi)
      ensures inCenter == InCenter(Masked(s.cms, mask), xlo, xhi)
      ensures r.Err? <==> Any(inCenter) && Overflows(neighbors, table.numMaxRings, table.numMaxNeighs)
      ensures r.Ok? ==> r.value == Any(inCenter)
      ensures r == Ok(true) ==>
        table.numRows == old(table.numRows) + |neighbors| &&
        forall i :: 0 <= i < |neighbors| ==> table.RingsNeighs(i) == neighbors[i] && table.Dists(i) == dists[i]
      ensures state == old(state) && initTime == old(initTime) && deltas == old(deltas) && times == old(times)
    {
      forall k | 0 <= k < maskActive.Length {
        maskActive[k] := k in s.active;
      }
      var ma := maskActive;
      mask := seq(numTotal, k requires 0 <= k < numTotal reads ma =>
        extLo < s.cms[k].0 < extHi && ma[k]);
      inCenter := InCenter(Masked(s.cms, mask), xlo, xhi);
      if !Any(inCenter) {
        return Ok(false);
      }
      r := Fill(neighbors, dists);
      if r.Ok? {
        r := Ok(true);
      }
    }

    /** The `update` loop of `start`, one row per selected ring, stopping at the first refusal. */
    method Fill(neighbors: seq<seq<int>>, dists: seq<seq<real>>) returns (r: Result<bool>)
      requires table.Valid() && |dists| == |neighbors|
      requires forall i :: 0 <= i < |neighbors| ==> |dists[i]| == |neighbors[i]|
      modifies table, table.nb, table.ds, table.neighCount, table.rowMask
      ensures table.Valid() && table.nb == old(table.nb) && table.ds == old(table.ds)
      ensures table.neighCount == old(table.neighCount) && table.rowMask == old(table.rowMask)
      ensures r.Err? <==> Overflows(neighbors, table.numMaxRings, table.numMaxNeighs)
      ensures r.Ok? ==>
        table.numRows == old(table.numRows) + |neighbors| &&
        forall i :: 0 <= i < |neighbors| ==> table.RingsNeighs(i) == neighbors[i] && table.Dists(i) == dists[i]
    {
      var i := 0;
      while i < |neighbors|
        invariant 0 <= i <= |neighbors| && table.Valid()
        invariant table.nb == old(table.nb) && table.ds == old(table.ds)
        invariant table.neighCount == old(table.neighCount) && table.rowMask == old(table.rowMask)
        invariant i <= table.numMaxRings
        invariant forall k :: 0 <= k < i ==> |neighbors[k]| <= table.numMaxNeighs
        invariant table.numRows == old(table.numRows) + i
        invariant forall k :: 0 <= k < i ==> table.RingsNeighs(k) == neighbors[k] && table.Dists(k) == dists[k]
      {
        var u := table.Update(i, neighbors[i], dists[i]);
        if u.Err? {
          return Err(u.error);
        }
        i := i + 1;
      }
      return Ok(true);
    }

    /** The rows of the `m` selected rings. */
    ghost function Rows(m: int): (seq<seq<int>>, seq<seq<real>>)
      requires table.Valid() && 0 <= m <= table.numMaxRings
      reads this, table, table.nb, table.ds, table.neighCount
    {
      var t := table;
      (seq(m, i requires 0 <= i < m && t.Valid() reads t, t.nb, t.neighCount => t.RingsNeighs(i)),
       seq(m, i requires 0 <= i < m && t.Valid() reads t, t.ds, t.neighCount => t.Dists(i)))
    }

    /** The loop of `finish`: the sum of the centre deltas, not finite once one of them is not. */
    method Total(cm: seq<Point>, ghost nbs: seq<seq<int>>, ghost d0: seq<seq<real>>) returns (total: Option<real>)
      requires table.Valid() && |cm| == |inCenter| <= table.numMaxRings && RowsFit(cm, nbs, d0)
      requires forall i :: 0 <= i < |cm| ==> nbs[i] == table.RingsNeighs(i) && d0[i] == table.Dists(i)
      ensures total == SumOpt(CenterDeltas(cm, inCenter, nbs, d0, |cm|))
    {
      total := Some(0.0);
      var i := 0;
      while i < |cm|
        invariant 0 <= i <= |cm|
        invariant total == SumOpt(CenterDeltas(cm, inCenter, nbs, d0, i))
      {
        total := AddCenterDelta(cm, nbs, d0, i, total);
        i := i + 1;
      }
    }

    /** One turn of the loop of `finish`: ring i's delta is added when it is a centre ring. */
    method AddCenterDelta(cm: seq<Point>, ghost nbs: seq<seq<int>>, ghost d0: seq<seq<real>>, i: int, total: Option<real>)
      returns (t: Option<real>)
      requires table.Valid() && |cm| == |inCenter| <= table.numMaxRings && RowsFit(cm, nbs, d0)
      requires 0 <= i < |cm| && nbs[i] == table.RingsNeighs(i) && d0[i] == table.Dists(i)
      requires total == SumOpt(CenterDeltas(cm, inCenter, nbs, d0, i))
      ensures t == SumOpt(CenterDeltas(cm, inCenter, nbs, d0, i + 1))
    {
      SumOptStep(cm, inCenter, nbs, d0, i);
      t := total;
      if inCenter[i] {
        var d := NeighborTable.RingDelta(cm, i, table.RingsNeighs(i), table.Dists(i));
        t := if total.Some? && d.Some? then Some(total.value + d.value) else None;
      }
    }

    /** The value `finish` appends, on the current centres. */
    method Measure(s: Delta.Snapshot) returns (d: Option<real>)
      requires Valid() && state == Delta.Waiting && Delta.Fits(s, numTotal)
      ensures var cm := Masked(s.cms, mask);
        var rows := Rows(|inCenter|);
        CountTrue(inCenter) > 0 && RowsFit(cm, rows.0, rows.1) &&
        d == MeanDelta(CenterDeltas(cm, inCenter, rows.0, rows.1, |cm|), CountTrue(inCenter))
    {
      var cm := Masked(s.cms, mask);
      ghost var rows := Rows(|inCenter|);
      assert RowsFit(cm, rows.0, rows.1) by {
        forall i | 0 <= i < |cm| ensures NeighborTable.RowFits(cm, i, rows.0[i], rows.1[i]) {
          assert NeighborRow(i);
        }
      }
      AnyCount(inCenter);
      var total := Total(cm, rows.0, rows.1);
      d := Mean(total, CountTrue(inCenter));
    }

    /**
     * `finish`: appends the mean delta of the centre rings, measured on the
     * current centres of the rings the stored mask selects, and clears the table.
     */
    method Finish(s: Delta.Snapshot)
      requires Valid() && state == Delta.Waiting && Delta.Fits(s, numTotal)
      modifies this, table.rowMask, table
      ensures Valid() && table == old(table) && maskActive == old(maskActive) && table.numRows == 0
      ensures forall k :: 0 <= k < table.rowMask.Length ==> !table.rowMask[k]
      ensures state == old(state) && initTime == old(initTime) && times == old(times)
      ensures mask == old(mask) && inCenter == old(inCenter)
      ensures var cm := Masked(s.cms, mask);
        var rows := old(Rows(|inCenter|));
        CountTrue(inCenter) > 0 && RowsFit(cm, rows.0, rows.1) &&
        deltas == old(deltas) + [MeanDelta(CenterDeltas(cm, inCenter, rows.0, rows.1, |cm|), CountTrue(inCenter))]
    {
      var d := Measure(s);
      deltas := deltas + [d];
      table.Reset();
      forall i | 0 <= i < |inCenter| ensures NeighborRow(i) {
        assert old(NeighborRow(i)) && table.RingsNeighs(i) == old(table.RingsNeighs(i));
      }
    }

    /**
     * `collect`: while waiting, finishes once more than `wait_time` has passed
     * since the start and goes back to starting; while starting, a successful
     * start records its time and begins waiting. The neighbour search result is
     * only read when starting.
     */
    method Collect(s: Delta.Snapshot, neighbors: seq<seq<int>>, dists: seq<seq<real>>) returns (r: Result<()>)
      requires Valid() && Delta.Fits(s, numTotal)
      requires state == Delta.Starting ==> Shaped(neighbors, dists, CountTrue(RegionMask(s, numTotal, extLo, extHi)))
      modifies this, maskActive, table, table.nb, table.ds, table.neighCount, table.rowMask
      ensures table == old(table) && maskActive == old(maskActive)
      ensures r.Ok? ==> Valid()
      ensures old(state) == Delta.Waiting ==>
        r.Ok? && times == old(times) && initTime == old(initTime) &&
        (s.time - old(initTime) > waitTime ==> state == Delta.Starting && |deltas| == |old(deltas)| + 1) &&
        (!(s.time - old(initTime) > waitTime) ==> state == Delta.Waiting && deltas == old(deltas))
      ensures old(state) == Delta.Starting ==>
        var started := Any(InCenter(Masked(s.cms, RegionMask(s, numTotal, extLo, extHi)), xlo, xhi));
        deltas == old(deltas) &&
        (r.Err? <==> started && Overflows(neighbors, table.numMaxRings, table.numMaxNeighs)) &&
        (r.Ok? && started ==> state == Delta.Waiting && initTime == s.time && times == old(times) + [s.time]) &&
        (r.Ok? && !started ==> state == Delta.Starting && initTime == old(initTime) && times == old(times)) &&
        (r.Err? ==> state == Delta.Starting && times == old(times))
    {
      if state == Delta.Waiting {
        if s.time - initTime > waitTime {
          Finish(s);
          state := Delta.Starting;
        }
        return Ok(());
      }
      var started := Start(s, neighbors, dists);
      if started.Err? {
        return Err(started.error);
      }
      if started.value {
        initTime := s.time;
        times := times + [initTime];
        state := Delta.Waiting;
      }
      r := Ok(());
    }
  }
}
