/**
 * The delta collector (`DeltaCol`) and its `TrackingList`. Rings whose centre of
 * mass enters the central strip `xlims` are tracked in groups; a group is
 * finished once the mean x of its rings reaches the group's `end_x`. The solver
 * is read through a `Snapshot`; file output is not modelled.
 */
module Delta {
  import opened Numeric
  import Invasions
  import RingsQuantities

  datatype State = Starting | Waiting

  /** What the collector reads from the solver at one call. */
  datatype Snapshot = Snapshot(
    time: real,
    cms: seq<Point>,      // `center_mass`, one entry per ring slot
    active: seq<int>,     // `rings_ids[:num_active_rings]`
    uids: seq<int>)       // `unique_rings_ids`, one entry per ring slot

  /** A snapshot of a solver with `n` ring slots. */
  predicate Fits(s: Snapshot, n: nat)
  {
    |s.cms| == n && |s.uids| == n && forall k :: 0 <= k < |s.active| ==> 0 <= s.active[k] < n
  }

  predicate InRange(ids: seq<int>, n: int)
  {
    forall k :: 0 <= k < |ids| ==> 0 <= ids[k] < n
  }

  /** The ids whose centre has lo < x < hi, in their original order (a numpy mask). */
  function InStrip(cms: seq<Point>, ids: seq<int>, lo: real, hi: real): (r: seq<int>)
    requires InRange(ids, |cms|)
    ensures |r| <= |ids| && InRange(r, |cms|)
  {
    if ids == [] then []
    else
      var n := |ids| - 1;
      var x := ids[n];
      InStrip(cms, ids[..n], lo, hi) + (if lo < cms[x].0 < hi then [x] else [])
  }

  /** The mask keeps exactly the listed rings inside the open strip. */
  lemma {:induction false} InStripMembers(cms: seq<Point>, ids: seq<int>, lo: real, hi: real, x: int)
    requires InRange(ids, |cms|)
    ensures x in InStrip(cms, ids, lo, hi) <==> x in ids && 0 <= x < |cms| && lo < cms[x].0 < hi
  {
    if ids != [] {
      var n := |ids| - 1;
      InStripMembers(cms, ids[..n], lo, hi, x);
      assert ids == ids[..n] + [ids[n]];
    }
  }

  /** Mean x of the centres of the listed rings. */
  function MeanX(cms: seq<Point>, ids: seq<int>): real
    requires InRange(ids, |cms|) && |ids| > 0
  {
    Sum(Xs(cms, ids)) / |ids| as real
  }

  /** The x coordinates of the listed rings' centres. */
  function Xs(cms: seq<Point>, ids: seq<int>): (r: seq<real>)
    requires InRange(ids, |cms|)
    ensures |r| == |ids| && forall k :: 0 <= k < |ids| ==> r[k] == cms[ids[k]].0
  {
    seq(|ids|, k requires 0 <= k < |ids| => cms[ids[k]].0)
  }

  /** `id_exists` as a predicate: some tracked group holds `id`. */
  predicate TrackedIn(groups: seq<seq<int>>, id: int)
  {
    exists k :: 0 <= k < |groups| && id in groups[k]
  }

  /** The ids not yet in any tracked group, in order. */
  function Untracked(groups: seq<seq<int>>, ids: seq<int>): (r: seq<int>)
    ensures |r| <= |ids|
  {
    if ids == [] then []
    else
      var n := |ids| - 1;
      Untracked(groups, ids[..n]) + (if TrackedIn(groups, ids[n]) then [] else [ids[n]])
  }

  /** Exactly the listed ids that no group holds survive. */
  lemma {:induction false} UntrackedMembers(groups: seq<seq<int>>, ids: seq<int>, x: int)
    ensures x in Untracked(groups, ids) <==> x in ids && !TrackedIn(groups, x)
  {
    if ids != [] {
      var n := |ids| - 1;
      UntrackedMembers(groups, ids[..n], x);
      assert ids == ids[..n] + [ids[n]];
    }
  }

  lemma UntrackedInRange(groups: seq<seq<int>>, ids: seq<int>, n: int)
    requires InRange(ids, n)
    ensures InRange(Untracked(groups, ids), n)
  {
    var r := Untracked(groups, ids);
    forall k | 0 <= k < |r|
      ensures 0 <= r[k] < n
    {
      assert r[k] in r;
      UntrackedMembers(groups, ids, r[k]);
      var j :| 0 <= j < |ids| && ids[j] == r[k];
    }
  }

  /**
   * A finished group: its mean x is not below `end_x`. numpy's mean of an empty
   * selection is NaN, which compares false, so an empty group counts as finished.
   */
  predicate Finished(cms: seq<Point>, ids: seq<int>, endX: real)
    requires InRange(ids, |cms|)
  {
    |ids| == 0 || !(MeanX(cms, ids) < endX)
  }

  predicate AllInRange(groups: seq<seq<int>>, n: int)
  {
    forall k :: 0 <= k < |groups| ==> InRange(groups[k], n)
  }

  /** Indices below `m` of the finished groups, ascending. */
  function FinishedIdx(cms: seq<Point>, groups: seq<seq<int>>, endX: seq<real>, m: int): (r: seq<int>)
    requires 0 <= m <= |groups| <= |endX| && AllInRange(groups, |cms|)
    ensures Invasions.StrictlySorted(r) && |r| <= m
    ensures forall i :: 0 <= i < |r| ==> 0 <= r[i] < m
  {
    if m == 0 then []
    else
      var r := FinishedIdx(cms, groups, endX, m - 1);
      if Finished(cms, groups[m - 1], endX[m - 1]) then r + [m - 1] else r
  }

  /** An index is collected exactly when it is below `m` and its group is finished. */
  lemma {:induction false} FinishedIdxMembers(cms: seq<Point>, groups: seq<seq<int>>, endX: seq<real>, m: int, k: int)
    requires 0 <= m <= |groups| <= |endX| && AllInRange(groups, |cms|)
    ensures k in FinishedIdx(cms, groups, endX, m) <==> 0 <= k < m && Finished(cms, groups[k], endX[k])
  {
    if m > 0 {
      FinishedIdxMembers(cms, groups, endX, m - 1, k);
      var r := FinishedIdx(cms, groups, endX, m - 1);
      if k == m - 1 {
        forall i | 0 <= i < |r|
          ensures r[i] != k
        {
        }
        assert k !in r;
      }
    }
  }

  function Repeat(x: real, n: nat): (r: seq<real>)
    ensures |r| == n && forall k :: 0 <= k < n ==> r[k] == x
  {
    seq(n, _ => x)
  }

  /** Every group left by `Keep` with the finished indices is still unfinished. */
  lemma {:induction false} KeepUnfinished(cms: seq<Point>, groups: seq<seq<int>>, endX: seq<real>, m: int)
    requires 0 <= m <= |groups| == |endX| && AllInRange(groups, |cms|)
    ensures var drop := FinishedIdx(cms, groups, endX, |groups|);
            var g := Invasions.Keep(groups[..m], drop);
            var e := Invasions.Keep(endX[..m], drop);
            |g| == |e| && AllInRange(g, |cms|) &&
            forall k :: 0 <= k < |g| ==> !Finished(cms, g[k], e[k])
  {
    var drop := FinishedIdx(cms, groups, endX, |groups|);
    var gs, es := groups[..m], endX[..m];
    Invasions.KeepAt(gs, drop);
    Invasions.KeepAt(es, drop);
    var r := Invasions.KeptIndices(m, drop);
    forall k | 0 <= k < |r|
      ensures InRange(Invasions.Keep(gs, drop)[k], |cms|)
      ensures !Finished(cms, Invasions.Keep(gs, drop)[k], Invasions.Keep(es, drop)[k])
    {
      var i := r[k];
      assert Invasions.Keep(gs, drop)[k] == groups[i] && Invasions.Keep(es, drop)[k] == endX[i];
      assert i !in drop;
      FinishedIdxMembers(cms, groups, endX, |groups|, i);
    }
  }

  /** After dropping the finished groups, none of the remaining ones is finished. */
  lemma KeepUnfinishedAll(cms: seq<Point>, groups: seq<seq<int>>, endX: seq<real>)
    requires |groups| == |endX| && AllInRange(groups, |cms|)
    ensures var drop := FinishedIdx(cms, groups, endX, |groups|);
            var g := Invasions.Keep(groups, drop);
            var e := Invasions.Keep(endX, drop);
            |g| == |e| && AllInRange(g, |cms|) &&
            forall k :: 0 <= k < |g| ==> !Finished(cms, g[k], e[k])
  {
    KeepUnfinished(cms, groups, endX, |groups|);
    assert groups[..|groups|] == groups && endX[..|endX|] == endX;
  }

  class TrackingList {
    var ids: seq<seq<int>>
    var uids: seq<seq<int>>
    var endX: seq<real>
    var dpId: seq<int>
    var idsRegion: seq<seq<int>>

    /** The five parallel lists always have the same length. */
    ghost predicate Valid()
      reads this
    {
      |uids| == |ids| && |endX| == |ids| && |dpId| == |ids| && |idsRegion| == |ids|
    }

    constructor ()
      ensures Valid() && ids == [] && uids == [] && endX == [] && dpId == [] && idsRegion == []
    {
      ids, uids, endX, dpId, idsRegion := [], [], [], [], [];
    }

    /** `size`: the common length of the lists. */
    function Size(): (n: nat)
      requires Valid()
      reads this
      ensures n == |ids| == |uids| == |endX| == |dpId| == |idsRegion|
    {
      |ids|
    }

    /** `id_exists`: scans the tracked groups and stops at the first that holds `id`. */
    method IdExists(id: int) returns (b: bool)
      ensures b == TrackedIn(ids, id)
    {
      var k := 0;
      while k < |ids|
        invariant 0 <= k <= |ids|
        invariant forall j :: 0 <= j < k ==> id !in ids[j]
      {
        if id in ids[k] {
          return true;
        }
        k := k + 1;
      }
      return false;
    }

    /** `add`: one new element at the end of each list. */
    method Add(id: seq<int>, uid: seq<int>, ex: real, dp: int, region: seq<int>)
      requires Valid()
      modifies this
      ensures Valid()
      ensures ids == old(ids) + [id] && uids == old(uids) + [uid] && endX == old(endX) + [ex]
      ensures dpId == old(dpId) + [dp] && idsRegion == old(idsRegion) + [region]
    {
      ids := ids + [id];
      uids := uids + [uid];
      endX := endX + [ex];
      dpId := dpId + [dp];
      idsRegion := idsRegion + [region];
    }

    /**
     * `remove`: deletes the listed positions from every list, largest first, so
     * the remaining elements keep their relative order.
     */
    method Remove(indexes: seq<int>)
      requires Valid()
      requires forall k :: 0 <= k < |indexes| ==> 0 <= indexes[k] < |ids|
      requires forall a, b :: 0 <= a < b < |indexes| ==> indexes[a] != indexes[b]
      modifies this
      ensures Valid()
      ensures ids == Invasions.Keep(old(ids), indexes) && uids == Invasions.Keep(old(uids), indexes)
      ensures endX == Invasions.Keep(old(endX), indexes) && dpId == Invasions.Keep(old(dpId), indexes)
      ensures idsRegion == Invasions.Keep(old(idsRegion), indexes)
    {
      var sorted := Invasions.SortAsc(indexes);
      SortedIndexes(indexes, |ids|);
      var j := |sorted|;
      assert sorted[..j] == sorted;
      while j > 0
        invariant 0 <= j <= |sorted| && Valid()
        invariant Erased(ids, uids, endX, dpId, idsRegion, sorted[..j]) ==
          Erased(old(ids), old(uids), old(endX), old(dpId), old(idsRegion), sorted)
      {
        assert sorted[..j][..j - 1] == sorted[..j - 1];
        j := j - 1;
        var index := sorted[j];
        ids := Invasions.EraseAt(ids, index);
        uids := Invasions.EraseAt(uids, index);
        endX := Invasions.EraseAt(endX, index);
        dpId := Invasions.EraseAt(dpId, index);
        idsRegion := Invasions.EraseAt(idsRegion, index);
      }
      ErasedKeeps(old(ids), old(uids), old(endX), old(dpId), old(idsRegion), sorted, indexes);
    }

    /**
     * The untracked entries of `center` in order (the `enumerate` loop of `start`),
     * asking `id_exists` for each.
     */
    method UntrackedOf(center: seq<int>) returns (newIds: seq<int>)
      ensures newIds == Untracked(ids, center)
    {
      newIds := [];
      var i := 0;
      while i < |center|
        invariant 0 <= i <= |center|
        invariant newIds == Untracked(ids, center[..i])
      {
        var exists_ := IdExists(center[i]);
        assert center[..i + 1][..i] == center[..i];
        if !exists_ {
          newIds := newIds + [center[i]];
        }
        i := i + 1;
      }
      assert center[..i] == center;
    }
  }

  /** The five lists after the erasures of `remove` (one ghost view of the loop state). */
  ghost function Erased(a: seq<seq<int>>, b: seq<seq<int>>, c: seq<real>, d: seq<int>, e: seq<seq<int>>,
                        idxs: seq<int>): (seq<seq<int>>, seq<seq<int>>, seq<real>, seq<int>, seq<seq<int>>)
  {
    (Invasions.EraseDescending(a, idxs), Invasions.EraseDescending(b, idxs),
     Invasions.EraseDescending(c, idxs), Invasions.EraseDescending(d, idxs),
     Invasions.EraseDescending(e, idxs))
  }

  /** Sorting distinct in-range indices gives a strictly ascending list of the same indices. */
  lemma SortedIndexes(indexes: seq<int>, n: int)
    requires forall k :: 0 <= k < |indexes| ==> 0 <= indexes[k] < n
    requires forall a, b :: 0 <= a < b < |indexes| ==> indexes[a] != indexes[b]
    ensures var sorted := Invasions.SortAsc(indexes);
      Invasions.StrictlySorted(sorted) && (forall k :: 0 <= k < |sorted| ==> 0 <= sorted[k] < n) &&
      forall x :: x in sorted <==> x in indexes
  {
    var sorted := Invasions.SortAsc(indexes);
    Invasions.SortAscSpec(indexes);
    Invasions.SortAscMembers(indexes);
    Invasions.DistinctSorted(indexes, sorted);
    forall k | 0 <= k < |sorted|
      ensures 0 <= sorted[k] < n
    {
      assert sorted[k] in sorted;
      assert sorted[k] in indexes;
      var m :| 0 <= m < |indexes| && indexes[m] == sorted[k];
    }
  }

  lemma ErasedKeeps(a: seq<seq<int>>, b: seq<seq<int>>, c: seq<real>, d: seq<int>, e: seq<seq<int>>,
                    sorted: seq<int>, indexes: seq<int>)
    requires |b| == |a| && |c| == |a| && |d| == |a| && |e| == |a|
    requires Invasions.StrictlySorted(sorted)
    requires forall k :: 0 <= k < |sorted| ==> 0 <= sorted[k] < |a|
    requires forall x :: x in sorted <==> x in indexes
    ensures Erased(a, b, c, d, e, sorted) ==
      (Invasions.Keep(a, indexes), Invasions.Keep(b, indexes), Invasions.Keep(c, indexes),
       Invasions.Keep(d, indexes), Invasions.Keep(e, indexes))
  {
    KeepsAll(a, sorted, indexes);
    KeepsAll(b, sorted, indexes);
    KeepsAll(c, sorted, indexes);
    KeepsAll(d, sorted, indexes);
    KeepsAll(e, sorted, indexes);
  }

  /** Erasing the sorted distinct positions from the largest down keeps exactly the rest. */
  lemma KeepsAll<T>(s: seq<T>, sorted: seq<int>, indexes: seq<int>)
    requires Invasions.StrictlySorted(sorted)
    requires forall k :: 0 <= k < |sorted| ==> 0 <= sorted[k] < |s|
    requires forall x :: x in sorted <==> x in indexes
    ensures Invasions.EraseDescending(s, sorted) == Invasions.Keep(s, indexes)
  {
    Invasions.EraseDescendingKeeps(s, sorted);
    Invasions.KeepAgree(s, sorted, indexes);
  }

  class DeltaCol {
    const waitDist: real
    const xlo: real
    const xhi: real
    /** `xlims_extended`: the strip widened by `xtol` ring diameters on each side. */
    const extLo: real
    const extHi: real
    const startDt: real
    const checkDt: real
    /** Number of ring slots of the solver. */
    const numRings: nat

    var dataPointId: int
    var lastStartTime: real
    var lastCheckTime: real
    var state: State
    var tracking: TrackingList
    var initTimes: seq<real>
    var finalTimes: seq<real>

    ghost predicate Valid()
      reads this, tracking
    {
      tracking.Valid() && AllInRange(tracking.ids, numRings)
    }

    /** The ring diameter is passed in; the source derives it from the ring configuration. */
    constructor (waitDist: real, xlims: (real, real), startDt: real, checkDt: real,
                 ringDiameter: real, xtol: real, numRings: nat, time: real)
      ensures Valid() && fresh(tracking) && tracking.ids == []
      ensures this.waitDist == waitDist && xlo == xlims.0 && xhi == xlims.1
      ensures extLo == xlims.0 - xtol * ringDiameter && extHi == xlims.1 + xtol * ringDiameter
      ensures this.startDt == startDt && this.checkDt == checkDt && this.numRings == numRings
      ensures dataPointId == 0 && lastStartTime == time && lastCheckTime == time
      ensures state == Starting && initTimes == [] && finalTimes == []
    {
      this.waitDist := waitDist;
      xlo, xhi := xlims.0, xlims.1;
      extLo := xlims.0 - xtol * ringDiameter;
      extHi := xlims.1 + xtol * ringDiameter;
      this.startDt := startDt;
      this.checkDt := checkDt;
      this.numRings := numRings;
      dataPointId := 0;
      lastStartTime, lastCheckTime := time, time;
      state := Starting;
      tracking := new TrackingList();
      initTimes, finalTimes := [], [];
    }

    /** The rings of the extended strip (`ids_region`). */
    function RegionIds(s: Snapshot): seq<int>
      requires Fits(s, numRings)
    {
      InStrip(s.cms, s.active, extLo, extHi)
    }

    /** The rings a `start` call would track: in the centre strip and not yet tracked. */
    function NewIds(groups: seq<seq<int>>, s: Snapshot): (r: seq<int>)
      requires Fits(s, numRings)
      ensures InRange(r, numRings)
    {
      var center := InStrip(s.cms, RegionIds(s), xlo, xhi);
      UntrackedInRange(groups, center, numRings);
      Untracked(groups, center)
    }

    /** A ring is selected iff it is active, inside both strips and not yet tracked. */
    lemma NewIdsMembers(groups: seq<seq<int>>, s: Snapshot, x: int)
      requires Fits(s, numRings)
      ensures x in NewIds(groups, s) <==>
        x in s.active && extLo < s.cms[x].0 < extHi && xlo < s.cms[x].0 < xhi && !TrackedIn(groups, x)
    {
      var region := RegionIds(s);
      var center := InStrip(s.cms, region, xlo, xhi);
      UntrackedMembers(groups, center, x);
      InStripMembers(s.cms, region, xlo, xhi, x);
      InStripMembers(s.cms, s.active, extLo, extHi, x);
    }

    /**
     * `start`: false, with nothing changed, when the extended strip or the centre
     * strip is empty, or every centre ring is already tracked. Otherwise exactly one
     * group is appended, with `end_x` = its mean x plus `wait_dist`, the time is
     * logged and `data_point_id` advances.
     */
    method Start(s: Snapshot) returns (ok: bool)
      requires Valid() && Fits(s, numRings)
      modifies tracking, this
      ensures Valid() && tracking == old(tracking)
      ensures ok <==> |NewIds(old(tracking.ids), s)| > 0
      ensures !ok ==> unchanged(tracking) && dataPointId == old(dataPointId) && initTimes == old(initTimes)
      ensures ok ==>
        var nw := NewIds(old(tracking.ids), s);
        |nw| > 0 && InRange(nw, |s.cms|) &&
        tracking.ids == old(tracking.ids) + [nw] &&
        tracking.uids == old(tracking.uids) + [RingsQuantities.Pick(s.uids, nw)] &&
        tracking.endX == old(tracking.endX) + [MeanX(s.cms, nw) + waitDist] &&
        tracking.dpId == old(tracking.dpId) + [old(dataPointId)] &&
        tracking.idsRegion == old(tracking.idsRegion) + [RegionIds(s)] &&
        initTimes == old(initTimes) + [s.time] && dataPointId == old(dataPointId) + 1
      ensures state == old(state) && lastStartTime == old(lastStartTime)
      ensures lastCheckTime == old(lastCheckTime) && finalTimes == old(finalTimes)
    {
      var newIds, region := Select(s);
      if |newIds| == 0 {
        return false;
      }
      Begin(s, newIds, region);
      return true;
    }

    /** The selection half of `start`: both masks, then the untracked centre rings. */
    method Select(s: Snapshot) returns (newIds: seq<int>, region: seq<int>)
      requires Valid() && Fits(s, numRings)
      ensures newIds == NewIds(tracking.ids, s) && region == RegionIds(s)
    {
      region := InStrip(s.cms, s.active, extLo, extHi);
      if |region| == 0 {
        return [], region;
      }
      var center := InStrip(s.cms, region, xlo, xhi);
      if |center| == 0 {
        return [], region;
      }
      newIds := tracking.UntrackedOf(center);
    }

    /** The recording half of `start`: appends the group and logs the time. */
    method Begin(s: Snapshot, newIds: seq<int>, region: seq<int>)
      requires Valid() && Fits(s, numRings)
      requires |newIds| > 0 && InRange(newIds, numRings)
      modifies tracking, this
      ensures Valid() && tracking == old(tracking)
      ensures tracking.ids == old(tracking.ids) + [newIds]
      ensures tracking.uids == old(tracking.uids) + [RingsQuantities.Pick(s.uids, newIds)]
      ensures tracking.endX == old(tracking.endX) + [MeanX(s.cms, newIds) + waitDist]
      ensures tracking.dpId == old(tracking.dpId) + [old(dataPointId)]
      ensures tracking.idsRegion == old(tracking.idsRegion) + [region]
      ensures initTimes == old(initTimes) + [s.time] && dataPointId == old(dataPointId) + 1
      ensures state == old(state) && lastStartTime == old(lastStartTime)
      ensures lastCheckTime == old(lastCheckTime) && finalTimes == old(finalTimes)
    {
      var ex := MeanX(s.cms, newIds) + waitDist;
      ghost var before := tracking.ids;
      tracking.Add(newIds, RingsQuantities.Pick(s.uids, newIds), ex, dataPointId, region);
      assert AllInRange(tracking.ids, numRings) by {
        forall k | 0 <= k < |tracking.ids|
          ensures InRange(tracking.ids[k], numRings)
        {
          if k < |before| {
            assert tracking.ids[k] == before[k];
          }
        }
      }
      initTimes := initTimes + [s.time];
      dataPointId := dataPointId + 1;
    }

    /**
     * `check`: every group whose mean x has reached its `end_x` is removed, in one
     * `remove` call after the scan, and the time is logged once per removed group.
     */
    method Check(s: Snapshot)
      requires Valid() && Fits(s, numRings)
      modifies tracking, this`finalTimes
      ensures Valid() && tracking == old(tracking)
      ensures var drop := FinishedIdx(s.cms, old(tracking.ids), old(tracking.endX), |old(tracking.ids)|);
        tracking.ids == Invasions.Keep(old(tracking.ids), drop) &&
        tracking.uids == Invasions.Keep(old(tracking.uids), drop) &&
        tracking.endX == Invasions.Keep(old(tracking.endX), drop) &&
        tracking.dpId == Invasions.Keep(old(tracking.dpId), drop) &&
        tracking.idsRegion == Invasions.Keep(old(tracking.idsRegion), drop) &&
        finalTimes == old(finalTimes) + Repeat(s.time, |drop|)
      ensures forall k :: 0 <= k < |tracking.ids| ==>
        !Finished(s.cms, tracking.ids[k], tracking.endX[k])
      ensures state == old(state) && lastStartTime == old(lastStartTime)
      ensures lastCheckTime == old(lastCheckTime) && dataPointId == old(dataPointId)
      ensures initTimes == old(initTimes)
    {
      var toRemove, times := Scan(s, finalTimes);
      finalTimes := times;
      ghost var g0 := tracking.ids;
      ghost var e0 := tracking.endX;
      assert forall k :: 0 <= k < |toRemove| ==> toRemove[k] in toRemove;
      tracking.Remove(toRemove);
      KeepUnfinishedAll(s.cms, g0, e0);
    }

    /**
     * The loop of `check`: the indices of the finished groups in ascending order,
     * with the time appended to the final times once for each.
     */
    method Scan(s: Snapshot, times0: seq<real>) returns (toRemove: seq<int>, times: seq<real>)
      requires Valid() && Fits(s, numRings)
      ensures toRemove == FinishedIdx(s.cms, tracking.ids, tracking.endX, |tracking.ids|)
      ensures times == times0 + Repeat(s.time, |toRemove|)
    {
      toRemove := [];
      times := times0;
      var idx := 0;
      var n := tracking.Size();
      var groups, ends := tracking.ids, tracking.endX;
      while idx < n
        invariant 0 <= idx <= n
        invariant toRemove == FinishedIdx(s.cms, groups, ends, idx)
        invariant times == times0 + Repeat(s.time, |toRemove|)
      {
        toRemove, times := ScanGroup(s, groups, ends, idx, toRemove, times, times0);
        idx := idx + 1;
      }
    }

    /** One iteration of the loop of `check`: group `idx` is queued, and the time logged, when it is finished. */
    method ScanGroup(s: Snapshot, groups: seq<seq<int>>, ends: seq<real>, idx: int,
                     toRemove: seq<int>, times: seq<real>, times0: seq<real>)
      returns (toRemove': seq<int>, times': seq<real>)
      requires 0 <= idx < |groups| == |ends| && AllInRange(groups, |s.cms|)
      requires toRemove == FinishedIdx(s.cms, groups, ends, idx)
      requires times == times0 + Repeat(s.time, |toRemove|)
      ensures toRemove' == FinishedIdx(s.cms, groups, ends, idx + 1)
      ensures times' == times0 + Repeat(s.time, |toRemove'|)
    {
      toRemove', times' := toRemove, times;
      if Finished(s.cms, groups[idx], ends[idx]) {
        toRemove' := toRemove + [idx];
        times' := times + [s.time];
        assert Repeat(s.time, |toRemove|) + [s.time] == Repeat(s.time, |toRemove'|);
      }
    }

    /**
     * The state a `check` leaves when it found the lists `ids0` .. `region0`
     * and the final times `final0`: the finished groups are gone from every
     * list and the time is logged once per removed group.
     */
    ghost predicate CheckedFrom(s: Snapshot, ids0: seq<seq<int>>, uids0: seq<seq<int>>, endX0: seq<real>,
                                dpId0: seq<int>, region0: seq<seq<int>>, final0: seq<real>)
      reads this, tracking
    {
      |ids0| <= |endX0| && AllInRange(ids0, |s.cms|) &&
      var drop := FinishedIdx(s.cms, ids0, endX0, |ids0|);
      tracking.ids == Invasions.Keep(ids0, drop) &&
      tracking.uids == Invasions.Keep(uids0, drop) &&
      tracking.endX == Invasions.Keep(endX0, drop) &&
      tracking.dpId == Invasions.Keep(dpId0, drop) &&
      tracking.idsRegion == Invasions.Keep(region0, drop) &&
      finalTimes == final0 + Repeat(s.time, |drop|)
    }

    /**
     * The state a successful `start` leaves when it found the lists `ids0` ..
     * `region0`: the selected group is appended to them with its data, the
     * time is logged and `data_point_id` advances.
     */
    ghost predicate StartedFrom(s: Snapshot, ids0: seq<seq<int>>, uids0: seq<seq<int>>, endX0: seq<real>,
                                dpId0: seq<int>, region0: seq<seq<int>>, dp0: int, init0: seq<real>)
      reads this, tracking
      requires Fits(s, numRings)
    {
      var nw := NewIds(ids0, s);
      |nw| > 0 && InRange(nw, |s.cms|) &&
      tracking.ids == ids0 + [nw] &&
      tracking.uids == uids0 + [RingsQuantities.Pick(s.uids, nw)] &&
      tracking.endX == endX0 + [MeanX(s.cms, nw) + waitDist] &&
      tracking.dpId == dpId0 + [dp0] &&
      tracking.idsRegion == region0 + [RegionIds(s)] &&
      initTimes == init0 + [s.time] && dataPointId == dp0 + 1
    }

    /** Start attempts are due when nothing is tracked or `start_dt` has passed. */
    predicate StartDue(s: Snapshot)
      reads this, tracking
      requires tracking.Valid()
    {
      tracking.Size() == 0 || s.time > lastStartTime + startDt
    }

    /**
     * `collect`: in waiting, a due start switches to starting, and otherwise a
     * `check` runs once `check_dt` has passed; in starting (reached now or before),
     * a successful `start` records the time and switches to waiting.
     */
    method Collect(s: Snapshot)
      requires Valid() && Fits(s, numRings)
      modifies tracking, this
      ensures Valid() && tracking == old(tracking) && state in {Starting, Waiting}
      ensures old(state) == Waiting && !old(StartDue(s)) ==>
        state == Waiting && lastStartTime == old(lastStartTime) &&
        (s.time > old(lastCheckTime) + checkDt ==>
           lastCheckTime == s.time &&
           CheckedFrom(s, old(tracking.ids), old(tracking.uids), old(tracking.endX),
                       old(tracking.dpId), old(tracking.idsRegion), old(finalTimes))) &&
        (!(s.time > old(lastCheckTime) + checkDt) ==> lastCheckTime == old(lastCheckTime) && unchanged(tracking))
      ensures (old(state) == Starting || old(StartDue(s))) ==>
        var started := |NewIds(old(tracking.ids), s)| > 0;
        lastCheckTime == old(lastCheckTime) &&
        (started ==>
           state == Waiting && lastStartTime == s.time &&
           StartedFrom(s, old(tracking.ids), old(tracking.uids), old(tracking.endX),
                       old(tracking.dpId), old(tracking.idsRegion), old(dataPointId), old(initTimes))) &&
        (!started ==> state == Starting && lastStartTime == old(lastStartTime) && unchanged(tracking))
    {
      if state == Waiting {
        if tracking.Size() == 0 || s.time > lastStartTime + startDt {
          state := Starting;
        } else if s.time > lastCheckTime + checkDt {
          lastCheckTime := s.time;
          Check(s);
        }
      }
      if state == Starting {
        var ok := Start(s);
        if ok {
          lastStartTime := s.time;
          state := Waiting;
        }
      }
    }
  }
}
