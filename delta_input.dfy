/**
 * The delta collector of the input-parameter study: a `TrackingInfo` of single
 * tracked rings and the `start` step that begins tracking every centre ring not
 * yet tracked. The older collector's `calc_delta` reads the neighbour table.
 */
module DeltaInput {
  import opened Wrappers
  import opened Numeric
  import Delta
  import Invasions
  import RingsQuantities
  import NeighborTable

  /** Python's `list.pop(idx)` position: a negative index counts from the end. */
  function PopIndex(idx: int, n: nat): (r: Option<nat>)
    ensures r.Some? <==> -(n as int) <= idx < n
    ensures r.Some? ==> r.value < n && (idx >= 0 ==> r.value == idx) && (idx < 0 ==> r.value == n + idx)
  {
    if 0 <= idx < n then Some(idx) else if -(n as int) <= idx < 0 then Some(n + idx) else None
  }

  class TrackingInfo {
    var ids: seq<int>
    var uids: seq<int>
    var endX: seq<real>
    var dpId: seq<int>

    /** The four parallel lists always have the same length. */
    ghost predicate Valid()
      reads this
    {
      |uids| == |ids| && |endX| == |ids| && |dpId| == |ids|
    }

    constructor ()
      ensures Valid() && ids == [] && uids == [] && endX == [] && dpId == []
    {
      ids, uids, endX, dpId := [], [], [], [];
    }

    /** `size`: the common length of the lists. */
    function Size(): (n: nat)
      requires Valid()
      reads this
      ensures n == |ids| == |uids| == |endX| == |dpId|
    {
      |ids|
    }

    /** `add`: one new element at the end of each list. */
    method Add(id: int, uid: int, ex: real, dp: int)
      requires Valid()
      modifies this
      ensures Valid()
      ensures ids == old(ids) + [id] && uids == old(uids) + [uid]
      ensures endX == old(endX) + [ex] && dpId == old(dpId) + [dp]
    {
      ids := ids + [id];
      uids := uids + [uid];
      endX := endX + [ex];
      dpId := dpId + [dp];
    }

    /**
     * `remove(idx)`: pops position `idx` (negative from the end) from every list;
     * a position outside the lists raises IndexError at the first pop, before
     * anything changed.
     */
    method Remove(idx: int) returns (r: Result<()>)
      requires Valid()
      modifies this
      ensures Valid()
      ensures r.Err? <==> PopIndex(idx, |old(ids)|).None?
      ensures r.Err? ==> r.error == IndexError && unchanged(this)
      ensures r.Ok? ==>
        var k := PopIndex(idx, |old(ids)|).value;
        ids == Invasions.EraseAt(old(ids), k) && uids == Invasions.EraseAt(old(uids), k) &&
        endX == Invasions.EraseAt(old(endX), k) && dpId == Invasions.EraseAt(old(dpId), k)
    {
      var k := PopIndex(idx, |ids|);
      if k.None? {
        return Err(IndexError);
      }
      ids := Invasions.EraseAt(ids, k.value);
      uids := Invasions.EraseAt(uids, k.value);
      endX := Invasions.EraseAt(endX, k.value);
      dpId := Invasions.EraseAt(dpId, k.value);
      r := Ok(());
    }
  }

  /**
   * The candidates the `start` loop adds, in order: each one not tracked before
   * and not added earlier in the same loop.
   */
  function Fresh(tracked: seq<int>, cands: seq<int>): (r: seq<int>)
    ensures |r| <= |cands|
  {
    if cands == [] then []
    else
      var n := |cands| - 1;
      var p := Fresh(tracked, cands[..n]);
      if cands[n] in tracked || cands[n] in p then p else p + [cands[n]]
  }

  /** A candidate is added iff it was not tracked. */
  lemma {:induction false} FreshMembers(tracked: seq<int>, cands: seq<int>, x: int)
    ensures x in Fresh(tracked, cands) <==> x in cands && x !in tracked
  {
    if cands != [] {
      var n := |cands| - 1;
      FreshMembers(tracked, cands[..n], x);
      assert cands == cands[..n] + [cands[n]];
    }
  }

  predicate Distinct(s: seq<int>)
  {
    forall a, b :: 0 <= a < b < |s| ==> s[a] != s[b]
  }

  /** Each ring is tracked at most once: the additions keep the tracked ids distinct. */
  lemma {:induction false} FreshKeepsDistinct(tracked: seq<int>, cands: seq<int>)
    requires Distinct(tracked)
    ensures Distinct(tracked + Fresh(tracked, cands))
  {
    if cands != [] {
      var n := |cands| - 1;
      var p := Fresh(tracked, cands[..n]);
      FreshKeepsDistinct(tracked, cands[..n]);
      if !(cands[n] in tracked || cands[n] in p) {
        var t := tracked + p;
        assert cands[n] !in t;
        assert tracked + (p + [cands[n]]) == t + [cands[n]];
        forall a, b | 0 <= a < b < |t| + 1
          ensures (t + [cands[n]])[a] != (t + [cands[n]])[b]
        {
          if b == |t| {
            assert t[a] in t;
          }
        }
      }
    }
  }

  /** The ids the collector reads as the centre candidates: active, in the extended strip, then in the centre. */
  function Candidates(s: Delta.Snapshot, n: nat, xlo: real, xhi: real, extLo: real, extHi: real): (r: seq<int>)
    requires Delta.Fits(s, n)
    ensures Delta.InRange(r, n)
  {
    var region := Delta.InStrip(s.cms, s.active, extLo, extHi);
    Delta.InStrip(s.cms, region, xlo, xhi)
  }

  function RepeatInt(x: int, n: nat): (r: seq<int>)
    ensures |r| == n && forall k :: 0 <= k < n ==> r[k] == x
  {
    seq(n, _ => x)
  }

  /** `end_x` of each added ring: its x plus `wait_dist`. */
  function Ends(cms: seq<Point>, ids: seq<int>, w: real): (r: seq<real>)
    requires Delta.InRange(ids, |cms|)
    ensures |r| == |ids| && forall k :: 0 <= k < |ids| ==> r[k] == cms[ids[k]].0 + w
  {
    seq(|ids|, k requires 0 <= k < |ids| => cms[ids[k]].0 + w)
  }

  /** One more candidate: it is appended iff the tracked ids so far do not hold it. */
  lemma FreshStep(tracked: seq<int>, cands: seq<int>, i: int)
    requires 0 <= i < |cands|
    ensures var p := Fresh(tracked, cands[..i]);
      Fresh(tracked, cands[..i + 1]) == if cands[i] in tracked + p then p else p + [cands[i]]
  {
    assert cands[..i + 1][..i] == cands[..i];
  }

  lemma EndsSnoc(cms: seq<Point>, ids: seq<int>, x: int, w: real)
    requires Delta.InRange(ids, |cms|) && 0 <= x < |cms|
    ensures Delta.InRange(ids + [x], |cms|)
    ensures Ends(cms, ids + [x], w) == Ends(cms, ids, w) + [cms[x].0 + w]
  {
    assert Delta.InRange(ids + [x], |cms|);
  }

  lemma PickSnoc(u: seq<int>, ids: seq<int>, x: int)
    requires Delta.InRange(ids, |u|) && 0 <= x < |u|
    ensures Delta.InRange(ids + [x], |u|)
    ensures RingsQuantities.Pick(u, ids + [x]) == RingsQuantities.Pick(u, ids) + [u[x]]
  {
    assert Delta.InRange(ids + [x], |u|);
  }

  /**
   * The four tracking lists are the lists `before` followed by the entries of
   * the rings `sel`: their ids, unique ids, end positions and data point id.
   */
  ghost predicate Appended(ids: seq<int>, uids: seq<int>, endX: seq<real>, dpId: seq<int>,
                           before: (seq<int>, seq<int>, seq<real>, seq<int>),
                           s: Delta.Snapshot, sel: seq<int>, dp: int, w: real)
  {
    Delta.InRange(sel, |s.cms|) && Delta.InRange(sel, |s.uids|) &&
    ids == before.0 + sel &&
    uids == before.1 + RingsQuantities.Pick(s.uids, sel) &&
    endX == before.2 + Ends(s.cms, sel, w) &&
    dpId == before.3 + RepeatInt(dp, |sel|)
  }

  lemma AppendedSnoc(ids: seq<int>, uids: seq<int>, endX: seq<real>, dpId: seq<int>,
                     before: (seq<int>, seq<int>, seq<real>, seq<int>),
                     s: Delta.Snapshot, sel: seq<int>, x: int, dp: int, w: real)
    requires Appended(ids, uids, endX, dpId, before, s, sel, dp, w)
    requires 0 <= x < |s.cms| && x < |s.uids|
    ensures Appended(ids + [x], uids + [s.uids[x]], endX + [s.cms[x].0 + w], dpId + [dp],
                     before, s, sel + [x], dp, w)
  {
    EndsSnoc(s.cms, sel, x, w);
    PickSnoc(s.uids, sel, x);
    assert RepeatInt(dp, |sel| + 1) == RepeatInt(dp, |sel|) + [dp];
  }

  lemma FreshInRange(tracked: seq<int>, cands: seq<int>, n: int)
    requires Delta.InRange(cands, n)
    ensures Delta.InRange(Fresh(tracked, cands), n)
  {
    var f := Fresh(tracked, cands);
    forall k | 0 <= k < |f|
      ensures 0 <= f[k] < n
    {
      assert f[k] in f;
      FreshMembers(tracked, cands, f[k]);
      var j :| 0 <= j < |cands| && cands[j] == f[k];
    }
  }

  class DeltaCol {
    const waitDist: real
    const xlo: real
    const xhi: real
    /** `xlims_extended`: the strip widened by one ring diameter on each side. */
    const extLo: real
    const extHi: real
    const numRings: nat
    var dataPointId: int
    var tracking: TrackingInfo

    ghost predicate Valid()
      reads this, tracking
    {
      tracking.Valid() && Distinct(tracking.ids)
    }

    /** The ring diameter is passed in; the source derives it from the ring configuration. */
    constructor (waitDist: real, xlims: (real, real), ringDiameter: real, numRings: nat)
      ensures Valid() && fresh(tracking) && tracking.ids == [] && dataPointId == 0
      ensures this.waitDist == waitDist && xlo == xlims.0 && xhi == xlims.1 && this.numRings == numRings
      ensures extLo == xlims.0 - ringDiameter && extHi == xlims.1 + ringDiameter
    {
      this.waitDist := waitDist;
      xlo, xhi := xlims.0, xlims.1;
      extLo, extHi := xlims.0 - ringDiameter, xlims.1 + ringDiameter;
      this.numRings := numRings;
      dataPointId := 0;
      tracking := new TrackingInfo();
    }

    /**
     * `start`: every centre candidate that is not yet tracked is added with its
     * unique id, its x plus `wait_dist` and the current data point id; false, with
     * nothing added, when there is none, and otherwise the data point id advances.
     */
    method Start(s: Delta.Snapshot) returns (ok: bool)
      requires Valid() && Delta.Fits(s, numRings)
      modifies this, tracking
      ensures Valid() && tracking == old(tracking)
      ensures var sel := Fresh(old(tracking.ids), Candidates(s, numRings, xlo, xhi, extLo, extHi));
        Delta.InRange(sel, numRings) &&
        (ok <==> |sel| > 0) &&
        tracking.ids == old(tracking.ids) + sel &&
        tracking.uids == old(tracking.uids) + RingsQuantities.Pick(s.uids, sel) &&
        tracking.endX == old(tracking.endX) + Ends(s.cms, sel, waitDist) &&
        tracking.dpId == old(tracking.dpId) + RepeatInt(old(dataPointId), |sel|) &&
        dataPointId == old(dataPointId) + (if ok then 1 else 0)
    {
      var cands := Delta.InStrip(s.cms, Delta.InStrip(s.cms, s.active, extLo, extHi), xlo, xhi);
      FreshKeepsDistinct(tracking.ids, cands);
      FreshInRange(tracking.ids, cands, numRings);
      var added := Track(s, cands);
      if added == 0 {
        return false;
      }
      dataPointId := dataPointId + 1;
      return true;
    }

    /** One pass of the `start` loop: the candidate is added when it is not tracked yet. */
    method TrackOne(s: Delta.Snapshot, id: int, ghost before: (seq<int>, seq<int>, seq<real>, seq<int>),
                    ghost sel: seq<int>) returns (isNew: bool)
      requires tracking.Valid() && Delta.Fits(s, numRings) && 0 <= id < numRings
      requires Appended(tracking.ids, tracking.uids, tracking.endX, tracking.dpId, before, s, sel, dataPointId, waitDist)
      modifies tracking
      ensures tracking.Valid() && isNew == (id !in old(tracking.ids))
      ensures Appended(tracking.ids, tracking.uids, tracking.endX, tracking.dpId, before, s,
                       if isNew then sel + [id] else sel, dataPointId, waitDist)
    {
      isNew := id !in tracking.ids;
      if isNew {
        AppendedSnoc(tracking.ids, tracking.uids, tracking.endX, tracking.dpId, before,
                     s, sel, id, dataPointId, waitDist);
        tracking.Add(id, s.uids[id], s.cms[id].0 + waitDist, dataPointId);
      }
    }

    /** The loop of `start`: adds each candidate not found in the tracked ids. */
    method Track(s: Delta.Snapshot, cands: seq<int>) returns (added: nat)
      requires tracking.Valid() && Delta.Fits(s, numRings) && Delta.InRange(cands, numRings)
      modifies tracking
      ensures tracking.Valid()
      ensures var sel := Fresh(old(tracking.ids), cands);
        Delta.InRange(sel, numRings) && added == |sel| &&
        tracking.ids == old(tracking.ids) + sel &&
        tracking.uids == old(tracking.uids) + RingsQuantities.Pick(s.uids, sel) &&
        tracking.endX == old(tracking.endX) + Ends(s.cms, sel, waitDist) &&
        tracking.dpId == old(tracking.dpId) + RepeatInt(dataPointId, |sel|)
    {
      ghost var t0, u0, e0, d0 := tracking.ids, tracking.uids, tracking.endX, tracking.dpId;
      added := 0;
      var i := 0;
      while i < |cands|
        invariant 0 <= i <= |cands| && tracking.Valid()
        invariant Delta.InRange(Fresh(t0, cands[..i]), numRings)
        invariant Appended(tracking.ids, tracking.uids, tracking.endX, tracking.dpId, (t0, u0, e0, d0),
                           s, Fresh(t0, cands[..i]), dataPointId, waitDist)
        invariant added == |Fresh(t0, cands[..i])|
      {
        ghost var p := Fresh(t0, cands[..i]);
        FreshStep(t0, cands, i);
        FreshInRange(t0, cands[..i + 1], numRings);
        var isNew := TrackOne(s, cands[i], (t0, u0, e0, d0), p);
        if isNew {
          added := added + 1;
        }
        i := i + 1;
      }
      assert cands[..i] == cands;
    }
  }

  /**
   * `calc_delta(cm, i)` of the older collector: delta of the i-th selected ring
   * from row `i` of the neighbour table.
   */
  function CalcDelta(table: NeighborTable.Neighbors, cms: seq<Point>, i: int): (r: Option<real>)
    requires table.Valid() && 0 <= i < table.numMaxRings
    requires NeighborTable.RowFits(cms, i, table.RingsNeighs(i), table.Dists(i))
    reads table, table.nb, table.ds, table.neighCount
    ensures var nbs := table.RingsNeighs(i);
      (r.Some? <==> table.neighCount[i] > 0 && NeighborTable.Apart(cms, i, nbs)) &&
      (r.Some? ==> r.value == 1.0 - Sum(NeighborTable.Ratios(cms, i, nbs, table.Dists(i))) / table.neighCount[i] as real)
  {
    NeighborTable.RingDelta(cms, i, table.RingsNeighs(i), table.Dists(i))
  }
}
