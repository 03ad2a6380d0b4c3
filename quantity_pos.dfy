/**
 * The position-quantity collectors (`QuantityPosCol` and the collectors it
 * manages).  Every `collect_dt` steps the root collector selects the active
 * rings whose centre lies in the collection region; each managed collector
 * then records one data point (the centres, the polarisation angles, the
 * areas, or, over two calls `frame_dt` steps apart, the centres at both
 * times), and a buffer that becomes full is saved as a file and emptied.
 *
 * A buffer is represented by the points it has recorded, each read back as
 * `ArraySizeAware.__getitem__` returns it (see `DataTypes.ArraySizeAware.Add`);
 * the saved files are kept as the sequence of buffers written out.
 */
module QuantityPos {
  import opened Wrappers
  import opened Numeric
  import DataTypes

  type Row = DataTypes.Row

  /** The four collector configurations; only the velocity one has a parameter. */
  datatype QuantityCfg = CmsCfg | VelocityCfg(frameDt: int) | PolarityCfg | AreaCfg

  /** `num_dims`: the number of coordinates of each element of a point. */
  function NumDims(c: QuantityCfg): nat
  {
    match c
    case CmsCfg => 2
    case VelocityCfg(_) => 4
    case PolarityCfg => 1
    case AreaCfg => 1
  }

  /** `name`: the root of the data file names. */
  function Name(c: QuantityCfg): string
  {
    match c
    case CmsCfg => "cms"
    case VelocityCfg(_) => "vel_cms"
    case PolarityCfg => "pol"
    case AreaCfg => "area"
  }

  datatype ColKind = CmsCol | VelocityCol | PolarityCol | AreaCol

  /** `quantity_cfg_to_col`: the collector class of each configuration type. */
  function ColFor(c: QuantityCfg): (k: ColKind)
    ensures k == CmsCol <==> c.CmsCfg?
    ensures k == VelocityCol <==> c.VelocityCfg?
    ensures k == PolarityCol <==> c.PolarityCfg?
    ensures k == AreaCol <==> c.AreaCfg?
  {
    match c
    case CmsCfg => CmsCol
    case VelocityCfg(_) => VelocityCol
    case PolarityCfg => PolarityCol
    case AreaCfg => AreaCol
  }

  /** Two configurations get the same collector exactly when they write files of the same name. */
  lemma ColForNames(a: QuantityCfg, b: QuantityCfg)
    ensures ColFor(a) == ColFor(b) <==> Name(a) == Name(b)
  {
    if ColFor(a) != ColFor(b) {
      assert Name(a)[0] != Name(b)[0];
    }
  }

  // ----- the configuration list -------------------------------------------

  predicate HasCms(cfgs: seq<QuantityCfg>)
  {
    exists k :: 0 <= k < |cfgs| && cfgs[k].CmsCfg?
  }

  function CountCms(cfgs: seq<QuantityCfg>): nat
  {
    if cfgs == [] then 0
    else CountCms(cfgs[..|cfgs| - 1]) + (if cfgs[|cfgs| - 1].CmsCfg? then 1 else 0)
  }

  /** The configuration list after the constructor: a `CmsCfg` is appended when none is there. */
  function WithCms(cfgs: seq<QuantityCfg>): seq<QuantityCfg>
  {
    if HasCms(cfgs) then cfgs else cfgs + [CmsCfg()]
  }

  lemma {:induction false} CountCmsPositive(cfgs: seq<QuantityCfg>)
    ensures CountCms(cfgs) > 0 <==> HasCms(cfgs)
  {
    if cfgs != [] {
      var n := |cfgs| - 1;
      CountCmsPositive(cfgs[..n]);
      if HasCms(cfgs[..n]) {
        var k :| 0 <= k < n && cfgs[..n][k].CmsCfg?;
        assert cfgs[k].CmsCfg?;
      }
      if HasCms(cfgs) && !cfgs[n].CmsCfg? {
        var k :| 0 <= k < |cfgs| && cfgs[k].CmsCfg?;
        assert cfgs[..n][k].CmsCfg?;
      }
    }
  }

  /**
   * The completed list keeps the given configurations in order and holds a
   * `CmsCfg`; its number of `CmsCfg` entries is that of the input, or one if
   * there was none, so a list with at most one ends with exactly one.
   * Completing twice changes nothing more.
   */
  lemma WithCmsSpec(cfgs: seq<QuantityCfg>)
    ensures cfgs <= WithCms(cfgs) && |WithCms(cfgs)| <= |cfgs| + 1
    ensures HasCms(WithCms(cfgs))
    ensures CountCms(WithCms(cfgs)) == if CountCms(cfgs) == 0 then 1 else CountCms(cfgs)
    ensures WithCms(WithCms(cfgs)) == WithCms(cfgs)
  {
    CountCmsPositive(cfgs);
    var r := WithCms(cfgs);
    if !HasCms(cfgs) {
      assert r[..|cfgs|] == cfgs;
      assert r[|cfgs|].CmsCfg?;
    }
  }

  /** The loop of the constructor that looks for a `CmsCfg`, then the append. */
  method AddCmsIfMissing(cfgs: seq<QuantityCfg>) returns (r: seq<QuantityCfg>)
    ensures r == WithCms(cfgs)
  {
    var hasCms := false;
    var i := 0;
    while i < |cfgs|
      invariant 0 <= i <= |cfgs| && !hasCms
      invariant forall k :: 0 <= k < i ==> !cfgs[k].CmsCfg?
    {
      if cfgs[i].CmsCfg? {
        hasCms := true;
        break;
      }
      i := i + 1;
    }
    assert hasCms == HasCms(cfgs) by {
      if hasCms {
        assert cfgs[i].CmsCfg?;
      }
    }
    r := cfgs;
    if !hasCms {
      r := r + [CmsCfg()];
    }
  }

  /**
   * `num_max_rings`: the region's extents, each cut at the space's, times 1.2
   * over the equilibrium area, truncated.  An infinite bound (`"all"`) gives
   * the space's extent.
   */
  datatype Lims = All | Between(lo: real, hi: real)

  function Extent(l: Lims, spaceSize: real): (e: real)
    ensures e <= spaceSize
    ensures l.All? ==> e == spaceSize
    ensures l.Between? && l.hi - l.lo <= spaceSize ==> e == l.hi - l.lo
  {
    if l.All? || l.hi - l.lo > spaceSize then spaceSize else l.hi - l.lo
  }

  function NumMaxRings(xlims: Lims, ylims: Lims, length: real, height: real, areaEq: real): (r: Result<int>)
    ensures areaEq == 0.0 <==> r == Err(ZeroDivisionError)
    ensures r.Ok? ==> r.value == Trunc(Extent(xlims, length) * Extent(ylims, height) / areaEq * 1.2)
  {
    if areaEq == 0.0 then Err(ZeroDivisionError)
    else Ok(Trunc(Extent(xlims, length) * Extent(ylims, height) / areaEq * 1.2))
  }

  // ----- the collection region --------------------------------------------

  predicate InLims(l: Lims, v: real)
  {
    l.All? || l.lo < v < l.hi
  }

  datatype CheckType = OnlyX | OnlyY | Both | NoCheck

  /** `get_check_type` from the two flags `check_x`, `check_y`. */
  function GetCheckType(checkX: bool, checkY: bool): (c: CheckType)
    ensures c == Both <==> checkX && checkY
    ensures c == OnlyX <==> checkX && !checkY
    ensures c == OnlyY <==> !checkX && checkY
    ensures c == NoCheck <==> !checkX && !checkY
  {
    if checkX && checkY then Both
    else if checkX && !checkY then OnlyX
    else if !checkX && checkY then OnlyY
    else NoCheck
  }

  /**
   * The flags `get_check_type` computes are `xlims != 0` and `ylims != 0`; a
   * list of limits never equals 0, so every configuration checks both axes.
   */
  const ConfiguredCheck: CheckType := GetCheckType(true, true)

  /** The mask of `cms_in_region` for one centre. */
  predicate InRegion(ct: CheckType, xlims: Lims, ylims: Lims, p: Point)
  {
    match ct
    case NoCheck => true
    case OnlyX => InLims(xlims, p.0)
    case OnlyY => InLims(ylims, p.1)
    case Both => InLims(ylims, p.1) && InLims(xlims, p.0)
  }

  predicate IdsIn(ids: seq<int>, n: int)
  {
    forall k :: 0 <= k < |ids| ==> 0 <= ids[k] < n
  }

  /** The ids whose centre passes the mask, in their order. */
  function Masked(ct: CheckType, xlims: Lims, ylims: Lims, ids: seq<int>, cms: seq<Point>): (r: seq<int>)
    requires IdsIn(ids, |cms|)
    ensures |r| <= |ids| && IdsIn(r, |cms|)
  {
    if ids == [] then []
    else
      var n := |ids| - 1;
      Masked(ct, xlims, ylims, ids[..n], cms) + (if InRegion(ct, xlims, ylims, cms[ids[n]]) then [ids[n]] else [])
  }

  /** `cms_in_region`'s ids: the active ids (the first `num_active` of `rings_ids`), masked unless the check is `none`. */
  function RegionIds(ct: CheckType, xlims: Lims, ylims: Lims, ringsIds: seq<int>, numActive: nat, cms: seq<Point>): seq<int>
    requires numActive <= |ringsIds| && IdsIn(ringsIds[..numActive], |cms|)
  {
    var active := ringsIds[..numActive];
    if ct == NoCheck then active else Masked(ct, xlims, ylims, active, cms)
  }

  /** `cms[ids]`. */
  function Centres(cms: seq<Point>, ids: seq<int>): (r: seq<Point>)
    requires IdsIn(ids, |cms|)
    ensures |r| == |ids| && forall k :: 0 <= k < |ids| ==> r[k] == cms[ids[k]]
  {
    seq(|ids|, k requires 0 <= k < |ids| => cms[ids[k]])
  }

  /** A ring is selected exactly when it is active and its centre passes the mask. */
  lemma {:induction false} MaskedMembers(ct: CheckType, xlims: Lims, ylims: Lims, ids: seq<int>, cms: seq<Point>, x: int)
    requires IdsIn(ids, |cms|)
    ensures x in Masked(ct, xlims, ylims, ids, cms) <==> x in ids && InRegion(ct, xlims, ylims, cms[x])
  {
    if ids != [] {
      var n := |ids| - 1;
      assert ids == ids[..n] + [ids[n]];
      MaskedMembers(ct, xlims, ylims, ids[..n], cms, x);
    }
  }

  /** A mask every centre passes keeps all the ids, in order. */
  lemma {:induction false} MaskedAll(ct: CheckType, xlims: Lims, ylims: Lims, ids: seq<int>, cms: seq<Point>)
    requires IdsIn(ids, |cms|)
    requires forall k :: 0 <= k < |ids| ==> InRegion(ct, xlims, ylims, cms[ids[k]])
    ensures Masked(ct, xlims, ylims, ids, cms) == ids
  {
    if ids != [] {
      var n := |ids| - 1;
      MaskedAll(ct, xlims, ylims, ids[..n], cms);
      assert ids == ids[..n] + [ids[n]];
    }
  }

  /**
   * The selected rings are the active ones inside the region (for `none`,
   * all of them); with `"all"` limits on both axes every active ring is
   * selected, in order, whatever the check type.
   */
  lemma RegionIdsSpec(ct: CheckType, xlims: Lims, ylims: Lims, ringsIds: seq<int>, numActive: nat, cms: seq<Point>, x: int)
    requires numActive <= |ringsIds| && IdsIn(ringsIds[..numActive], |cms|)
    ensures x in RegionIds(ct, xlims, ylims, ringsIds, numActive, cms) <==>
      x in ringsIds[..numActive] && InRegion(ct, xlims, ylims, cms[x])
    ensures xlims.All? && ylims.All? ==> RegionIds(ct, xlims, ylims, ringsIds, numActive, cms) == ringsIds[..numActive]
  {
    var active := ringsIds[..numActive];
    if ct != NoCheck {
      MaskedMembers(ct, xlims, ylims, active, cms, x);
      if xlims.All? && ylims.All? {
        MaskedAll(ct, xlims, ylims, active, cms);
      }
    }
  }

  /** `get_is_time`. */
  predicate IsTime(numTimeSteps: int, colLastTime: int, collectDt: int)
  {
    numTimeSteps - colLastTime >= collectDt
  }

  // ----- one managed collector, as a value --------------------------------

  /**
   * What one call hands every managed collector: the step count, the root's
   * `is_time` and `col_last_time`, the selected ids and centres, and the
   * solver's per-ring arrays (centres, polarisation angles, areas).
   */
  datatype Env = Env(
    timeDt: int, isTime: bool, colLastTime: int,
    idsIn: seq<int>, cmsIn: seq<Point>,
    cms: seq<Point>, angles: seq<real>, areas: seq<real>)

  /** The per-ring arrays have one entry per ring slot, and the selection indexes them. */
  predicate EnvOk(e: Env, numRings: nat)
  {
    |e.cms| == |e.angles| == |e.areas| == numRings &&
    IdsIn(e.idsIn, numRings) && |e.cmsIn| == |e.idsIn|
  }

  /**
   * The state of a managed collector: `points` recorded in the current
   * buffer (of `capacity` points of at most `maxRings` elements), the
   * `files` saved so far, `file_id`, and the velocity collector's frame with
   * the ids and first centres of the half-done point.
   */
  datatype QState = QState(
    cfg: QuantityCfg, capacity: nat, maxRings: nat,
    points: seq<seq<Row>>, files: seq<seq<seq<Row>>>, fileId: nat,
    velFrame: int, velPointIds: seq<int>, velPointFirst: seq<Point>)

  /**
   * Between calls: the buffer is not full (a buffer of capacity 0 stays
   * empty), one file per `file_id`, every saved file full, the frame is 0 or
   * 1 and the half-done point's ids index the ring slots.
   */
  predicate QOk(q: QState, numRings: nat)
  {
    (|q.points| < q.capacity || (q.capacity == 0 && q.points == [])) &&
    q.fileId == |q.files| &&
    (forall f :: 0 <= f < |q.files| ==> |q.files[f]| == q.capacity) &&
    (q.velFrame == 0 || q.velFrame == 1) &&
    |q.velPointIds| == |q.velPointFirst| && IdsIn(q.velPointIds, numRings)
  }

  function Initial(cfg: QuantityCfg, capacity: nat, maxRings: nat): QState
  {
    QState(cfg, capacity, maxRings, [], [], 0, 0, [], [])
  }

  /** `to_collect`: the velocity collector's second frame waits `frame_dt` steps; every other call follows `is_time`. */
  predicate ToCollect(q: QState, e: Env)
  {
    if q.cfg.VelocityCfg? && q.velFrame != 0 then e.timeDt - e.colLastTime >= q.cfg.frameDt
    else e.isTime
  }

  /** Whether a collecting call adds a point (every one but the velocity collector's first frame). */
  predicate Adds(q: QState)
  {
    !(q.cfg.VelocityCfg? && q.velFrame == 0)
  }

  /**
   * The point `collect` adds: the selected centres, the selected angles or
   * areas as one-element rows, or, for velocities, the first centres next to
   * the current centres of the same rings.
   */
  function NewPoint(q: QState, e: Env, numRings: nat): (x: seq<Row>)
    requires QOk(q, numRings) && EnvOk(e, numRings) && Adds(q)
    ensures forall k :: 0 <= k < |x| ==> |x[k]| == NumDims(q.cfg)
  {
    match q.cfg
    case CmsCfg => seq(|e.cmsIn|, k requires 0 <= k < |e.cmsIn| => [e.cmsIn[k].0, e.cmsIn[k].1])
    case PolarityCfg => seq(|e.idsIn|, k requires 0 <= k < |e.idsIn| => [e.angles[e.idsIn[k]]])
    case AreaCfg => seq(|e.idsIn|, k requires 0 <= k < |e.idsIn| => [e.areas[e.idsIn[k]]])
    case VelocityCfg(_) =>
      seq(|q.velPointIds|, k requires 0 <= k < |q.velPointIds| =>
        [q.velPointFirst[k].0, q.velPointFirst[k].1, e.cms[q.velPointIds[k]].0, e.cms[q.velPointIds[k]].1])
  }

  /** How the buffer reads a point back: a single element written to zero-element slots reads as empty. */
  function Stored(x: seq<Row>, maxRings: nat): seq<Row>
  {
    if |x| <= maxRings then x else []
  }

  /** `data.add(x)` on the buffer: a full buffer raises IndexError, a point too long for its slot ValueError. */
  function AddPoint(q: QState, x: seq<Row>): (r: Result<QState>)
  {
    if |q.points| >= q.capacity then Err(IndexError)
    else match DataTypes.UpdateOutcome(q.capacity, q.maxRings, |q.points|, |x|)
      case Raised(err) => Err(err)
      case Done => Ok(q.(points := q.points + [Stored(x, q.maxRings)]))
  }

  /** `collect`, with the velocity collector's frame toggle. */
  function CollectQ(q: QState, e: Env, numRings: nat): Result<QState>
    requires QOk(q, numRings) && EnvOk(e, numRings)
  {
    if !Adds(q) then Ok(q.(velPointIds := e.idsIn, velPointFirst := e.cmsIn, velFrame := 1))
    else
      var r := AddPoint(q, NewPoint(q, e, numRings));
      if r.Err? || !q.cfg.VelocityCfg? then r else Ok(r.value.(velFrame := 0))
  }

  /** The root's treatment of a full buffer: save it as file `file_id`, advance `file_id`, reset it. */
  function Flush(q: QState): QState
  {
    if |q.points| >= q.capacity then q.(files := q.files + [q.points], fileId := q.fileId + 1, points := [])
    else q
  }

  /** One turn of the root's loop for this collector. */
  function StepQ(q: QState, e: Env, numRings: nat): Result<QState>
    requires QOk(q, numRings) && EnvOk(e, numRings)
  {
    var c := if ToCollect(q, e) then CollectQ(q, e, numRings) else Ok(q);
    if c.Err? then c else Ok(Flush(c.value))
  }

  /** All the points recorded so far: the saved files, then the current buffer. */
  ghost function AllPoints(q: QState): seq<seq<Row>>
  {
    DataTypes.Concat(q.files) + q.points
  }

  lemma ConcatSnoc(files: seq<seq<seq<Row>>>, f: seq<seq<Row>>)
    ensures DataTypes.Concat(files + [f]) == DataTypes.Concat(files) + f
  {
    if files != [] {
      assert (files + [f])[1..] == files[1..] + [f];
      ConcatSnoc(files[1..], f);
    }
  }

  /**
   * A turn keeps the state well formed; it fails only when a point has more
   * elements than a slot holds (IndexError cannot happen, the buffer never
   * being full between calls, except for a buffer of capacity 0); and the
   * recorded points grow by exactly the point added, if any, whether or not
   * the buffer was written out to a file.
   */
  lemma {:induction false} StepQSpec(q: QState, e: Env, numRings: nat)
    requires QOk(q, numRings) && EnvOk(e, numRings)
    ensures var r := StepQ(q, e, numRings);
      (r.Ok? ==> QOk(r.value, numRings) && r.value.cfg == q.cfg) &&
      (r.Err? <==> (ToCollect(q, e) && Adds(q) &&
        (q.capacity == 0 || (|NewPoint(q, e, numRings)| > q.maxRings && |NewPoint(q, e, numRings)| != 1)))) &&
      (r.Err? && q.capacity > 0 ==> r.error == ValueError) &&
      (r.Ok? ==> (AllPoints(r.value) ==
        AllPoints(q) + (if ToCollect(q, e) && Adds(q) then [Stored(NewPoint(q, e, numRings), q.maxRings)] else [])))
  {
    StepQKeeps(q, e, numRings);
    StepQRaises(q, e, numRings);
    StepQRecords(q, e, numRings);
  }

  /** A turn keeps the state well formed and the configuration. */
  lemma StepQKeeps(q: QState, e: Env, numRings: nat)
    requires QOk(q, numRings) && EnvOk(e, numRings)
    ensures var r := StepQ(q, e, numRings);
      r.Ok? ==> QOk(r.value, numRings) && r.value.cfg == q.cfg
  {
    if ToCollect(q, e) {
      CollectQSpec(q, e, numRings);
    }
  }

  /** What a turn raises, and when. */
  lemma StepQRaises(q: QState, e: Env, numRings: nat)
    requires QOk(q, numRings) && EnvOk(e, numRings)
    ensures var r := StepQ(q, e, numRings);
      (r.Err? <==> (ToCollect(q, e) && Adds(q) &&
        (q.capacity == 0 || (|NewPoint(q, e, numRings)| > q.maxRings && |NewPoint(q, e, numRings)| != 1)))) &&
      (r.Err? && q.capacity > 0 ==> r.error == ValueError)
  {
    if ToCollect(q, e) {
      CollectQSpec(q, e, numRings);
    }
  }

  /** A turn adds at most the collected point to the recorded points, flushed or not. */
  lemma StepQRecords(q: QState, e: Env, numRings: nat)
    requires QOk(q, numRings) && EnvOk(e, numRings)
    ensures var r := StepQ(q, e, numRings);
      r.Ok? ==> (AllPoints(r.value) ==
        AllPoints(q) + (if ToCollect(q, e) && Adds(q) then [Stored(NewPoint(q, e, numRings), q.maxRings)] else []))
  {
    if ToCollect(q, e) {
      CollectQSpec(q, e, numRings);
    }
    var c := if ToCollect(q, e) then CollectQ(q, e, numRings) else Ok(q);
    if c.Ok? {
      var v := c.value;
      var added := if ToCollect(q, e) && Adds(q) then [Stored(NewPoint(q, e, numRings), q.maxRings)] else [];
      assert v.points == q.points + added && v.files == q.files;
      assert AllPoints(v) == AllPoints(q) + added;
      var f := Flush(v);
      if |v.points| >= v.capacity {
        ConcatSnoc(v.files, v.points);
        assert AllPoints(f) == DataTypes.Concat(v.files) + v.points;
      }
      assert AllPoints(f) == AllPoints(v);
      assert StepQ(q, e, numRings) == Ok(f);
    }
  }

  /** `collect` alone: what it raises, and the point it appends to the buffer. */
  lemma CollectQSpec(q: QState, e: Env, numRings: nat)
    requires QOk(q, numRings) && EnvOk(e, numRings)
    ensures var r := CollectQ(q, e, numRings);
      (r.Err? <==> (Adds(q) &&
        (q.capacity == 0 || (|NewPoint(q, e, numRings)| > q.maxRings && |NewPoint(q, e, numRings)| != 1)))) &&
      (r.Err? && q.capacity > 0 ==> r.error == ValueError) &&
      (r.Ok? ==> (r.value.cfg == q.cfg && r.value.capacity == q.capacity && r.value.files == q.files &&
        r.value.fileId == q.fileId &&
        (r.value.velFrame == 0 || r.value.velFrame == 1) &&
        |r.value.velPointIds| == |r.value.velPointFirst| && IdsIn(r.value.velPointIds, numRings) &&
        r.value.points == q.points + (if Adds(q) then [Stored(NewPoint(q, e, numRings), q.maxRings)] else [])))
  {
  }


  /**
   * A buffer filled by a turn is saved, counted and emptied in the same turn:
   * the new file is the full buffer.
   */
  lemma FullBufferFlushed(q: QState, e: Env, numRings: nat)
    requires QOk(q, numRings) && EnvOk(e, numRings) && q.capacity > 0
    requires ToCollect(q, e) && Adds(q) && |q.points| == q.capacity - 1
    requires StepQ(q, e, numRings).Ok?
    ensures var r := StepQ(q, e, numRings).value;
      r.points == [] && r.fileId == q.fileId + 1 &&
      r.files == q.files + [q.points + [Stored(NewPoint(q, e, numRings), q.maxRings)]]
  {
  }

  /**
   * The velocity collector: a first-frame turn stores the selected ids and
   * centres and adds nothing; a second-frame turn adds the point pairing
   * those centres with the current centres of the same rings; the frame
   * toggles on every collecting turn, so `last_point_completed`
   * (`vel_frame == 0`) flips exactly then.
   */
  lemma VelocityFrames(q: QState, e: Env, numRings: nat)
    requires QOk(q, numRings) && EnvOk(e, numRings) && q.cfg.VelocityCfg?
    requires StepQ(q, e, numRings).Ok?
    ensures var r := StepQ(q, e, numRings).value;
      (LastPointCompleted(r) <==> (LastPointCompleted(q) != ToCollect(q, e))) &&
      (ToCollect(q, e) && q.velFrame == 0 && q.capacity > 0 ==>
        r.velPointIds == e.idsIn && r.velPointFirst == e.cmsIn && r.points == q.points && r.files == q.files) &&
      (ToCollect(q, e) && q.velFrame == 1 && |q.velPointIds| <= q.maxRings ==>
        var x := AllPoints(r)[|AllPoints(q)|];
        |AllPoints(r)| == |AllPoints(q)| + 1 && |x| == |q.velPointIds| &&
        forall k :: 0 <= k < |x| ==>
          x[k] == [q.velPointFirst[k].0, q.velPointFirst[k].1, e.cms[q.velPointIds[k]].0, e.cms[q.velPointIds[k]].1])
  {
    StepQSpec(q, e, numRings);
  }

  /** `before_save_metadata`'s `last_point_completed`. */
  predicate LastPointCompleted(q: QState)
  {
    q.velFrame == 0
  }

  // ----- the root's loop, as values ---------------------------------------

  predicate AllOk(qs: seq<QState>, numRings: nat)
  {
    forall i :: 0 <= i < |qs| ==> QOk(qs[i], numRings)
  }

  lemma AllOkUpdate(qs: seq<QState>, i: nat, q: QState, numRings: nat)
    requires AllOk(qs, numRings) && i < |qs| && QOk(q, numRings)
    ensures AllOk(qs[i := q], numRings)
  {
  }

  /** Each collector's turn, taken on its own. */
  function Turns(qs: seq<QState>, e: Env, numRings: nat): (rs: seq<Result<QState>>)
    requires AllOk(qs, numRings) && EnvOk(e, numRings)
    ensures |rs| == |qs|
  {
    if qs == [] then []
    else
      var n := |qs| - 1;
      Turns(qs[..n], e, numRings) + [StepQ(qs[n], e, numRings)]
  }

  /** The `i`-th turn is the `i`-th collector's. */
  lemma {:induction false} TurnsAt(qs: seq<QState>, e: Env, numRings: nat, i: nat)
    requires AllOk(qs, numRings) && EnvOk(e, numRings) && i < |qs|
    ensures Turns(qs, e, numRings)[i] == StepQ(qs[i], e, numRings)
  {
    var n := |qs| - 1;
    if i < n {
      TurnsAt(qs[..n], e, numRings, i);
    }
  }

  /** The turns taken in order: the first exception ends the call, leaving the rest as they were. */
  function Thread<T>(qs: seq<T>, rs: seq<Result<T>>): (r: (seq<T>, DataTypes.Outcome))
    requires |rs| == |qs|
    ensures |r.0| == |qs|
  {
    if qs == [] then ([], DataTypes.Done)
    else if rs[0].Err? then (qs, DataTypes.Raised(rs[0].error))
    else
      var rest := Thread(qs[1..], rs[1..]);
      ([rs[0].value] + rest.0, rest.1)
  }

  /** The root's loop over its collectors. */
  function StepAll(qs: seq<QState>, e: Env, numRings: nat): (r: (seq<QState>, DataTypes.Outcome))
    requires AllOk(qs, numRings) && EnvOk(e, numRings)
  {
    Thread(qs, Turns(qs, e, numRings))
  }

  /** Threading ends normally exactly when no turn raises, and then every turn has been taken. */
  lemma {:induction false} ThreadDone<T>(qs: seq<T>, rs: seq<Result<T>>)
    requires |rs| == |qs|
    ensures Thread(qs, rs).1.Done? <==> forall i :: 0 <= i < |rs| ==> rs[i].Ok?
    ensures Thread(qs, rs).1.Done? ==> forall i :: 0 <= i < |rs| ==> Thread(qs, rs).0[i] == rs[i].value
  {
    if qs != [] && rs[0].Ok? {
      ThreadDone(qs[1..], rs[1..]);
      assert forall i :: 1 <= i < |rs| ==> rs[i] == rs[1..][i - 1];
    }
  }

  /** The first turn that raises, when one does. */
  function FirstErr<T>(rs: seq<Result<T>>): (k: nat)
    requires exists i :: 0 <= i < |rs| && rs[i].Err?
    ensures k < |rs| && rs[k].Err? && forall i :: 0 <= i < k ==> rs[i].Ok?
  {
    if rs[0].Err? then 0
    else
      var i :| 0 <= i < |rs| && rs[i].Err?;
      assert rs[1..][i - 1].Err?;
      var k := FirstErr(rs[1..]);
      assert forall j :: 1 <= j <= k + 1 ==> rs[j] == rs[1..][j - 1];
      k + 1
  }

  /**
   * When a turn raises, the turns before the first that does have been
   * taken, it and the later ones are as they were, and its exception is the
   * call's.
   */
  lemma {:induction false} ThreadRaised<T>(qs: seq<T>, rs: seq<Result<T>>)
    requires |rs| == |qs| && exists i :: 0 <= i < |rs| && rs[i].Err?
    ensures var k := FirstErr(rs);
      var after := Thread(qs, rs).0;
      Thread(qs, rs).1 == DataTypes.Raised(rs[k].error) && after[k..] == qs[k..] &&
      forall i :: 0 <= i < k ==> after[i] == rs[i].value
  {
    if rs[0].Ok? {
      var i :| 0 <= i < |rs| && rs[i].Err?;
      assert rs[1..][i - 1].Err?;
      var tq, tr := qs[1..], rs[1..];
      ThreadRaised(tq, tr);
      var k := FirstErr(tr);
      var rest := Thread(tq, tr).0;
      var after := Thread(qs, rs).0;
      assert after == [rs[0].value] + rest;
      assert FirstErr(rs) == k + 1;
      assert rs[k + 1] == tr[k];
      assert Thread(qs, rs).1 == Thread(tq, tr).1;
      assert qs[k + 1..] == tq[k..];
      assert after[k + 1..] == rest[k..];
      forall j | 0 <= j < k + 1
        ensures after[j] == rs[j].value
      {
        if j > 0 {
          assert after[j] == rest[j - 1] && rs[j] == tr[j - 1];
        }
      }
    }
  }

  /**
   * The turns `rs` of the collectors `qs` taken in order until the first
   * that raises: `after` holds the results of those taken, the others as
   * they were, and `o` is the first exception, if any.
   */
  ghost predicate Taken<T>(qs: seq<T>, rs: seq<Result<T>>, after: seq<T>, o: DataTypes.Outcome)
  {
    |rs| == |qs| && |after| == |qs| &&
    (o.Done? ==> forall j :: 0 <= j < |rs| ==> rs[j].Ok? && after[j] == rs[j].value) &&
    (o.Raised? ==> exists k :: (0 <= k < |rs| && rs[k].Err? && o.error == rs[k].error &&
      (forall j :: 0 <= j < k ==> rs[j].Ok? && after[j] == rs[j].value) &&
      (forall j :: k <= j < |rs| ==> after[j] == qs[j])))
  }

  /** The results of turns none of which raised. */
  function Values<T>(rs: seq<Result<T>>): (vs: seq<T>)
    requires forall j :: 0 <= j < |rs| ==> rs[j].Ok?
    ensures |vs| == |rs| && forall j :: 0 <= j < |rs| ==> vs[j] == rs[j].value
  {
    seq(|rs|, j requires 0 <= j < |rs| => rs[j].value)
  }

  /** One more turn taken, in the loop of `collect`. */
  lemma ValuesSnoc<T>(rs: seq<Result<T>>, i: nat, qs: seq<T>)
    requires i < |rs| == |qs| && forall j :: 0 <= j <= i ==> rs[j].Ok?
    ensures (Values(rs[..i]) + qs[i..])[i := rs[i].value] == Values(rs[..i + 1]) + qs[i + 1..]
  {
  }

  /** Turns taken up to the `k`-th, which raised. */
  lemma TakenStop<T>(qs: seq<T>, rs: seq<Result<T>>, after: seq<T>, k: nat, o: DataTypes.Outcome)
    requires |rs| == |qs| && k < |rs| && rs[k].Err? && o == DataTypes.Raised(rs[k].error)
    requires forall j :: 0 <= j < k ==> rs[j].Ok?
    requires after == Values(rs[..k]) + qs[k..]
    ensures Taken(qs, rs, after, o)
  {
    assert forall j :: k <= j < |qs| ==> after[j] == qs[k..][j - k];
  }

  /** Every turn taken, none raising. */
  lemma TakenAll<T>(qs: seq<T>, rs: seq<Result<T>>, after: seq<T>)
    requires |rs| == |qs| && forall j :: 0 <= j < |rs| ==> rs[j].Ok?
    requires after == Values(rs[..|rs|]) + qs[|rs|..]
    ensures Taken(qs, rs, after, DataTypes.Done)
  {
    assert rs[..|rs|] == rs;
  }

  /** The relation pins the outcome down: it is exactly the threading of the turns. */
  lemma {:induction false} TakenIsThread<T>(qs: seq<T>, rs: seq<Result<T>>, after: seq<T>, o: DataTypes.Outcome)
    requires Taken(qs, rs, after, o)
    ensures after == Thread(qs, rs).0 && o == Thread(qs, rs).1
  {
    if qs != [] {
      if o.Raised? {
        var k :| 0 <= k < |rs| && rs[k].Err? && o.error == rs[k].error &&
          (forall j :: 0 <= j < k ==> rs[j].Ok? && after[j] == rs[j].value) &&
          forall j :: k <= j < |rs| ==> after[j] == qs[j];
        if k == 0 {
          assert after == qs;
        } else {
          assert Taken(qs[1..], rs[1..], after[1..], o) by {
            assert 0 <= k - 1 < |rs[1..]| && rs[1..][k - 1].Err?;
          }
          TakenIsThread(qs[1..], rs[1..], after[1..], o);
          assert after == [after[0]] + after[1..];
        }
      } else {
        assert Taken(qs[1..], rs[1..], after[1..], o);
        TakenIsThread(qs[1..], rs[1..], after[1..], o);
        assert after == [after[0]] + after[1..];
      }
    }
  }

  /** The root's loop leaves every collector well formed. */
  lemma StepAllOk(qs: seq<QState>, e: Env, numRings: nat)
    requires AllOk(qs, numRings) && EnvOk(e, numRings)
    ensures AllOk(StepAll(qs, e, numRings).0, numRings)
  {
    var rs := Turns(qs, e, numRings);
    var after := StepAll(qs, e, numRings).0;
    forall i | 0 <= i < |qs| ensures rs[i].Ok? ==> QOk(rs[i].value, numRings) {
      TurnsAt(qs, e, numRings, i);
      StepQSpec(qs[i], e, numRings);
    }
    ThreadDone(qs, rs);
    if StepAll(qs, e, numRings).1.Raised? {
      ThreadRaised(qs, rs);
      var k := FirstErr(rs);
      forall i | 0 <= i < |qs| ensures QOk(after[i], numRings) {
        if i >= k {
          assert after[i] == after[k..][i - k] == qs[k..][i - k];
        }
      }
    }
  }

  /** Threading the turns satisfies the relation. */
  lemma ThreadTaken<T>(qs: seq<T>, rs: seq<Result<T>>)
    requires |rs| == |qs|
    ensures Taken(qs, rs, Thread(qs, rs).0, Thread(qs, rs).1)
  {
    ThreadDone(qs, rs);
    if Thread(qs, rs).1.Raised? {
      ThreadRaised(qs, rs);
      var k := FirstErr(rs);
      var after := Thread(qs, rs).0;
      assert forall j :: k <= j < |rs| ==> after[j] == after[k..][j - k] == qs[k..][j - k];
    }
  }

  /**
   * The root's loop ends normally exactly when no collector's turn raises,
   * and then every collector has taken its turn; otherwise the collectors
   * before the first that raises have taken theirs, it and the later ones
   * are as they were, and its exception is the call's; and nothing else
   * satisfies that description.
   */
  lemma StepAllSpec(qs: seq<QState>, e: Env, numRings: nat, after: seq<QState>, o: DataTypes.Outcome)
    requires AllOk(qs, numRings) && EnvOk(e, numRings)
    ensures Taken(qs, Turns(qs, e, numRings), after, o) <==> (after, o) == StepAll(qs, e, numRings)
  {
    var rs := Turns(qs, e, numRings);
    ThreadTaken(qs, rs);
    if Taken(qs, rs, after, o) {
      TakenIsThread(qs, rs, after, o);
    }
  }

  // ----- the collectors as objects ----------------------------------------

  /** A managed collector (`QuantityCol` and its subclasses) with its `QuantityState`. */
  class QuantityCol {
    const cfg: QuantityCfg
    const capacity: nat
    const maxRings: nat
    const numRings: nat
    var points: seq<seq<Row>>
    var files: seq<seq<seq<Row>>>
    var fileId: nat
    var velFrame: int
    var velPointIds: seq<int>
    var velPointFirst: seq<Point>

    function View(): QState
      reads this
    {
      QState(cfg, capacity, maxRings, points, files, fileId, velFrame, velPointIds, velPointFirst)
    }

    predicate Valid()
      reads this
    {
      QOk(View(), numRings)
    }

    /** `create_data` and the fresh state: an empty buffer, file 0, frame 0. */
    constructor (cfg: QuantityCfg, capacity: nat, maxRings: nat, numRings: nat)
      ensures Valid() && View() == Initial(cfg, capacity, maxRings) && this.numRings == numRings
    {
      this.cfg := cfg;
      this.capacity := capacity;
      this.maxRings := maxRings;
      this.numRings := numRings;
      points, files, fileId := [], [], 0;
      velFrame, velPointIds, velPointFirst := 0, [], [];
    }

    /** `data.add(x)`. */
    method Add(x: seq<Row>) returns (r: DataTypes.Outcome)
      modifies this
      ensures var s := AddPoint(old(View()), x);
        (r.Done? <==> s.Ok?) && (s.Ok? ==> View() == s.value) &&
        (s.Err? ==> View() == old(View()) && r == DataTypes.Raised(s.error))
    {
      if |points| >= capacity {
        return DataTypes.Raised(IndexError);
      }
      r := DataTypes.UpdateOutcome(capacity, maxRings, |points|, |x|);
      if r.Done? {
        points := points + [Stored(x, maxRings)];
      }
    }

    /**
     * This collector's turn in the root's `collect`: `to_collect`, then
     * `collect`, then the full-buffer check.  An exception leaves the state
     * as it was.
     */
    method Step(e: Env) returns (r: DataTypes.Outcome)
      requires Valid() && EnvOk(e, numRings)
      modifies this
      ensures Valid()
      ensures r.Raised? ==> View() == old(View())
      ensures StepQ(old(View()), e, numRings) == if r.Done? then Ok(View()) else Err(r.error)
    {
      StepQSpec(View(), e, numRings);
      if ToCollect(View(), e) {
        if cfg.VelocityCfg? && velFrame == 0 {
          velPointIds := e.idsIn;
          velPointFirst := e.cmsIn;
          velFrame := 1;
        } else {
          r := Add(NewPoint(View(), e, numRings));
          if r.Raised? {
            return;
          }
          if cfg.VelocityCfg? {
            velFrame := 0;
          }
        }
      }
      if |points| >= capacity {
        files := files + [points];
        fileId := fileId + 1;
        points := [];
      }
      r := DataTypes.Done;
    }
  }

  /** The states of a list of collectors. */
  ghost function ViewsOf(qs: seq<QuantityCol>): (vs: seq<QState>)
    reads qs
    ensures |vs| == |qs|
  {
    if qs == [] then [] else ViewsOf(qs[..|qs| - 1]) + [qs[|qs| - 1].View()]
  }

  lemma {:induction false} ViewAt(qs: seq<QuantityCol>, j: int)
    requires 0 <= j < |qs|
    ensures ViewsOf(qs)[j] == qs[j].View()
  {
    var n := |qs| - 1;
    if j < n {
      ViewAt(qs[..n], j);
    }
  }

  lemma ViewsAre(qs: seq<QuantityCol>, vs: seq<QState>)
    requires |qs| == |vs|
    ensures ViewsOf(qs) == vs <==> forall j :: 0 <= j < |qs| ==> qs[j].View() == vs[j]
  {
    forall j | 0 <= j < |qs| ensures ViewsOf(qs)[j] == qs[j].View() {
      ViewAt(qs, j);
    }
  }

  /** The root collector `QuantityPosCol` with its `QuantityPosState`. */
  class QuantityPosCol {
    const collectDt: int
    const xlims: Lims
    const ylims: Lims
    const checkType: CheckType
    const numRings: nat
    const quantitiesCfg: seq<QuantityCfg>
    const quantities: seq<QuantityCol>
    ghost const Repr: set<QuantityCol>
    var colLastTime: int
    var times: seq<real>

    /** One distinct, well-formed collector per configuration, in order. */
    ghost predicate Valid()
      reads Repr
    {
      |quantities| == |quantitiesCfg| &&
      (forall i :: 0 <= i < |quantities| ==> quantities[i] in Repr) &&
      (forall i, j :: 0 <= i < j < |quantities| ==> quantities[i] != quantities[j]) &&
      (forall i :: 0 <= i < |quantities| ==>
        quantities[i].cfg == quantitiesCfg[i] && quantities[i].numRings == numRings) &&
      AllOk(ViewsOf(quantities), numRings)
    }

    /**
     * The constructor: completes the configuration list with a `CmsCfg`,
     * then creates one collector per configuration, each with an empty
     * buffer of `capacity` points of `maxRings` elements, counting from the
     * solver's current step.
     */
    constructor (cfgs: seq<QuantityCfg>, collectDt: int, xlims: Lims, ylims: Lims,
                 numTimeSteps: int, capacity: nat, maxRings: nat, numRings: nat)
      ensures Valid() && quantitiesCfg == WithCms(cfgs)
      ensures this.collectDt == collectDt && this.xlims == xlims && this.ylims == ylims
      ensures checkType == ConfiguredCheck && this.numRings == numRings
      ensures colLastTime == numTimeSteps && times == []
      ensures forall i :: 0 <= i < |quantities| ==> quantities[i].View() == Initial(quantitiesCfg[i], capacity, maxRings)
    {
      this.collectDt := collectDt;
      this.xlims := xlims;
      this.ylims := ylims;
      checkType := ConfiguredCheck;
      this.numRings := numRings;
      var all := AddCmsIfMissing(cfgs);
      quantitiesCfg := all;
      var qs: seq<QuantityCol> := [];
      var i := 0;
      while i < |all|
        invariant 0 <= i <= |all| && |qs| == i
        invariant forall a, b :: 0 <= a < b < i ==> qs[a] != qs[b]
        invariant forall a :: 0 <= a < i ==> fresh(qs[a])
        invariant forall a :: 0 <= a < i ==>
          qs[a].Valid() && qs[a].cfg == all[a] && qs[a].numRings == numRings &&
          qs[a].View() == Initial(all[a], capacity, maxRings)
      {
        var q := new QuantityCol(all[i], capacity, maxRings, numRings);
        qs := qs + [q];
        i := i + 1;
      }
      quantities := qs;
      Repr := set a | 0 <= a < |qs| :: qs[a];
      forall j | 0 <= j < |qs| ensures QOk(ViewsOf(qs)[j], numRings) {
        ViewAt(qs, j);
        assert qs[j].Valid();
      }
      colLastTime := numTimeSteps;
      times := [];
    }

    /** What every collector is handed on a call at step `timeDt`: the selection is made only when `is_time`. */
    ghost function EnvAt(timeDt: int, ringsIds: seq<int>, numActive: nat, cms: seq<Point>,
                         angles: seq<real>, areas: seq<real>): Env
      reads this
      requires numActive <= |ringsIds| && IdsIn(ringsIds[..numActive], |cms|)
    {
      var isTime := IsTime(timeDt, colLastTime, collectDt);
      var ids := if isTime then RegionIds(checkType, xlims, ylims, ringsIds, numActive, cms) else [];
      Env(timeDt, isTime, colLastTime, ids, Centres(cms, ids), cms, angles, areas)
    }

    /** The `i`-th collector's turn: only that collector changes. */
    method TakeTurn(i: nat, e: Env, ghost before: seq<QState>, ghost rs: seq<Result<QState>>) returns (o: DataTypes.Outcome)
      requires Valid() && EnvOk(e, numRings) && i < |quantities| == |before|
      requires AllOk(before, numRings) && rs == Turns(before, e, numRings)
      requires ViewsOf(quantities)[i] == before[i]
      modifies quantities[i]
      ensures Valid()
      ensures o.Done? ==> rs[i].Ok? && ViewsOf(quantities) == old(ViewsOf(quantities))[i := rs[i].value]
      ensures o.Raised? ==> rs[i] == Err(o.error) && ViewsOf(quantities) == old(ViewsOf(quantities))
    {
      ghost var vs := ViewsOf(quantities);
      ViewsAre(quantities, vs);
      TurnsAt(before, e, numRings, i);
      StepQSpec(before[i], e, numRings);
      ghost var res := rs[i];
      o := quantities[i].Step(e);
      ghost var ws := if o.Done? then vs[i := res.value] else vs;
      forall j | 0 <= j < |quantities|
        ensures quantities[j].View() == ws[j]
      {
        if j != i {
          assert quantities[j] != quantities[i];
        }
      }
      ViewsAre(quantities, ws);
      if o.Done? {
        AllOkUpdate(vs, i, res.value, numRings);
      }
      assert AllOk(ViewsOf(quantities), numRings);
    }

    /** The loop of `collect`: every collector's turn, in order, until one raises. */
    method TakeTurns(e: Env, ghost before: seq<QState>) returns (r: DataTypes.Outcome)
      requires Valid() && EnvOk(e, numRings)
      requires AllOk(before, numRings) && ViewsOf(quantities) == before
      modifies Repr
      ensures Valid()
      ensures (ViewsOf(quantities), r) == StepAll(before, e, numRings)
    {
      ghost var rs := Turns(before, e, numRings);
      var i := 0;
      r := DataTypes.Done;
      while i < |quantities|
        invariant 0 <= i <= |quantities|
        invariant Valid()
        invariant forall j :: 0 <= j < i ==> rs[j].Ok?
        invariant ViewsOf(quantities) == Values(rs[..i]) + before[i..]
      {
        var o := NextTurn(i, e, before, rs);
        if o.Raised? {
          return o;
        }
        i := i + 1;
      }
      TakenAll(before, rs, ViewsOf(quantities));
      TakenIsThread(before, rs, ViewsOf(quantities), r);
    }

    /** One turn of the loop of `collect`, after the first i turns went through. */
    method NextTurn(i: nat, e: Env, ghost before: seq<QState>, ghost rs: seq<Result<QState>>) returns (o: DataTypes.Outcome)
      requires Valid() && EnvOk(e, numRings) && i < |quantities| == |before|
      requires AllOk(before, numRings) && rs == Turns(before, e, numRings)
      requires forall j :: 0 <= j < i ==> rs[j].Ok?
      requires ViewsOf(quantities) == Values(rs[..i]) + before[i..]
      modifies Repr
      ensures Valid()
      ensures o.Done? ==> (forall j :: 0 <= j < i + 1 ==> rs[j].Ok?) &&
                          ViewsOf(quantities) == Values(rs[..i + 1]) + before[i + 1..]
      ensures o.Raised? ==> (ViewsOf(quantities), o) == StepAll(before, e, numRings)
    {
      assert ViewsOf(quantities)[i] == before[i];
      o := TakeTurn(i, e, before, rs);
      if o.Raised? {
        TakenStop(before, rs, ViewsOf(quantities), i, o);
        TakenIsThread(before, rs, ViewsOf(quantities), o);
        return;
      }
      ValuesSnoc(rs, i, before);
    }

    /** The environment of a call, as `collect` builds it before the turns. */
    method Environment(timeDt: int, ringsIds: seq<int>, numActive: nat, cms: seq<Point>,
                       angles: seq<real>, areas: seq<real>) returns (e: Env)
      requires numActive <= |ringsIds| && IdsIn(ringsIds[..numActive], |cms|)
      requires |cms| == |angles| == |areas| == numRings
      ensures e == EnvAt(timeDt, ringsIds, numActive, cms, angles, areas) && EnvOk(e, numRings)
    {
      var isTime := IsTime(timeDt, colLastTime, collectDt);
      var ids: seq<int> := [];
      if isTime {
        ids := RegionIds(checkType, xlims, ylims, ringsIds, numActive, cms);
        assert IdsIn(ids, |cms|) by {
          if checkType != NoCheck {
            assert IdsIn(Masked(checkType, xlims, ylims, ringsIds[..numActive], cms), |cms|);
          }
        }
      }
      e := Env(timeDt, isTime, colLastTime, ids, Centres(cms, ids), cms, angles, areas);
    }

    /**
     * `collect`: each collector takes its turn; if none raised and it is
     * time, the solver's time is appended to `times` and `col_last_time`
     * becomes the current step.
     */
    method Collect(time: real, timeDt: int, ringsIds: seq<int>, numActive: nat,
                   cms: seq<Point>, angles: seq<real>, areas: seq<real>) returns (r: DataTypes.Outcome)
      requires Valid()
      requires numActive <= |ringsIds| && IdsIn(ringsIds[..numActive], |cms|)
      requires |cms| == |angles| == |areas| == numRings
      modifies Repr, this`colLastTime, this`times
      ensures Valid()
      ensures var e := old(EnvAt(timeDt, ringsIds, numActive, cms, angles, areas));
        EnvOk(e, numRings) && AllOk(old(ViewsOf(quantities)), numRings) &&
        (ViewsOf(quantities), r) == StepAll(old(ViewsOf(quantities)), e, numRings)
      ensures r.Done? && IsTime(timeDt, old(colLastTime), collectDt) ==>
        times == old(times) + [time] && colLastTime == timeDt
      ensures r.Raised? || !IsTime(timeDt, old(colLastTime), collectDt) ==>
        times == old(times) && colLastTime == old(colLastTime)
    {
      var isTime := IsTime(timeDt, colLastTime, collectDt);
      var e := Environment(timeDt, ringsIds, numActive, cms, angles, areas);
      assert e == old(EnvAt(timeDt, ringsIds, numActive, cms, angles, areas));
      ghost var before := ViewsOf(quantities);
      r := TakeTurns(e, before);
      if r.Raised? {
        return;
      }
      if isTime {
        Record(time, timeDt);
      }
    }

    /** The root's bookkeeping of a collection made at step `timeDt`. */
    method Record(time: real, timeDt: int)
      requires Valid()
      modifies this`times, this`colLastTime
      ensures times == old(times) + [time] && colLastTime == timeDt
      ensures Valid() && ViewsOf(quantities) == old(ViewsOf(quantities))
    {
      times := times + [time];
      colLastTime := timeDt;
    }
  }
}
