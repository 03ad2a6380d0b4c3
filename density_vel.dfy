/**
 * The density/velocity/polarity collector (`DenVelCol`, in its constructor form
 * and in its configuration-plus-`setup` form). Each quantity is sampled on
 * its own period, counted in integration steps; a velocity sample is a pair of
 * centroid snapshots of the same rings, `vel_frame_dt` steps apart.
 */
module DensityVel {
  import opened Wrappers
  import opened Numeric
  import Delta
  import RingsQuantities

  /** The constructor's (and `DenVelColCfg`'s) only check: a velocity period needs a frame period. */
  function CheckPeriods(velDt: Option<real>, velFrameDt: Option<real>): (r: Result<()>)
    ensures r.Err? <==> velDt.Some? && velFrameDt.None?
    ensures r.Err? ==> r.error == ValueError
  {
    if velDt.Some? && velFrameDt.None? then Err(ValueError) else Ok(())
  }

  /** Whether a period has elapsed: strictly more than `dt` steps (density, polarity). */
  function StrictlyDue(dt: Option<real>, timeDt: int, last: real): (b: bool)
    ensures dt.None? ==> !b
  {
    dt.Some? && timeDt as real - last > dt.value
  }

  /** Whether a period has elapsed: at least `dt` steps (velocity). */
  function Due(dt: Option<real>, timeDt: int, last: real): (b: bool)
    ensures dt.None? ==> !b
  {
    dt.Some? && timeDt as real - last >= dt.value
  }

  /** At exactly one period after the last sample, velocity is due and density is not. */
  lemma InclusiveVersusStrict(dt: real, last: real, timeDt: int)
    requires timeDt as real == last + dt
    ensures Due(Some(dt), timeDt, last) && !StrictlyDue(Some(dt), timeDt, last)
  {
  }

  /** The constructor sets `last_time_*` to `solver.time`, a time, not a step count. */
  function InitialLastTimeAsWritten(solverTime: real, numTimeSteps: int): real
  {
    solverTime
  }

  /** `setup` sets `last_time_*` to `solver.num_time_steps`, the unit the periods are compared in. */
  function InitialLastTime(solverTime: real, numTimeSteps: int): real
  {
    numTimeSteps as real
  }

  /**
   * A collector built at time 50 (step 5000, with a step of 0.01) takes a density
   * sample one step later, although its period is 100 steps.
   */
  lemma InitialLastTimeAsWrittenFiresEarly()
    ensures var last := InitialLastTimeAsWritten(50.0, 5000);
      StrictlyDue(Some(100.0), 5001, last) && 5001 - 5000 <= 100
  {
  }

  /** Counting from `setup`, no sample is due before its period has elapsed. */
  lemma InitialLastTimeWaits(solverTime: real, steps0: int, dt: real, timeDt: int)
    ensures StrictlyDue(Some(dt), timeDt, InitialLastTime(solverTime, steps0)) ==> (timeDt - steps0) as real > dt
    ensures Due(Some(dt), timeDt, InitialLastTime(solverTime, steps0)) ==> (timeDt - steps0) as real >= dt
  {
  }

  /** One velocity data point: the first and the second centroid of each ring. */
  function Pair(first: seq<Point>, second: seq<Point>): (r: seq<(Point, Point)>)
    requires |first| == |second|
    ensures |r| == |first| && forall k :: 0 <= k < |r| ==> r[k] == (first[k], second[k])
  {
    seq(|first|, k requires 0 <= k < |first| => (first[k], second[k]))
  }

  class DenVelCol {
    const xlo: real
    const xhi: real
    const velDt: Option<real>
    const denDt: Option<real>
    const polDt: Option<real>
    const velFrameDt: Option<real>
    const transientTime: real
    /** Number of ring slots of the solver. */
    const numTotal: nat
    var lastTimeDen: real
    var lastTimeVel: real
    var lastTimePol: real
    var velFrame: int
    var velPointIds: seq<int>
    var velPointFirst: seq<Point>
    /** Every density, velocity and polarity data point added, across files. */
    var denData: seq<seq<Point>>
    var velData: seq<seq<(Point, Point)>>
    var polData: seq<seq<real>>
    var timeDenArr: seq<real>
    var timeVelArr: seq<real>
    var timeVel2Arr: seq<real>
    var timePolArr: seq<real>

    /**
     * Each data point has its time; a velocity point is completed by its second
     * sample, so first-sample times run one ahead exactly while in frame 1.
     */
    predicate Valid()
      reads this
    {
      (velFrame == 0 || velFrame == 1) &&
      CheckPeriods(velDt, velFrameDt).Ok? &&
      |velPointIds| == |velPointFirst| && Delta.InRange(velPointIds, numTotal) &&
      |denData| == |timeDenArr| && |polData| == |timePolArr| && |velData| == |timeVel2Arr| &&
      |timeVelArr| == |timeVel2Arr| + velFrame &&
      (velFrame == 1 ==> velDt.Some?)
    }

    /** `DenVelCol.__init__`: raises ValueError on a velocity period without a frame period. */
    constructor (xlims: (real, real), numTotal: nat, solverTime: real, numTimeSteps: int,
                 denDt: Option<real>, velDt: Option<real>, polDt: Option<real>, velFrameDt: Option<real>,
                 transientTime: real)
      requires CheckPeriods(velDt, velFrameDt).Ok?
      ensures Valid() && xlo == xlims.0 && xhi == xlims.1 && this.numTotal == numTotal
      ensures this.denDt == denDt && this.velDt == velDt && this.polDt == polDt
      ensures this.velFrameDt == velFrameDt && this.transientTime == transientTime
      ensures var t := InitialLastTime(solverTime, numTimeSteps);
        lastTimeDen == t && lastTimeVel == t && lastTimePol == t
      ensures velFrame == 0 && denData == [] && velData == [] && polData == []
      ensures timeDenArr == [] && timeVelArr == [] && timeVel2Arr == [] && timePolArr == []
    {
      xlo, xhi := xlims.0, xlims.1;
      this.numTotal := numTotal;
      this.denDt, this.velDt, this.polDt, this.velFrameDt := denDt, velDt, polDt, velFrameDt;
      this.transientTime := transientTime;
      var t := InitialLastTime(solverTime, numTimeSteps);
      lastTimeDen, lastTimeVel, lastTimePol := t, t, t;
      velFrame := 0;
      velPointIds, velPointFirst := [], [];
      denData, velData, polData := [], [], [];
      timeDenArr, timeVelArr, timeVel2Arr, timePolArr := [], [], [], [];
    }

    /** `to_collect_vel`: the sampling period in frame 0, the frame period in frame 1. */
    function ToCollectVel(timeDt: int): (b: bool)
      reads this
      ensures velDt.None? ==> !b
    {
      velDt.Some? && Due(if velFrame == 0 then velDt else velFrameDt, timeDt, lastTimeVel)
    }

    function ToCollectDen(timeDt: int): bool
      reads this
    {
      StrictlyDue(denDt, timeDt, lastTimeDen)
    }

    function ToCollectPol(timeDt: int): bool
      reads this
    {
      StrictlyDue(polDt, timeDt, lastTimePol)
    }

    /** The call reads the region: a density or polarity sample, or a first velocity sample. */
    predicate NeedsRegion(timeDt: int)
      reads this
    {
      ToCollectDen(timeDt) || ToCollectPol(timeDt) || (ToCollectVel(timeDt) && velFrame == 0)
    }

    /** The calls `collect` returns from without any change. */
    predicate Skips(time: real, timeDt: int, cms: seq<Point>, active: seq<int>)
      requires |cms| == numTotal && Delta.InRange(active, numTotal)
      reads this
    {
      time < transientTime ||
      !(ToCollectDen(timeDt) || ToCollectPol(timeDt) || ToCollectVel(timeDt)) ||
      (NeedsRegion(timeDt) && |Delta.InStrip(cms, active, xlo, xhi)| == 0)
    }

    /**
     * `collect`: before the transient, with nothing due, or when a needed region
     * holds no active ring, nothing changes. Otherwise each due quantity records
     * its time and data point: density the centroids of the region, polarity the
     * angles of its rings, velocity either a first snapshot of the region
     * (frame 0, resetting its clock) or the second snapshot of the same rings,
     * completing a data point (frame 1); the frame then toggles.
     */
    method Collect(time: real, timeDt: int, cms: seq<Point>, active: seq<int>, angles: seq<real>)
      requires Valid() && |cms| == numTotal && |angles| == numTotal && Delta.InRange(active, numTotal)
      modifies this
      ensures Valid()
      ensures old(Skips(time, timeDt, cms, active)) ==>
        lastTimeDen == old(lastTimeDen) && lastTimeVel == old(lastTimeVel) && lastTimePol == old(lastTimePol) &&
        velFrame == old(velFrame) && velPointIds == old(velPointIds) && velPointFirst == old(velPointFirst) &&
        denData == old(denData) && velData == old(velData) && polData == old(polData) &&
        timeDenArr == old(timeDenArr) && timeVelArr == old(timeVelArr) &&
        timeVel2Arr == old(timeVel2Arr) && timePolArr == old(timePolArr)
      ensures !old(Skips(time, timeDt, cms, active)) ==>
        var region := Delta.InStrip(cms, active, xlo, xhi);
        (old(ToCollectDen(timeDt)) ==>
          lastTimeDen == timeDt as real && timeDenArr == old(timeDenArr) + [time] &&
          denData == old(denData) + [RingsQuantities.Pick(cms, region)]) &&
        (!old(ToCollectDen(timeDt)) ==>
          lastTimeDen == old(lastTimeDen) && timeDenArr == old(timeDenArr) && denData == old(denData)) &&
        (old(ToCollectPol(timeDt)) ==>
          lastTimePol == timeDt as real && timePolArr == old(timePolArr) + [time] &&
          polData == old(polData) + [RingsQuantities.Pick(angles, region)]) &&
        (!old(ToCollectPol(timeDt)) ==>
          lastTimePol == old(lastTimePol) && timePolArr == old(timePolArr) && polData == old(polData)) &&
        (old(ToCollectVel(timeDt)) && old(velFrame) == 0 ==>
          velFrame == 1 && lastTimeVel == timeDt as real &&
          velPointIds == region && velPointFirst == RingsQuantities.Pick(cms, region) &&
          timeVelArr == old(timeVelArr) + [time] && timeVel2Arr == old(timeVel2Arr) && velData == old(velData)) &&
        (old(ToCollectVel(timeDt)) && old(velFrame) == 1 ==>
          velFrame == 0 && lastTimeVel == old(lastTimeVel) &&
          velPointIds == old(velPointIds) && velPointFirst == old(velPointFirst) &&
          timeVelArr == old(timeVelArr) && timeVel2Arr == old(timeVel2Arr) + [time] &&
          velData == old(velData) + [Pair(old(velPointFirst), RingsQuantities.Pick(cms, old(velPointIds)))]) &&
        (!old(ToCollectVel(timeDt)) ==>
          velFrame == old(velFrame) && lastTimeVel == old(lastTimeVel) &&
          velPointIds == old(velPointIds) && velPointFirst == old(velPointFirst) &&
          timeVelArr == old(timeVelArr) && timeVel2Arr == old(timeVel2Arr) && velData == old(velData))
    {
      if time < transientTime {
        return;
      }
      var collectVel := ToCollectVel(timeDt);
      var collectDen := ToCollectDen(timeDt);
      var collectPol := ToCollectPol(timeDt);
      if !collectDen && !collectVel && !collectPol {
        return;
      }
      var region: seq<int> := [];
      var cmsRegion: seq<Point> := [];
      if collectPol || collectDen || (collectVel && velFrame == 0) {
        region := Delta.InStrip(cms, active, xlo, xhi);
        if |region| == 0 {
          return;
        }
        cmsRegion := RingsQuantities.Pick(cms, region);
      }
      if collectDen {
        RecordDen(time, timeDt, cmsRegion);
      }
      if collectPol {
        RecordPol(time, timeDt, RingsQuantities.Pick(angles, region));
      }
      if collectVel {
        RecordVel(time, timeDt, cms, region, cmsRegion);
      }
    }

    /** `col_density` with its clock update. */
    method RecordDen(time: real, timeDt: int, cmsRegion: seq<Point>)
      requires Valid()
      modifies this
      ensures Valid()
      ensures lastTimeDen == timeDt as real && timeDenArr == old(timeDenArr) + [time] && denData == old(denData) + [cmsRegion]
      ensures lastTimeVel == old(lastTimeVel) && lastTimePol == old(lastTimePol)
      ensures velFrame == old(velFrame) && velPointIds == old(velPointIds) && velPointFirst == old(velPointFirst)
      ensures velData == old(velData) && polData == old(polData)
      ensures timeVelArr == old(timeVelArr) && timeVel2Arr == old(timeVel2Arr) && timePolArr == old(timePolArr)
    {
      lastTimeDen := timeDt as real;
      timeDenArr := timeDenArr + [time];
      denData := denData + [cmsRegion];
    }

    /** `col_polarity` with its clock update. */
    method RecordPol(time: real, timeDt: int, anglesRegion: seq<real>)
      requires Valid()
      modifies this
      ensures Valid()
      ensures lastTimePol == timeDt as real && timePolArr == old(timePolArr) + [time] && polData == old(polData) + [anglesRegion]
      ensures lastTimeVel == old(lastTimeVel) && lastTimeDen == old(lastTimeDen)
      ensures velFrame == old(velFrame) && velPointIds == old(velPointIds) && velPointFirst == old(velPointFirst)
      ensures velData == old(velData) && denData == old(denData)
      ensures timeVelArr == old(timeVelArr) && timeVel2Arr == old(timeVel2Arr) && timeDenArr == old(timeDenArr)
    {
      lastTimePol := timeDt as real;
      timePolArr := timePolArr + [time];
      polData := polData + [anglesRegion];
    }

    /**
     * `col_vel` with the frame toggle: frame 0 stores the region's rings and
     * centroids and restarts the clock; frame 1 pairs them with the same rings'
     * current centroids.
     */
    method RecordVel(time: real, timeDt: int, cms: seq<Point>, region: seq<int>, cmsRegion: seq<Point>)
      requires Valid() && |cms| == numTotal && velDt.Some?
      requires velFrame == 0 ==> Delta.InRange(region, numTotal) && |cmsRegion| == |region|
      modifies this
      ensures Valid()
      ensures old(velFrame) == 0 ==>
        velFrame == 1 && lastTimeVel == timeDt as real &&
        velPointIds == region && velPointFirst == cmsRegion &&
        timeVelArr == old(timeVelArr) + [time] && timeVel2Arr == old(timeVel2Arr) && velData == old(velData)
      ensures old(velFrame) == 1 ==>
        velFrame == 0 && lastTimeVel == old(lastTimeVel) &&
        velPointIds == old(velPointIds) && velPointFirst == old(velPointFirst) &&
        timeVelArr == old(timeVelArr) && timeVel2Arr == old(timeVel2Arr) + [time] &&
        velData == old(velData) + [Pair(old(velPointFirst), RingsQuantities.Pick(cms, old(velPointIds)))]
      ensures lastTimeDen == old(lastTimeDen) && lastTimePol == old(lastTimePol)
      ensures denData == old(denData) && polData == old(polData)
      ensures timeDenArr == old(timeDenArr) && timePolArr == old(timePolArr)
    {
      if velFrame == 0 {
        lastTimeVel := timeDt as real;
        velPointIds := region;
        velPointFirst := cmsRegion;
        timeVelArr := timeVelArr + [time];
        velFrame := 1;
      } else {
        timeVel2Arr := timeVel2Arr + [time];
        velData := velData + [Pair(velPointFirst, RingsQuantities.Pick(cms, velPointIds))];
        velFrame := 0;
      }
    }

    /** `save`'s trimming loop: drops the first-sample time of an unfinished velocity point. */
    method TrimVelTimes()
      requires Valid()
      modifies this
      ensures timeVelArr == old(timeVelArr)[..|old(timeVel2Arr)|] && |timeVelArr| == |timeVel2Arr|
      ensures |old(timeVelArr)| - |timeVelArr| == old(velFrame)
      ensures timeVel2Arr == old(timeVel2Arr) && velData == old(velData) && velFrame == old(velFrame)
      ensures denData == old(denData) && polData == old(polData)
      ensures timeDenArr == old(timeDenArr) && timePolArr == old(timePolArr)
    {
      while |timeVel2Arr| != |timeVelArr|
        invariant |timeVel2Arr| <= |timeVelArr| <= |old(timeVelArr)|
        invariant timeVelArr == old(timeVelArr)[..|timeVelArr|]
        invariant timeVel2Arr == old(timeVel2Arr) && velData == old(velData) && velFrame == old(velFrame)
        invariant denData == old(denData) && polData == old(polData)
        invariant timeDenArr == old(timeDenArr) && timePolArr == old(timePolArr)
        decreases |timeVelArr|
      {
        timeVelArr := timeVelArr[..|timeVelArr| - 1];
      }
    }
  }
}
