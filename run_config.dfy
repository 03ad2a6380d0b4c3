/**
 * Run configurations: the integration settings of the ring system, the
 * data-collection configuration with its pipeline resolution, and the three
 * versions of the video configuration `SaveCfg`, which derive the number of
 * integration steps per frame from the requested speed and then the number
 * of frames, the final time and the duration from one another.
 */
module RunConfig {
  import opened Wrappers
  import opened Numeric

  /** An optional argument with its default. */
  function Or<T>(o: Option<T>, d: T): (r: T)
    ensures o.Some? ==> r == o.value
    ensures o.None? ==> r == d
  {
    if o.Some? then o.value else d
  }

  datatype SolverType = Python | Cpp

  /** The ring system's update modes. */
  datatype UpdateType = PeriodicNormal | PeriodicWindows | Stokes | Invagination

  /** The integration schemes, with the values `euler=0`, `verlet=1`, `rk4=2`. */
  datatype IntegrationType = Euler | Verlet | Rk4

  function IntegrationTypeValue(t: IntegrationType): (v: int)
    ensures 0 <= v <= 2
  {
    match t
    case Euler => 0
    case Verlet => 1
    case Rk4 => 2
  }

  /** The lookup of an `IntegrationType` by its value; other values name no member. */
  function IntegrationTypeOf(v: int): (r: Option<IntegrationType>)
    ensures r.Some? <==> 0 <= v <= 2
  {
    if v == 0 then Some(Euler) else if v == 1 then Some(Verlet) else if v == 2 then Some(Rk4) else None
  }

  /** Each scheme is found again by its value, so the three values are distinct. */
  lemma IntegrationTypeRoundTrip(t: IntegrationType)
    ensures IntegrationTypeOf(IntegrationTypeValue(t)) == Some(t)
  {
  }

  datatype ParticleWindows = ParticleWindows(numCols: int, numRows: int, updateFreq: int)

  datatype InPolCheckerCfg = InPolCheckerCfg(numColWindows: int, numRowsWindows: int, updateFreq: int, disable: bool)

  /** `InPolCheckerCfg(...)`: the fields as given, `disable` false unless given. */
  function NewInPolCheckerCfg(numColWindows: int, numRowsWindows: int, updateFreq: int, disable: Option<bool>): (c: InPolCheckerCfg)
    ensures c.numColWindows == numColWindows && c.numRowsWindows == numRowsWindows && c.updateFreq == updateFreq
    ensures c.disable <==> disable == Some(true)
  {
    InPolCheckerCfg(numColWindows, numRowsWindows, updateFreq, Or(disable, false))
  }

  datatype IntegrationCfg = IntegrationCfg(
    dt: real, solverType: SolverType, updateType: UpdateType, particleWinCfg: Option<ParticleWindows>,
    integrationType: IntegrationType, inPolChecker: Option<InPolCheckerCfg>)

  /** A windowed update always comes with its window configuration. */
  predicate WindowsConfigured(c: IntegrationCfg)
  {
    c.updateType == PeriodicWindows ==> c.particleWinCfg.Some?
  }

  /**
   * The ring system's `IntegrationCfg`: the windowed update without
   * `particle_win_cfg` is a ValueError; otherwise every argument is stored, with
   * the defaults euler, C++ and the plain periodic update.
   */
  function NewIntegrationCfg(dt: real, particleWinCfg: Option<ParticleWindows>, integrationType: Option<IntegrationType>,
                             solverType: Option<SolverType>, updateType: Option<UpdateType>,
                             inPolChecker: Option<InPolCheckerCfg>): (r: Result<IntegrationCfg>)
    ensures r.Err? <==> updateType == Some(PeriodicWindows) && particleWinCfg.None?
    ensures r.Err? ==> r.error == ValueError
    ensures r.Ok? ==> WindowsConfigured(r.value)
    ensures r.Ok? ==>
      r.value.dt == dt && r.value.particleWinCfg == particleWinCfg && r.value.inPolChecker == inPolChecker &&
      r.value.integrationType == (if integrationType.Some? then integrationType.value else Euler) &&
      r.value.solverType == (if solverType.Some? then solverType.value else Cpp) &&
      r.value.updateType == (if updateType.Some? then updateType.value else PeriodicNormal)
  {
    var update := Or(updateType, PeriodicNormal);
    if update == PeriodicWindows && particleWinCfg.None? then Err(ValueError)
    else Ok(IntegrationCfg(dt, Or(solverType, Cpp), update, particleWinCfg, Or(integrationType, Euler), inPolChecker))
  }

  /** The update modes of the older core. */
  datatype LegacyUpdateType = Normal | Windows

  datatype LegacyIntegrationCfg = LegacyIntegrationCfg(dt: real, solverType: SolverType, updateType: LegacyUpdateType)

  /** The older core's `IntegrationCfg`: `dt` with the defaults C++ and the normal update. */
  function NewLegacyIntegrationCfg(dt: real, solverType: Option<SolverType>, updateType: Option<LegacyUpdateType>): (c: LegacyIntegrationCfg)
    ensures c.dt == dt
    ensures solverType.None? ==> c.solverType == Cpp
    ensures updateType.None? ==> c.updateType == Normal
    ensures solverType.Some? ==> c.solverType == solverType.value
    ensures updateType.Some? ==> c.updateType == updateType.value
  {
    LegacyIntegrationCfg(dt, Or(solverType, Cpp), Or(updateType, Normal))
  }

  /** A data-collection configuration; the pipeline `func` is always resolved. */
  datatype CollectDataCfg<F, I> = CollectDataCfg(tf: real, folderPath: string, func: F, funcId: Option<I>)

  /**
   * `CollectDataCfg`: a pipeline is given directly or by id; neither is a
   * ValueError; a given id wins and is resolved with `get_func`, whose absence
   * makes the call fail with a TypeError.
   */
  function NewCollectDataCfg<F, I>(tf: real, folderPath: string, func: Option<F>, funcId: Option<I>,
                                   getFunc: Option<I -> F>): (r: Result<CollectDataCfg<F, I>>)
    ensures func.None? && funcId.None? ==> r == Err(ValueError)
    ensures funcId.Some? && getFunc.None? ==> r == Err(TypeError)
    ensures r.Ok? <==> (funcId.Some? && getFunc.Some?) || (funcId.None? && func.Some?)
    ensures r.Ok? ==> r.value.tf == tf && r.value.funcId == funcId
    ensures r.Ok? && funcId.Some? ==> r.value.func == getFunc.value(funcId.value)
    ensures r.Ok? && funcId.None? ==> r.value.func == func.value
  {
    if funcId.None? && func.None? then Err(ValueError)
    else if funcId.Some? then
      if getFunc.None? then Err(TypeError)
      else Ok(CollectDataCfg(tf, folderPath, getFunc.value(funcId.value), funcId))
    else Ok(CollectDataCfg(tf, folderPath, func.value, funcId))
  }

  /** A stored pipeline never depends on `func` when an id is given. */
  lemma CollectIdWins<F, I>(tf: real, folderPath: string, f1: Option<F>, f2: Option<F>, id: I, getFunc: I -> F)
    ensures NewCollectDataCfg(tf, folderPath, f1, Some(id), Some(getFunc)) ==
            NewCollectDataCfg(tf, folderPath, f2, Some(id), Some(getFunc))
  {
  }

  /** What `set_num_steps_frame` derives: the steps per frame and, for too slow a speed, a new `dt`. */
  datatype Steps = Steps(steps: int, dtOverride: Option<real>)

  /**
   * `speed / fps / dt` steps per frame: below one it becomes one step with
   * `dt = speed / fps`, otherwise it is rounded (ties to even). A zero `fps`
   * or `dt` raises ZeroDivisionError.
   */
  function StepsPerFrame(speed: real, fps: real, dt: real): (r: Result<Steps>)
    ensures r.Err? <==> fps == 0.0 || dt == 0.0
    ensures r.Err? ==> r.error == ZeroDivisionError
    ensures r.Ok? ==> r.value.steps >= 1
    ensures r.Ok? ==> (r.value.dtOverride.Some? <==> speed / fps / dt < 1.0)
    ensures r.Ok? && r.value.dtOverride.Some? ==> r.value.steps == 1 && r.value.dtOverride.value == speed / fps
    ensures r.Ok? && r.value.dtOverride.None? ==> r.value.steps == RoundHalfEven(speed / fps / dt)
  {
    if fps == 0.0 || dt == 0.0 then Err(ZeroDivisionError)
    else
      var x := speed / fps / dt;
      if x < 1.0 then Ok(Steps(1, Some(speed / fps)))
      else Ok(Steps(RoundHalfEven(x), None))
  }

  /**
   * The simulated time of one frame when the integrator keeps its own `dt`:
   * what the two newer versions use, where the new `dt` is stored on the
   * video configuration and reaches neither the final time nor the solver.
   */
  function FrameTimeKeepingDt(s: Steps, dt: real): real
  {
    s.steps as real * dt
  }

  /** The simulated time of one frame with the new `dt` in effect, as in the oldest version. */
  function FrameTime(s: Steps, dt: real): real
  {
    s.steps as real * (if s.dtOverride.Some? then s.dtOverride.value else dt)
  }

  /**
   * With the new `dt` in effect a frame lasts exactly `speed / fps` of
   * simulated time, and otherwise it is within half a step of it.
   */
  lemma FrameTimeMatchesSpeed(speed: real, fps: real, dt: real)
    requires StepsPerFrame(speed, fps, dt).Ok? && dt > 0.0
    ensures var s := StepsPerFrame(speed, fps, dt).value;
      s.dtOverride.Some? ==> FrameTime(s, dt) == speed / fps
    ensures var s := StepsPerFrame(speed, fps, dt).value;
      speed / fps - dt / 2.0 <= FrameTime(s, dt) <= speed / fps + dt / 2.0
  {
    var s := StepsPerFrame(speed, fps, dt).value;
    var x := speed / fps / dt;
    assert x * dt == speed / fps;
    if s.dtOverride.None? {
      var k := s.steps as real;
      assert x - 0.5 <= k <= x + 0.5;
      var e := k - x;
      MulBounds(e, dt);
      calc {
        FrameTime(s, dt);
        k * dt;
        (x + e) * dt;
        x * dt + e * dt;
        speed / fps + e * dt;
      }
    } else {
      assert x < 1.0;
      assert 0.0 < dt / 2.0;
    }
  }

  lemma MulBounds(e: real, dt: real)
    requires -0.5 <= e <= 0.5 && dt > 0.0
    ensures -(dt / 2.0) <= e * dt <= dt / 2.0
  {
    assert (0.5 - e) * dt >= 0.0;
    assert (e + 0.5) * dt >= 0.0;
  }

  /**
   * Keeping the integrator's `dt` when the speed asked for less than one step
   * per frame makes each frame last a whole step, longer than `speed / fps`.
   */
  lemma FrameTimeKeepingDtTooLong(speed: real, fps: real, dt: real)
    requires StepsPerFrame(speed, fps, dt).Ok? && dt > 0.0
    requires StepsPerFrame(speed, fps, dt).value.dtOverride.Some?
    ensures FrameTimeKeepingDt(StepsPerFrame(speed, fps, dt).value, dt) > speed / fps
  {
    var x := speed / fps / dt;
    assert x * dt == speed / fps;
    assert x < 1.0;
    assert (1.0 - x) * dt > 0.0;
  }

  /** One second of video at `speed = 1`, 30 fps and `dt = 0.1` simulates 3 time units rather than 1. */
  lemma FrameTimeKeepingDtExample()
    ensures StepsPerFrame(1.0, 30.0, 0.1) == Ok(Steps(1, Some(1.0 / 30.0)))
    ensures 30.0 * FrameTimeKeepingDt(StepsPerFrame(1.0, 30.0, 0.1).value, 0.1) == 3.0
    ensures 30.0 * FrameTime(StepsPerFrame(1.0, 30.0, 0.1).value, 0.1) == 1.0
  {
  }

  /** The speed of the newest version: given, or `tf / duration` when both are. */
  function SpeedOf(speed: Option<real>, duration: Option<real>, tf: Option<real>): (r: Result<real>)
    ensures speed.Some? ==> r == Ok(speed.value)
    ensures speed.None? && (duration.None? || tf.None?) ==> r == Err(ValueError)
    ensures speed.None? && duration.Some? && tf.Some? ==>
      (r.Err? <==> duration.value == 0.0) &&
      (r.Err? ==> r.error == ZeroDivisionError) &&
      (r.Ok? ==> r.value * duration.value == tf.value)
  {
    if speed.Some? then Ok(speed.value)
    else if duration.None? || tf.None? then Err(ValueError)
    else if duration.value == 0.0 then Err(ZeroDivisionError)
    else Ok(tf.value / duration.value)
  }

  /** The frame counts and times fixed by the constructor. */
  datatype Frames = Frames(numFrames: int, numStepsFrame: real, tf: real, duration: real)

  /**
   * The derivation after the steps per frame are known, with `frameDt` the
   * step the final time is computed with. A given `duration` wins:
   * `int(duration * fps)` frames of `steps` steps. Otherwise `tf` is kept: a
   * given number of frames rescales the steps per frame to cover `tf`,
   * else the frames are `int(tf / steps / dt)`; the duration is frames / fps.
   */
  function FramesOf(duration: Option<real>, tf: Option<real>, numFrames: Option<int>,
                    steps: real, frameDt: real, fps: real): (r: Result<Frames>)
    requires duration.Some? || tf.Some?
    requires steps >= 1.0 && fps != 0.0
    ensures r.Err? <==> duration.None? && (numFrames == Some(0) || frameDt == 0.0)
    ensures r.Err? ==> r.error == ZeroDivisionError
    ensures r.Ok? && duration.Some? ==>
      r.value.duration == duration.value && r.value.numFrames == Trunc(duration.value * fps) &&
      r.value.numStepsFrame == steps
    ensures r.Ok? && duration.None? ==>
      r.value.tf == tf.value && r.value.duration == r.value.numFrames as real / fps
    ensures r.Ok? && duration.None? && numFrames.Some? ==> r.value.numFrames == numFrames.value
    ensures r.Ok? && duration.None? && numFrames.None? ==>
      r.value.numStepsFrame == steps && r.value.numFrames == Trunc(tf.value / steps / frameDt)
  {
    if duration.Some? then
      var n := Trunc(duration.value * fps);
      Ok(Frames(n, steps, n as real * steps * frameDt, duration.value))
    else if numFrames == Some(0) || frameDt == 0.0 then Err(ZeroDivisionError)
    else if numFrames.Some? then
      var n := numFrames.value;
      Ok(Frames(n, tf.value / n as real / frameDt, tf.value, n as real / fps))
    else
      var n := Trunc(tf.value / steps / frameDt);
      Ok(Frames(n, steps, tf.value, n as real / fps))
  }

  /** The final time is always the frame count times the frame's simulated time. */
  lemma {:induction false} FramesCoverTf(duration: Option<real>, tf: Option<real>, numFrames: Option<int>,
                                         steps: real, frameDt: real, fps: real)
    requires duration.Some? || tf.Some?
    requires steps >= 1.0 && fps != 0.0
    requires FramesOf(duration, tf, numFrames, steps, frameDt, fps).Ok?
    requires duration.None? && numFrames.None? ==> tf.value / steps / frameDt >= 0.0
    ensures var f := FramesOf(duration, tf, numFrames, steps, frameDt, fps).value;
      duration.Some? || numFrames.Some? ==> f.tf == f.numFrames as real * f.numStepsFrame * frameDt
    ensures var f := FramesOf(duration, tf, numFrames, steps, frameDt, fps).value;
      duration.None? && numFrames.None? ==>
        f.numFrames as real <= tf.value / steps / frameDt < f.numFrames as real + 1.0
  {
    var f := FramesOf(duration, tf, numFrames, steps, frameDt, fps).value;
    if duration.None? && numFrames.Some? {
      var n := numFrames.value as real;
      var t := tf.value;
      assert n != 0.0;
      assert (t / n / frameDt) * frameDt == t / n;
      assert (t / n) * n == t;
      calc {
        n * (t / n / frameDt) * frameDt;
        n * ((t / n / frameDt) * frameDt);
        n * (t / n);
        t;
      }
    }
  }

  /** The video configuration; `dtOverride` is the `dt` attribute it receives for too slow a speed. */
  class SaveCfg {
    const intDt: real
    const fps: real
    const speed: real
    var numStepsFrame: real
    var dtOverride: Option<real>
    var numFrames: int
    var tf: real
    var duration: real

    constructor (intDt: real, fps: real, speed: real)
      ensures this.intDt == intDt && this.fps == fps && this.speed == speed
      ensures dtOverride.None? && numStepsFrame == 0.0 && numFrames == 0 && tf == 0.0 && duration == 0.0
    {
      this.intDt, this.fps, this.speed := intDt, fps, speed;
      numStepsFrame, dtOverride, numFrames, tf, duration := 0.0, None, 0, 0.0, 0.0;
    }

    /**
     * `set_num_steps_frame`, called with the configuration's own speed and
     * fps: stores the steps per frame and, below one step, `dt = speed / fps`.
     */
    method SetNumStepsFrame(dt: real) returns (r: Result<Steps>)
      modifies this`numStepsFrame, this`dtOverride
      ensures r == StepsPerFrame(speed, fps, dt)
      ensures r.Err? ==> numStepsFrame == old(numStepsFrame) && dtOverride == old(dtOverride)
      ensures r.Ok? ==> numStepsFrame == r.value.steps as real && numStepsFrame >= 1.0
      ensures r.Ok? ==> dtOverride == (if r.value.dtOverride.Some? then r.value.dtOverride else old(dtOverride))
    {
      if fps == 0.0 || dt == 0.0 {
        return Err(ZeroDivisionError);
      }
      var x := speed / fps / dt;
      if x < 1.0 {
        numStepsFrame := 1.0;
        dtOverride := Some(speed / fps);
        r := Ok(Steps(1, Some(speed / fps)));
      } else {
        numStepsFrame := RoundHalfEven(x) as real;
        r := Ok(Steps(RoundHalfEven(x), None));
      }
    }

    /** Stores the derived frames. */
    method SetFrames(f: Frames)
      modifies this`numStepsFrame, this`numFrames, this`tf, this`duration
      ensures numStepsFrame == f.numStepsFrame && numFrames == f.numFrames && tf == f.tf && duration == f.duration
    {
      numStepsFrame, numFrames, tf, duration := f.numStepsFrame, f.numFrames, f.tf, f.duration;
    }

    function FramesNow(): Frames
      reads this
    {
      Frames(numFrames, numStepsFrame, tf, duration)
    }
  }

  /**
   * The newest `SaveCfg`: one of `duration` and `tf` is needed, and both when
   * no speed is given; the steps per frame are set, and the frames derived
   * with the integrator's `dt`.
   */
  method NewSaveCfg(intDt: real, fps: real, speed: Option<real>, duration: Option<real>, tf: Option<real>,
                    numFrames: Option<int>) returns (r: Result<SaveCfg>)
    ensures duration.None? && tf.None? ==> r == Err(ValueError)
    ensures duration.Some? || tf.Some? ==>
      var sp := SpeedOf(speed, duration, tf);
      (sp.Err? ==> r == Err(sp.error)) &&
      (sp.Ok? ==>
        var st := StepsPerFrame(sp.value, fps, intDt);
        (st.Err? ==> r == Err(st.error)) &&
        (st.Ok? ==>
          var fr := FramesOf(duration, tf, numFrames, st.value.steps as real, intDt, fps);
          (fr.Err? ==> r == Err(fr.error)) &&
          (fr.Ok? ==> r.Ok? && r.value.speed == sp.value && r.value.dtOverride == st.value.dtOverride &&
                      r.value.FramesNow() == fr.value)))
    ensures r.Ok? ==> fresh(r.value) && r.value.intDt == intDt && r.value.fps == fps
  {
    if duration.None? && tf.None? {
      return Err(ValueError);
    }
    var sp := SpeedOf(speed, duration, tf);
    if sp.Err? {
      return Err(sp.error);
    }
    var c := new SaveCfg(intDt, fps, sp.value);
    var st := c.SetNumStepsFrame(intDt);
    if st.Err? {
      return Err(st.error);
    }
    var fr := FramesOf(duration, tf, numFrames, c.numStepsFrame, intDt, fps);
    if fr.Err? {
      return Err(fr.error);
    }
    c.SetFrames(fr.value);
    r := Ok(c);
  }

  /**
   * The older core's `SaveCfg`: the speed is required and there is no frame
   * count argument; otherwise as the newest version.
   */
  method NewLegacySaveCfg(intDt: real, fps: real, speed: real, duration: Option<real>, tf: Option<real>)
    returns (r: Result<SaveCfg>)
    ensures duration.None? && tf.None? ==> r == Err(ValueError)
    ensures duration.Some? || tf.Some? ==>
      var st := StepsPerFrame(speed, fps, intDt);
      (st.Err? ==> r == Err(st.error)) &&
      (st.Ok? ==>
        var fr := FramesOf(duration, tf, None, st.value.steps as real, intDt, fps);
        r.Ok? && fr.Ok? && r.value.dtOverride == st.value.dtOverride && r.value.FramesNow() == fr.value)
    ensures r.Ok? ==> fresh(r.value) && r.value.intDt == intDt && r.value.speed == speed
  {
    if duration.None? && tf.None? {
      return Err(ValueError);
    }
    var c := new SaveCfg(intDt, fps, speed);
    var st := c.SetNumStepsFrame(intDt);
    if st.Err? {
      return Err(st.error);
    }
    var fr := FramesOf(duration, tf, None, c.numStepsFrame, intDt, fps);
    c.SetFrames(fr.value);
    r := Ok(c);
  }

  /**
   * The oldest `SaveCfg`: the run's own `dt` is replaced by `speed / fps`
   * when the speed is too slow, and the final time is computed with it.
   */
  method NewOldestSaveCfg(dt: real, fps: real, speed: real, duration: Option<real>, tf: Option<real>)
    returns (r: Result<SaveCfg>)
    ensures duration.None? && tf.None? ==> r == Err(ValueError)
    ensures duration.Some? || tf.Some? ==>
      var st := StepsPerFrame(speed, fps, dt);
      (st.Err? ==> r == Err(st.error)) &&
      (st.Ok? ==>
        var runDt := if st.value.dtOverride.Some? then st.value.dtOverride.value else dt;
        var fr := FramesOf(duration, tf, None, st.value.steps as real, runDt, fps);
        (fr.Err? ==> r == Err(fr.error)) &&
        (fr.Ok? ==> r.Ok? && r.value.dtOverride == st.value.dtOverride && r.value.FramesNow() == fr.value))
    ensures r.Ok? ==> fresh(r.value) && r.value.intDt == dt && r.value.speed == speed
  {
    if duration.None? && tf.None? {
      return Err(ValueError);
    }
    var c := new SaveCfg(dt, fps, speed);
    var st := c.SetNumStepsFrame(dt);
    if st.Err? {
      return Err(st.error);
    }
    var runDt := if c.dtOverride.Some? then c.dtOverride.value else dt;
    var fr := FramesOf(duration, tf, None, c.numStepsFrame, runDt, fps);
    if fr.Err? {
      return Err(fr.error);
    }
    c.SetFrames(fr.value);
    r := Ok(c);
  }
}
