/**
 * The creation-rate collector (`CreationRateCol`): after a waiting time, and
 * for `collect_time` more, it accumulates the number of rings the solver
 * created into buckets; a bucket closes, recording the time and the number of
 * active rings, once more than `collect_dt` has passed since the last closing.
 */
module CreationRate {
  import opened Wrappers
  import opened Numeric

  /**
   * `int(collect_time / collect_dt)`: a zero step raises ZeroDivisionError and a
   * negative count is refused by `np.zeros` with ValueError.
   */
  function NumPoints(collectTime: real, collectDt: real): (r: Result<nat>)
    ensures r.Err? <==> collectDt == 0.0 || Trunc(collectTime / collectDt) < 0
    ensures collectDt == 0.0 ==> r == Err(ZeroDivisionError)
    ensures r.Ok? ==> r.value == Trunc(collectTime / collectDt)
  {
    if collectDt == 0.0 then Err(ZeroDivisionError)
    else
      var n := Trunc(collectTime / collectDt);
      if n < 0 then Err(ValueError) else Ok(n)
  }

  /** With positive durations the count is the number of whole steps in `collect_time`. */
  lemma NumPointsSteps(collectTime: real, collectDt: real)
    requires collectTime >= 0.0 && collectDt > 0.0
    ensures var r := NumPoints(collectTime, collectDt);
      r.Ok? && r.value as real * collectDt <= collectTime < (r.value + 1) as real * collectDt
  {
    var q := collectTime / collectDt;
    var n := Trunc(q);
    assert q >= 0.0;
    assert n as real <= q < n as real + 1.0;
    assert q * collectDt == collectTime;
    var gap := n as real + 1.0 - q;
    assert gap > 0.0;
    assert (n + 1) as real * collectDt - collectTime == gap * collectDt;
    assert gap * collectDt > 0.0;
    assert collectTime - n as real * collectDt == (q - n as real) * collectDt;
    assert (q - n as real) * collectDt >= 0.0;
    assert n as real * collectDt <= collectTime < (n + 1) as real * collectDt;
    assert NumPoints(collectTime, collectDt) == Ok(n);
  }

  /** What `super().load_autosave()` restores: the saved fields and arrays. */
  datatype Saved = Saved(
    waitTimeDone: bool, lastTime: real, pointId: int,
    time: seq<real>, numCreated: seq<int>, numActive: seq<int>)

  /**
   * Whether `a[:len(src)] = src` goes through on an array of length n: the
   * slice is cut at n, so a longer source fits only when it is a single
   * element, which numpy broadcasts (onto the empty slice of an empty array).
   */
  predicate Fits(srcLen: int, n: int)
  {
    srcLen <= n || srcLen == 1
  }

  /**
   * `a[:len(src)] = src` on a fresh array: a longer source cannot be
   * broadcast, unless it has one element and then nothing is written.
   */
  method CopyPrefix<T>(dst: array<T>, src: seq<T>) returns (r: Result<()>)
    modifies dst
    ensures r.Err? <==> !Fits(|src|, dst.Length)
    ensures r.Err? ==> r.error == ValueError && dst[..] == old(dst[..])
    ensures r.Ok? && |src| <= dst.Length ==> dst[..] == src + old(dst[|src|..])
    ensures r.Ok? && |src| > dst.Length ==> dst.Length == 0
  {
    if |src| > dst.Length {
      if |src| == 1 {
        return Ok(());
      }
      return Err(ValueError);
    }
    forall k | 0 <= k < |src| {
      dst[k] := src[k];
    }
    assert dst[..] == dst[..|src|] + dst[|src|..];
    r := Ok(());
  }

  /** The array `load_autosave` leaves: n zeros with the saved values as prefix, when they fit. */
  function Loaded<T>(saved: seq<T>, n: nat, z: T): (r: seq<T>)
    ensures |r| == n
    ensures |saved| <= n ==> r[..|saved|] == saved && forall k :: |saved| <= k < n ==> r[k] == z
    ensures |saved| > n ==> forall k :: 0 <= k < n ==> r[k] == z
  {
    if |saved| <= n then saved + Zeros(n - |saved|, z) else Zeros(n, z)
  }

  function Zeros<T>(n: nat, z: T): (r: seq<T>)
    ensures |r| == n && forall k :: 0 <= k < n ==> r[k] == z
  {
    seq(n, _ => z)
  }

  class CreationRateCol {
    const waitTime: real
    const collectTime: real
    const collectDt: real
    const numPoints: nat
    var waitTimeDone: bool
    var lastTime: real
    var pointId: int
    var timeArr: array<real>
    var numCreatedArr: array<int>
    var numActiveArr: array<int>

    /** Every bucket array has `num_points` entries and `point_id` never passes them. */
    ghost predicate Valid()
      reads this
    {
      timeArr.Length == numCreatedArr.Length == numActiveArr.Length == numPoints &&
      numCreatedArr != numActiveArr &&
      0 <= pointId <= numPoints
    }

    constructor (waitTime: real, collectTime: real, collectDt: real, solverTime: real)
      requires NumPoints(collectTime, collectDt).Ok?
      ensures Valid() && fresh(timeArr) && fresh(numCreatedArr) && fresh(numActiveArr)
      ensures this.waitTime == waitTime && this.collectTime == collectTime && this.collectDt == collectDt
      ensures numPoints == NumPoints(collectTime, collectDt).value
      ensures !waitTimeDone && lastTime == solverTime && pointId == 0
      ensures timeArr[..] == Zeros(numPoints, 0.0)
      ensures numCreatedArr[..] == Zeros(numPoints, 0) && numActiveArr[..] == Zeros(numPoints, 0)
    {
      this.waitTime := waitTime;
      this.collectTime := collectTime;
      this.collectDt := collectDt;
      var n := NumPoints(collectTime, collectDt).value;
      numPoints := n;
      waitTimeDone := false;
      lastTime := solverTime;
      pointId := 0;
      timeArr := new real[n](_ => 0.0);
      numCreatedArr := new int[n](_ => 0);
      numActiveArr := new int[n](_ => 0);
    }

    /** Whether a call at `time` writes anything: inside the collection window, with a bucket left. */
    ghost predicate Effective(time: real)
      reads this
    {
      waitTime <= time <= collectTime + waitTime && pointId <= numPoints - 1
    }

    /**
     * `collect`: ignores calls before `wait_time`; later ones mark the wait as
     * done; inside the collection window and while a bucket is left, adds the
     * created rings to the current bucket and closes it when its time is up.
     */
    method Collect(time: real, numCreatedRings: int, numActiveRings: int)
      requires Valid()
      modifies this, timeArr, numCreatedArr, numActiveArr
      ensures Valid() && timeArr == old(timeArr) && numCreatedArr == old(numCreatedArr) && numActiveArr == old(numActiveArr)
      ensures waitTimeDone == (old(waitTimeDone) || time >= waitTime)
      ensures !old(Effective(time)) ==>
        pointId == old(pointId) && lastTime == old(lastTime) &&
        unchanged(timeArr, numCreatedArr, numActiveArr)
      ensures old(Effective(time)) ==>
        var p := old(pointId);
        var closes := time - old(lastTime) > collectDt;
        numCreatedArr[..] == old(numCreatedArr[..])[p := old(numCreatedArr[p]) + numCreatedRings] &&
        (closes ==>
          pointId == p + 1 && lastTime == time &&
          timeArr[..] == old(timeArr[..])[p := time] &&
          numActiveArr[..] == old(numActiveArr[..])[p := numActiveRings]) &&
        (!closes ==>
          pointId == p && lastTime == old(lastTime) && unchanged(timeArr, numActiveArr))
      ensures SumInt(numCreatedArr[..]) ==
        old(SumInt(numCreatedArr[..])) + (if old(Effective(time)) then numCreatedRings else 0)
    {
      if time < waitTime {
        return;
      }
      waitTimeDone := true;
      if time > collectTime + waitTime {
        return;
      }
      if pointId > numPoints - 1 {
        return;
      }
      SumIntUpdate(numCreatedArr[..], pointId, numCreatedArr[pointId] + numCreatedRings);
      numCreatedArr[pointId] := numCreatedArr[pointId] + numCreatedRings;
      if time - lastTime > collectDt {
        lastTime := time;
        timeArr[pointId] := time;
        numActiveArr[pointId] := numActiveRings;
        pointId := pointId + 1;
      }
    }

    /**
     * `load_autosave`: takes the saved fields, then reallocates the three arrays
     * with `num_points` zeros and copies each saved array into its prefix. A
     * saved array longer than `num_points` raises at its copy, the copies before
     * it already made, unless it has one element (then `num_points` is 0 and
     * numpy broadcasts it onto nothing).
     */
    method LoadAutosave(saved: Saved) returns (r: Result<()>)
      modifies this
      ensures fresh(timeArr) && fresh(numCreatedArr) && fresh(numActiveArr) && numCreatedArr != numActiveArr
      ensures waitTimeDone == saved.waitTimeDone && lastTime == saved.lastTime && pointId == saved.pointId
      ensures r.Err? <==>
        !Fits(|saved.time|, numPoints) || !Fits(|saved.numCreated|, numPoints) || !Fits(|saved.numActive|, numPoints)
      ensures r.Ok? ==>
        timeArr[..] == Loaded(saved.time, numPoints, 0.0) &&
        numCreatedArr[..] == Loaded(saved.numCreated, numPoints, 0) &&
        numActiveArr[..] == Loaded(saved.numActive, numPoints, 0)
      ensures r.Ok? && 0 <= saved.pointId <= numPoints ==> Valid()
    {
      waitTimeDone, lastTime, pointId := saved.waitTimeDone, saved.lastTime, saved.pointId;
      timeArr := new real[numPoints](_ => 0.0);
      numCreatedArr := new int[numPoints](_ => 0);
      numActiveArr := new int[numPoints](_ => 0);
      r := CopyPrefix(timeArr, saved.time);
      if r.Err? {
        return;
      }
      r := CopyPrefix(numCreatedArr, saved.numCreated);
      if r.Err? {
        return;
      }
      r := CopyPrefix(numActiveArr, saved.numActive);
    }
  }
}
