/**
 * Execution-time sampling (`FuncTimes`, `TimeIt`). A `FuncTimes` keeps the most
 * recent `numSamples` durations in a circular buffer; a `TimeIt` is a registry of
 * named `FuncTimes`. The clock is not modelled: a recording receives the two clock
 * readings taken around the timed call.
 */
module Timer {
  import opened Wrappers
  import opened Numeric

  /** Buffer slots after a write at `c`, read from the next write position onward. */
  lemma RotateWrite(t: seq<real>, c: int, x: real)
    requires 0 <= c < |t|
    ensures var u := t[c := x];
            var d := if c + 1 == |t| then 0 else c + 1;
            u[d..] + u[..d] == (t[c..] + t[..c])[1..] + [x]
  {
    var u := t[c := x];
    if c + 1 == |t| {
      assert u[0..] + u[..0] == u;
      assert t[c..] == [t[c]];
      assert (t[c..] + t[..c])[1..] == t[..c];
      assert u == t[..c] + [x];
    } else {
      assert u[c + 1..] == t[c + 1..];
      assert u[..c + 1] == t[..c] + [x];
      assert (t[c..] + t[..c])[1..] == t[c + 1..] + t[..c];
    }
  }

  lemma SumZeros(s: seq<real>)
    requires forall j :: 0 <= j < |s| ==> s[j] == 0.0
    ensures Sum(s) == 0.0
  {
    if s != [] {
      SumZeros(s[..|s| - 1]);
    }
  }

  /**
   * The buffer `t` of `n` slots holds the most recent samples of `history`:
   * before the first wrap, in order in slots [0, count) with the other slots
   * still zero; after it, in order starting from slot `count`, the next one to
   * be overwritten.
   */
  ghost predicate Buffered(t: seq<real>, n: int, count: int, isFull: bool, history: seq<real>)
  {
    |t| == n >= 0 &&
    (n == 0 ==> count == 0 && !isFull && history == []) &&
    (n > 0 ==>
      0 <= count < n &&
      count == |history| % n &&
      (isFull <==> |history| >= n) &&
      (isFull ==> t[count..] + t[..count] == history[|history| - n..]) &&
      (!isFull ==>
        t[..count] == history &&
        forall j :: count <= j < n ==> t[j] == 0.0))
  }

  /** The last `n` samples of `history` (all of them while there are fewer). */
  ghost function Latest(history: seq<real>, n: nat): (r: seq<real>)
    ensures |r| == if |history| <= n then |history| else n
    ensures r == history[|history| - |r|..]
  {
    if |history| <= n then history else history[|history| - n..]
  }

  /** One write at the cursor keeps the buffer holding the most recent samples. */
  lemma RecordStep(t: seq<real>, n: int, c: int, isFull: bool, history: seq<real>, x: real)
    requires Buffered(t, n, c, isFull, history) && n > 0
    ensures var c' := if c + 1 == n then 0 else c + 1;
            Buffered(t[c := x], n, c', isFull || c + 1 == n, history + [x])
  {
    RotateWrite(t, c, x);
    ModStep(|history|, n);
    var u := t[c := x];
    if isFull {
      assert history[|history| - n..][1..] + [x] == (history + [x])[|history| + 1 - n..];
    } else {
      assert t[..c + 1][..c] == history;
      assert u[..c + 1] == history + [x];
    }
    if c + 1 == n {
      assert u[0..] + u[..0] == u;
    }
  }

  /** The buffer sums to the sum of the most recent samples, which fill it or its first `count` slots. */
  lemma BufferSum(t: seq<real>, n: int, count: int, isFull: bool, history: seq<real>)
    requires Buffered(t, n, count, isFull, history)
    ensures Sum(t) == Sum(Latest(history, n))
    ensures |Latest(history, n)| == if isFull then n else count
  {
    assert t == t[..count] + t[count..];
    SumAppend(t[..count], t[count..]);
    if isFull {
      SumAppend(t[count..], t[..count]);
    } else {
      SumZeros(t[count..]);
    }
  }

  class FuncTimes {
    const numSamples: int
    var times: array<real>
    var count: int
    var isFull: bool
    /** Every duration recorded so far, oldest first. */
    ghost var history: seq<real>

    ghost predicate Valid()
      reads this, times
    {
      times.Length == numSamples && Buffered(times[..], numSamples, count, isFull, history)
    }

    /** The samples the mean is taken over: the last `numSamples` recorded. */
    ghost function Recent(): seq<real>
      requires numSamples >= 0
      reads this
    {
      Latest(history, numSamples)
    }

    constructor (n: int)
      requires n >= 0
      ensures Valid() && fresh(times)
      ensures numSamples == n && count == 0 && !isFull && history == []
    {
      numSamples := n;
      times := new real[n](_ => 0.0);
      count := 0;
      isFull := false;
      history := [];
    }

    /**
     * `decorator`: stores the duration in milliseconds at slot `count` and advances
     * `count` modulo `numSamples`; `isFull` turns true at the first wrap and stays
     * true. With no slots the store raises IndexError.
     */
    method Record(t1: real, t2: real) returns (r: Result<()>)
      requires Valid()
      modifies this, times
      ensures Valid() && times == old(times)
      ensures r.Err? <==> numSamples == 0
      ensures r.Err? ==> r.error == IndexError && unchanged(this, times)
      ensures r.Ok? ==>
        history == old(history) + [(t2 - t1) * 1000.0] &&
        times[..] == old(times[..])[old(count) := (t2 - t1) * 1000.0] &&
        count == (if old(count) + 1 == numSamples then 0 else old(count) + 1) &&
        isFull == (old(isFull) || old(count) + 1 == numSamples)
    {
      if times.Length == 0 {
        return Err(IndexError);
      }
      var x := (t2 - t1) * 1000.0;
      RecordStep(times[..], numSamples, count, isFull, history, x);
      times[count] := x;
      history := history + [x];
      count := count + 1;
      if count == numSamples {
        isFull := true;
        count := 0;
      }
      r := Ok(());
    }

    /**
     * `mean_time`: the mean of the most recent `numSamples` durations, and 0 before
     * anything was recorded.
     */
    function MeanTime(): (m: real)
      requires Valid()
      reads this, times
      ensures |Recent()| == 0 ==> m == 0.0
      ensures |Recent()| > 0 ==> m == Sum(Recent()) / |Recent()| as real
    {
      var all := times[..];
      BufferSum(all, numSamples, count, isFull, history);
      if isFull then
        Sum(all) / numSamples as real
      else if count == 0 then
        0.0
      else
        Sum(all) / count as real
    }
  }

  /** The mean runs over every slot once the buffer is full, else over the `count` filled ones. */
  lemma RecentBounded(f: FuncTimes)
    requires f.Valid()
    ensures |f.Recent()| == (if f.isFull then f.numSamples else f.count)
  {
  }

  class TimeIt {
    var timers: map<string, FuncTimes>
    ghost var Repr: set<object>

    /** Every registered timer is valid, and no two share an object or a buffer. */
    ghost predicate Valid()
      reads this, Repr
    {
      (forall nm :: nm in timers ==> timers[nm] in Repr && timers[nm].times in Repr) &&
      (forall nm :: nm in timers ==> timers[nm].Valid()) &&
      (forall a, b :: a in timers && b in timers && a != b ==>
        timers[a] != timers[b] && timers[a].times != timers[b].times)
    }

    /** An empty registry. */
    constructor ()
      ensures Valid() && timers == map[] && fresh(Repr)
    {
      timers := map[];
      Repr := {};
    }

    /**
     * `add_timer`: a name already present raises; otherwise a fresh timer with
     * `n` zeroed slots is registered (numpy refuses a negative size with ValueError).
     */
    method AddTimer(name: string, n: int) returns (r: Result<()>)
      requires Valid()
      modifies this
      ensures Valid()
      ensures r.Err? <==> (name in old(timers) || n < 0)
      ensures name in old(timers) ==> r == Err(Exception)
      ensures r.Err? ==> timers == old(timers) && Repr == old(Repr)
      ensures r.Ok? ==>
        timers.Keys == old(timers.Keys) + {name} &&
        (forall nm :: nm in old(timers) ==> timers[nm] == old(timers[nm])) &&
        fresh(timers[name]) && timers[name].numSamples == n &&
        timers[name].history == [] && Repr == old(Repr) + {timers[name], timers[name].times}
    {
      if name in timers {
        return Err(Exception);
      }
      if n < 0 {
        return Err(ValueError);
      }
      ghost var old0 := timers;
      var ft := new FuncTimes(n);
      assert forall nm :: nm in old0 ==> old0[nm].Valid() && old0[nm] != ft && old0[nm].times != ft.times;
      timers := timers[name := ft];
      Repr := Repr + {ft, ft.times};
      r := Ok(());
    }

    /**
     * The constructor's loop: registers one timer per name, in order, stopping at
     * the first name that `AddTimer` refuses.
     */
    method Register(names: seq<string>, n: int) returns (r: Result<()>)
      requires Valid()
      modifies this
      ensures Valid()
      ensures r.Ok? ==> timers.Keys == old(timers.Keys) + Names(names, |names|)
      ensures r.Ok? <==>
        (|names| == 0 || n >= 0) && Distinct(names) &&
        forall i :: 0 <= i < |names| ==> names[i] !in old(timers)
    {
      var i := 0;
      while i < |names|
        invariant 0 <= i <= |names| && Valid()
        invariant RegisteredUpTo(names, i, n, old(timers.Keys), timers.Keys)
      {
        var added := RegisterNext(names, i, n, old(timers.Keys));
        if added.Err? {
          return added;
        }
        i := i + 1;
      }
      return Ok(());
    }

    /** One turn of the constructor's loop: `add_timer(names[i], n)`. */
    method RegisterNext(names: seq<string>, i: int, n: int, ghost keys0: set<string>) returns (r: Result<()>)
      requires Valid() && 0 <= i < |names| && RegisteredUpTo(names, i, n, keys0, timers.Keys)
      modifies this
      ensures Valid()
      ensures r.Ok? ==> RegisteredUpTo(names, i + 1, n, keys0, timers.Keys)
      ensures r.Err? ==> !(n >= 0 && Distinct(names) && forall j :: 0 <= j < |names| ==> names[j] !in keys0)
    {
      ghost var before := timers.Keys;
      r := AddTimer(names[i], n);
      if r.Err? {
        assert names[i] in before || n < 0;
        if n >= 0 && names[i] !in keys0 {
          assert names[i] in Names(names, i);
          NamesIn(names, i, names[i]);
          var j :| 0 <= j < i && names[j] == names[i];
          assert !Distinct(names);
        } else if n >= 0 {
          assert names[i] in keys0;
        }
        return;
      }
      assert names[i] !in before;
      assert forall j, l :: 0 <= j < l < i ==> names[j] != names[l];
      forall j, l | 0 <= j < l < i + 1
        ensures names[j] != names[l]
      {
        if l == i {
          NamesHas(names, i, j);
        }
      }
      NamesStep(names, i);
      assert timers.Keys == before + {names[i]} && n >= 0;
      calc {
        timers.Keys;
        before + {names[i]};
        (keys0 + Names(names, i)) + {names[i]};
        keys0 + (Names(names, i) + {names[i]});
        keys0 + Names(names, i + 1);
      }
      assert names[i] !in keys0;
    }

    /**
     * `decorator(name, ...)`: records on the named timer; an unknown name
     * raises KeyError, and a timer with no slots raises IndexError.
     */
    method Record(name: string, t1: real, t2: real) returns (r: Result<()>)
      requires Valid()
      modifies Repr
      ensures Valid() && timers == old(timers)
      ensures name !in timers ==> r == Err(KeyError)
      ensures name in timers ==> (r.Err? <==> timers[name].numSamples == 0)
      ensures name in timers && r.Err? ==> r == Err(IndexError) && timers[name].history == old(timers[name].history)
      ensures name in timers && r.Ok? ==>
        timers[name].history == old(timers[name].history) + [(t2 - t1) * 1000.0]
      ensures forall nm :: nm in timers && nm != name ==>
        timers[nm].history == old(timers[nm].history)
    {
      if name !in timers {
        return Err(KeyError);
      }
      var ft := timers[name];
      r := ft.Record(t1, t2);
      assert forall nm :: nm in timers && nm != name ==> timers[nm] != ft && timers[nm].times != ft.times;
    }

    /** `mean_time(name)`; an unknown name raises KeyError. */
    function MeanTime(name: string): (m: Result<real>)
      requires Valid()
      reads this, Repr
      ensures m.Err? <==> name !in timers
      ensures m.Err? ==> m.error == KeyError
      ensures m.Ok? && |timers[name].Recent()| == 0 ==> m.value == 0.0
      ensures m.Ok? && |timers[name].Recent()| > 0 ==>
        m.value == Sum(timers[name].Recent()) / |timers[name].Recent()| as real
    {
      if name !in timers then Err(KeyError) else Ok(timers[name].MeanTime())
    }
  }

  /**
   * The state after the first `i` turns of the constructor's loop over
   * `names`, starting from the keys `keys0`: those names are registered,
   * pairwise distinct and new, and the size is nonnegative if any was added.
   */
  ghost predicate RegisteredUpTo(names: seq<string>, i: int, n: int, keys0: set<string>, keys: set<string>)
    requires 0 <= i <= |names|
  {
    keys == keys0 + Names(names, i) && (n >= 0 || i == 0) &&
    (forall j, l :: 0 <= j < l < i ==> names[j] != names[l]) &&
    (forall j :: 0 <= j < i ==> names[j] !in keys0)
  }

  /** The first `i` names, as a set. */
  ghost function Names(names: seq<string>, i: int): set<string>
    requires 0 <= i <= |names|
  {
    set j | 0 <= j < i :: names[j]
  }

  lemma NamesStep(names: seq<string>, i: int)
    requires 0 <= i < |names|
    ensures Names(names, i + 1) == Names(names, i) + {names[i]}
  {
  }

  lemma NamesHas(names: seq<string>, i: int, j: int)
    requires 0 <= j < i <= |names|
    ensures names[j] in Names(names, i)
  {
  }

  lemma NamesIn(names: seq<string>, i: int, x: string)
    requires 0 <= i <= |names| && x in Names(names, i)
    ensures exists j :: 0 <= j < i && names[j] == x
  {
  }

  predicate Distinct(s: seq<string>)
  {
    forall i, j :: 0 <= i < j < |s| ==> s[i] != s[j]
  }
}
