/**
 * Smoothing of a sampled series (`conv_arr`, `mean_arr` of the data utilities).
 * `conv_arr` is numpy's `convolve(arr, ones(k), "valid")`; `mean_arr` either
 * keeps every k-th sliding sum divided by k, or walks windows whose size grows
 * by a factor `r` per step.
 */
module DataUtils {
  import opened Wrappers
  import opened Numeric

  function MinI(a: int, b: int): int { if a <= b then a else b }
  function MaxI(a: int, b: int): int { if a <= b then b else a }

  /**
   * Entry `n` of the full discrete convolution of `a` with `k` ones:
   * the sum over m of a[m] * v[n - m], where v[j] is 1 for 0 <= j < k and 0 otherwise.
   */
  function FullConv(a: seq<real>, k: int, n: int): real
  {
    if a == [] then 0.0
    else
      var m := |a| - 1;
      FullConv(a[..m], k, n) + (if 0 <= n - m < k then a[m] else 0.0)
  }

  /** The kernel misses every element: the entry is zero. */
  lemma {:induction false} FullConvZero(a: seq<real>, k: int, n: int)
    requires n - k + 1 >= |a|
    ensures FullConv(a, k, n) == 0.0
  {
    if a != [] {
      FullConvZero(a[..|a| - 1], k, n);
    }
  }

  /** Entry `n` of the full convolution is the sum of the elements under the kernel. */
  lemma {:induction false} FullConvWindow(a: seq<real>, k: int, n: int)
    requires k >= 1 && n >= 0 && n - k + 1 <= |a|
    ensures FullConv(a, k, n) == Sum(a[MaxI(0, n - k + 1)..MinI(|a|, n + 1)])
  {
    var lo := MaxI(0, n - k + 1);
    var hi := MinI(|a|, n + 1);
    if a == [] {
    } else if lo == |a| {
      FullConvZero(a[..|a| - 1], k, n);
      assert a[lo..hi] == [];
    } else {
      var m := |a| - 1;
      var p := a[..m];
      FullConvWindow(p, k, n);
      var hp := MinI(m, n + 1);
      assert p[lo..hp] == a[lo..hp];
      if m <= n {
        assert hi == m + 1 && hp == m;
        assert a[lo..hi] == a[lo..hp] + [a[m]];
        SumAppend(a[lo..hp], [a[m]]);
        SumSingleton(a[m]);
      } else {
        assert hi == hp;
      }
    }
  }

  /**
   * `conv_arr(arr, k)`: numpy's "valid" convolution with `k` ones, which keeps the
   * `max(n, k) - min(n, k) + 1` entries where one operand lies wholly inside the other.
   * numpy refuses an empty operand (and `ones` a negative size) with a ValueError.
   */
  function ConvArr(a: seq<real>, k: int): (r: Result<seq<real>>)
    ensures r.Ok? <==> |a| > 0 && k > 0
    ensures r.Err? ==> r.error == ValueError
    ensures r.Ok? && k <= |a| ==>
      |r.value| == |a| - k + 1 &&
      forall i :: 0 <= i < |r.value| ==> r.value[i] == Sum(a[i..i + k])
    ensures r.Ok? && k > |a| ==>
      |r.value| == k - |a| + 1 &&
      forall i :: 0 <= i < |r.value| ==> r.value[i] == Sum(a)
  {
    if |a| == 0 || k <= 0 then Err(ValueError)
    else
      var lo := MinI(|a|, k);
      var r := seq(MaxI(|a|, k) - lo + 1, i => FullConv(a, k, i + lo - 1));
      assert forall i :: 0 <= i < |r| ==> r[i] == (if k <= |a| then Sum(a[i..i + k]) else Sum(a)) by {
        forall i | 0 <= i < |r|
          ensures r[i] == (if k <= |a| then Sum(a[i..i + k]) else Sum(a))
        {
          FullConvWindow(a, k, i + lo - 1);
          if k > |a| {
            assert a[MaxI(0, i + lo - k)..MinI(|a|, i + lo)] == a;
          }
        }
      }
      Ok(r)
  }

  /** The sliding sums step by one element in, one element out. */
  lemma SlidingStep(a: seq<real>, k: int, i: int)
    requires 1 <= k <= |a| && 0 <= i && i + 1 <= |a| - k
    ensures ConvArr(a, k).value[i + 1] == ConvArr(a, k).value[i] - a[i] + a[i + k]
  {
    assert a[i..i + k + 1] == a[i..i + k] + [a[i + k]];
    SumAppend(a[i..i + k], [a[i + k]]);
    SumSingleton(a[i + k]);
    assert a[i..i + k + 1] == [a[i]] + a[i + 1..i + k + 1];
    SumAppend([a[i]], a[i + 1..i + k + 1]);
    SumSingleton(a[i]);
  }

  /** Entries of `s` at indices that are multiples of `k` (numpy mask `arange(n) % k == 0`). */
  function EveryKth(s: seq<real>, k: int): (r: seq<real>)
    requires k >= 1
    ensures |r| == (|s| + k - 1) / k
    ensures forall j :: 0 <= j < |r| ==> j * k < |s| && r[j] == s[j * k]
  {
    var q := (|s| + k - 1) / k;
    assert forall j :: 0 <= j < q ==> j * k < |s| by {
      forall j | 0 <= j < q
        ensures j * k < |s|
      {
        KthFits(|s|, k, j);
      }
    }
    seq(q, j requires 0 <= j < q => s[j * k])
  }

  /** The j-th multiple of `k` below the ceiling of n / k is an index of a length-n sequence. */
  lemma KthFits(n: int, k: int, j: int)
    requires k >= 1 && n >= 0 && 0 <= j < (n + k - 1) / k
    ensures j * k < n
  {
    DivEq(n + k - 1, k);
    MulMono(j + 1, (n + k - 1) / k, k);
    MulSucc(j + 1, k);
  }

  lemma DivOne(x: int, k: int)
    requires k >= 1 && k <= x < 2 * k
    ensures x / k == 1
  {
    DivUnique(x, k, 1, x - k);
  }

  /** `j * k + k <= n` for every block index below `n / k`. */
  lemma BlockFits(n: int, k: int, j: int)
    requires k >= 1 && n >= 0 && 0 <= j < n / k
    ensures j * k + k <= n
  {
    DivEq(n, k);
    MulMono(j + 1, n / k, k);
    MulSucc(j + 1, k);
  }

  /** A block that fits lies below `n / k`. */
  lemma BlockIndex(n: int, k: int, j: int)
    requires k >= 1 && 0 <= j && j * k + k <= n
    ensures j < n / k
  {
    var m := n - (j * k + k);
    var q := m / k;
    DivEq(m, k);
    MulSucc(j + 1, k);
    assert n == (j + 1 + q) * k + m % k;
    DivUnique(n, k, j + 1 + q, m % k);
  }

  function DivideAll(s: seq<real>, d: real): (r: seq<real>)
    requires d != 0.0
    ensures |r| == |s| && forall j :: 0 <= j < |s| ==> r[j] == s[j] / d
  {
    seq(|s|, j requires 0 <= j < |s| => s[j] / d)
  }

  /** `mean_arr(arr, k)` with r = 1: every k-th sliding sum, divided by k. */
  function BlockMeans(a: seq<real>, k: int): (r: Result<seq<real>>)
    ensures r.Ok? <==> |a| > 0 && k > 0
    ensures r.Err? ==> r.error == ValueError
    ensures r.Ok? && k <= |a| ==>
      |r.value| == |a| / k &&
      forall j :: 0 <= j < |r.value| ==>
        j * k + k <= |a| && r.value[j] == Sum(a[j * k..j * k + k]) / k as real
    ensures r.Ok? && k > |a| ==> r.value == [Sum(a) / k as real]
  {
    match ConvArr(a, k)
    case Err(e) => Err(e)
    case Ok(c) =>
      var picked := EveryKth(c, k);
      var r := DivideAll(picked, k as real);
      if k <= |a| then
        assert |c| + k - 1 == |a|;
        forall j | 0 <= j < |r|
          ensures j * k + k <= |a| && r[j] == Sum(a[j * k..j * k + k]) / k as real
        {
          BlockFits(|a|, k, j);
          var i := j * k;
          assert r[j] == picked[j] / k as real;
          assert picked[j] == c[i];
          assert c[i] == Sum(a[i..i + k]);
        }
        Ok(r)
      else
        assert (|c| + k - 1) / k == 1 by { DivOne(|c| + k - 1, k); }
        Ok(r)
  }

  lemma ConvSelfTest()
    ensures ConvArr([1.0, 2.0, 3.0, 4.0, 5.0], 3) == Ok([6.0, 9.0, 12.0])
  {
    var a := [1.0, 2.0, 3.0, 4.0, 5.0];
    var r := ConvArr(a, 3).value;
    assert a[0..3] == [1.0, 2.0, 3.0] && a[1..4] == [2.0, 3.0, 4.0] && a[2..5] == [3.0, 4.0, 5.0];
    Sum3(1.0, 2.0, 3.0);
    Sum3(2.0, 3.0, 4.0);
    Sum3(3.0, 4.0, 5.0);
    assert r == [6.0, 9.0, 12.0];
  }

  lemma MeanSelfTest()
    ensures BlockMeans([1.0, 2.0, 3.0, 4.0, 5.0], 2) == Ok([1.5, 3.5])
  {
    var a := [1.0, 2.0, 3.0, 4.0, 5.0];
    var r := BlockMeans(a, 2).value;
    assert |r| == 2;
    assert a[0..2] == [1.0, 2.0] && a[2..4] == [3.0, 4.0];
    Sum2(1.0, 2.0);
    Sum2(3.0, 4.0);
    assert r == [1.5, 3.5];
  }

  lemma Sum2(x: real, y: real)
    ensures Sum([x, y]) == x + y
  {
    assert [x, y][..1] == [x];
    SumSingleton(x);
  }

  lemma Sum3(x: real, y: real, z: real)
    ensures Sum([x, y, z]) == x + y + z
  {
    assert [x, y, z][..2] == [x, y];
    Sum2(x, y);
  }

  /** An integer-valued window size rounds to itself. */
  lemma RoundInt(k: int)
    ensures RoundHalfEven(k as real) == k
  {
  }

  lemma GrowRound(ks: real, r: real)
    requires ks >= 1.0 && r >= 1.0
    ensures r * ks >= 1.0 && RoundHalfEven(r * ks) >= 1
  {
    assert r * ks - ks == (r - 1.0) * ks;
    assert (r - 1.0) * ks >= 0.0;
  }

  /**
   * The growing-window means of `mean_arr` with r != 1, from index `start` with the
   * current (unrounded) window size `ks`: each window holds `round(ks)` elements and
   * its sum is divided by that count; windows are laid end to end and the walk stops
   * at the first window that would pass the end of the series.
   */
  function GrowingMeans(a: seq<real>, start: nat, ks: real, r: real): seq<real>
    requires ks >= 1.0 && r >= 1.0
    decreases |a| - start
  {
    var w := RoundHalfEven(ks);
    GrowRound(ks, r);
    if start + w <= |a| then
      [Sum(a[start..start + w]) / w as real] + GrowingMeans(a, start + w, r * ks, r)
    else []
  }

  /** Every window lies inside the series: at most one mean per remaining element. */
  lemma {:induction false} GrowingMeansBound(a: seq<real>, start: nat, ks: real, r: real)
    requires ks >= 1.0 && r >= 1.0 && start <= |a|
    ensures |GrowingMeans(a, start, ks, r)| <= |a| - start
    decreases |a| - start
  {
    var w := RoundHalfEven(ks);
    GrowRound(ks, r);
    if start + w <= |a| {
      GrowingMeansBound(a, start + w, r * ks, r);
    }
  }

  /** With r = 1 every window has k elements: one step of the walk. */
  lemma GrowingAtOneStep(a: seq<real>, start: nat, k: int)
    requires 1 <= k
    ensures start + k <= |a| ==>
      GrowingMeans(a, start, k as real, 1.0) ==
        [Sum(a[start..start + k]) / k as real] + GrowingMeans(a, start + k, k as real, 1.0)
    ensures start + k > |a| ==> GrowingMeans(a, start, k as real, 1.0) == []
  {
    RoundInt(k);
    assert 1.0 * (k as real) == k as real;
  }

  lemma {:induction false} GrowingAtOneLength(a: seq<real>, start: nat, k: int)
    requires 1 <= k && start <= |a|
    ensures |GrowingMeans(a, start, k as real, 1.0)| == (|a| - start) / k
    decreases |a| - start
  {
    GrowingAtOneStep(a, start, k);
    var n := |a| - start;
    if start + k <= |a| {
      GrowingAtOneLength(a, start + k, k);
      DivStep(n - k, k);
      assert n - k + k == n;
    } else {
      DivUnique(n, k, 0, n);
    }
  }

  /** With r = 1 mean j of the walk is the mean of block j. */
  lemma {:induction false} GrowingAtOneAt(a: seq<real>, start: nat, k: int, j: int)
    requires 1 <= k && start <= |a| && 0 <= j && start + j * k + k <= |a|
    ensures j < |GrowingMeans(a, start, k as real, 1.0)|
    ensures GrowingMeans(a, start, k as real, 1.0)[j] ==
      Sum(a[start + j * k..start + j * k + k]) / k as real
    decreases j
  {
    GrowingAtOneLength(a, start, k);
    BlockIndex(|a| - start, k, j);
    var lo := start + j * k;
    if j == 0 {
      assert lo == start;
      GrowingAtOneStep(a, start, k);
    } else {
      MulSucc(j, k);
      assert start + k + (j - 1) * k == lo;
      GrowingAtOneAt(a, start + k, k, j - 1);
      GrowingAtOneStep(a, start, k);
    }
  }

  lemma BlocksAgree(a: seq<real>, k: int)
    requires 1 <= k <= |a|
    ensures GrowingMeans(a, 0, k as real, 1.0) == BlockMeans(a, k).value
  {
    GrowingAtOneLength(a, 0, k);
    var g := GrowingMeans(a, 0, k as real, 1.0);
    var b := BlockMeans(a, k).value;
    forall j | 0 <= j < |g|
      ensures g[j] == b[j]
    {
      BlockFits(|a|, k, j);
      GrowingAtOneAt(a, 0, k, j);
    }
  }

  /**
   * `mean_arr(arr, k, r)`. The r != 1 walk only terminates when the window never
   * shrinks to zero elements, so that branch is modelled for r > 1 and k >= 1.
   */
  method MeanArr(a: seq<real>, k: int, r: real) returns (res: Result<seq<real>>)
    requires r != 1.0 ==> r > 1.0 && k >= 1
    ensures r == 1.0 ==> res == BlockMeans(a, k)
    ensures r != 1.0 ==> res == Ok(GrowingMeans(a, 0, k as real, r))
  {
    if r == 1.0 {
      return BlockMeans(a, k);
    }
    var newArr: seq<real> := [];
    var ks: real := k as real;
    var ksRound := RoundHalfEven(ks);
    RoundInt(k);
    var start := 0;
    var endId := start + k;
    while endId <= |a|
      invariant 0 <= start <= |a| && ks >= 1.0
      invariant ksRound == RoundHalfEven(ks) && endId == start + ksRound
      invariant newArr + GrowingMeans(a, start, ks, r) == GrowingMeans(a, 0, k as real, r)
      decreases |a| - start
    {
      GrowRound(ks, r);
      assert GrowingMeans(a, start, ks, r) ==
        [Sum(a[start..endId]) / ksRound as real] + GrowingMeans(a, endId, r * ks, r);
      newArr := newArr + [Sum(a[start..endId]) / ksRound as real];
      start := endId;
      ks := r * ks;
      ksRound := RoundHalfEven(ks);
      endId := endId + ksRound;
    }
    assert GrowingMeans(a, start, ks, r) == [];
    assert newArr + [] == newArr;
    assert newArr == GrowingMeans(a, 0, k as real, r);
    return Ok(newArr);
  }
}
