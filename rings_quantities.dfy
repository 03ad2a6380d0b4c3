/**
 * Quantities measured on the rings: the centres of mass and their
 * velocities, the velocity obtained from two frames aligned by ring id, the
 * periodic difference of positions, the shoelace area of every ring, the
 * mask of grid cells inside the circular obstacle, and the ring density on a
 * regular grid (the count of ring centres per cell).
 */
module RingsQuantities {
  import opened Wrappers
  import opened Numeric
  import opened CellGrids
  import RingUtils
  import RingForces
  import Invasions

  // ---------------------------------------------------------------------
  // get_cm, get_vel_cm
  // ---------------------------------------------------------------------

  /** Every ring has at least one particle. */
  predicate NonEmptyRings(rings: seq<seq<Point>>)
  {
    forall i :: 0 <= i < |rings| ==> |rings[i]| > 0
  }

  /** A point divided componentwise by n (numpy's `array / n`). */
  function DivP(p: Point, n: real): Point
    requires n != 0.0
  {
    (p.0 / n, p.1 / n)
  }

  lemma DivMul(x: real, a: real)
    requires a != 0.0
    ensures a * (x / a) == x
  {
  }

  lemma DivAdd(x: real, y: real, a: real)
    requires a != 0.0
    ensures x / a + y / a == (x + y) / a
  {
  }

  lemma DivDiffAdd(bx: real, ax: real, y: real, x: real, a: real)
    requires a != 0.0
    ensures (bx - ax) / a + (y - x) / a == ((bx + y) - (ax + x)) / a
  {
    DivAdd(bx - ax, y - x, a);
  }

  lemma DivDivSub(b: real, a: real, c: real, n: real)
    requires c != 0.0 && n != 0.0
    ensures ((b - a) / c) / n == (b / n - a / n) / c
  {
  }

  lemma Distrib(k: real, x: real, m: real)
    requires m == k + 1.0
    ensures k * x + x == m * x
  {
  }

  /** Points are equal when their coordinates are. */
  lemma PointEq(a: Point, b: Point)
    requires a.0 == b.0 && a.1 == b.1
    ensures a == b
  {
  }

  lemma MulCancel(n: real, x: real, y: real)
    requires n != 0.0 && n * x == n * y
    ensures x == y
  {
  }

  /** n p == n q forces p == q for n other than zero. */
  lemma ScaleInjective(n: real, p: Point, q: Point)
    requires n != 0.0 && Scale(n, p) == Scale(n, q)
    ensures p == q
  {
    assert n * p.0 == Scale(n, p).0 == Scale(n, q).0 == n * q.0;
    assert n * p.1 == Scale(n, p).1 == Scale(n, q).1 == n * q.1;
    MulCancel(n, p.0, q.0);
    MulCancel(n, p.1, q.1);
  }

  /** Multiplying back by n undoes the division by n. */
  lemma ScaleDivP(s: Point, n: real)
    requires n != 0.0
    ensures Scale(n, DivP(s, n)) == s
  {
    DivMul(s.0, n);
    DivMul(s.1, n);
    var d := DivP(s, n);
    assert d.0 == s.0 / n && d.1 == s.1 / n;
    assert n * d.0 == s.0 && n * d.1 == s.1;
    assert Scale(n, d).0 == s.0 && Scale(n, d).1 == s.1;
  }

  /** One more point of a translated ring adds the point and one more copy of t. */
  lemma TranslateStep(sum: Point, last: Point, t: Point, n: real, m: real)
    requires m == n + 1.0
    ensures Add(Add(sum, Scale(n, t)), Add(last, t)) == Add(Add(sum, last), Scale(m, t))
  {
    Distrib(n, t.0, m);
    Distrib(n, t.1, m);
    var l := Add(Add(sum, Scale(n, t)), Add(last, t));
    var r := Add(Add(sum, last), Scale(m, t));
    assert l.0 == sum.0 + last.0 + (n * t.0 + t.0) == sum.0 + last.0 + m * t.0 == r.0;
    assert l.1 == sum.1 + last.1 + (n * t.1 + t.1) == sum.1 + last.1 + m * t.1 == r.1;
    PointEq(l, r);
  }

  /** The mean of the points of one ring: `sum(axis=1) / shape[1]` for one row. */
  function Mean(ring: seq<Point>): (m: Point)
    requires |ring| > 0
    ensures Scale(|ring| as real, m) == RingForces.SumPoints(ring)
  {
    var n := |ring| as real;
    var s := RingForces.SumPoints(ring);
    ScaleDivP(s, n);
    DivP(s, n)
  }

  /** `get_cm`: one centre of mass per ring; n times it is the sum of the ring's n positions. */
  function GetCm(rings: seq<seq<Point>>): (r: seq<Point>)
    requires NonEmptyRings(rings)
    ensures |r| == |rings|
    ensures forall i :: 0 <= i < |rings| ==> Scale(|rings[i]| as real, r[i]) == RingForces.SumPoints(rings[i])
  {
    seq(|rings|, i requires 0 <= i < |rings| => Mean(rings[i]))
  }

  /** `get_vel_cm`: the mean particle velocity of every ring. */
  function GetVelCm(vel: seq<seq<Point>>): (r: seq<Point>)
    requires NonEmptyRings(vel)
    ensures |r| == |vel|
    ensures forall i :: 0 <= i < |vel| ==> Scale(|vel[i]| as real, r[i]) == RingForces.SumPoints(vel[i])
  {
    seq(|vel|, i requires 0 <= i < |vel| => Mean(vel[i]))
  }

  lemma {:induction false} SumTranslate(ring: seq<Point>, t: Point)
    ensures RingForces.SumPoints(RingForces.Translate(ring, t)) == Add(RingForces.SumPoints(ring), Scale(|ring| as real, t))
  {
    if ring != [] {
      var n := |ring| - 1;
      var moved := RingForces.Translate(ring, t);
      assert moved[..n] == RingForces.Translate(ring[..n], t);
      SumTranslate(ring[..n], t);
      assert RingForces.SumPoints(moved) == Add(RingForces.SumPoints(moved[..n]), moved[n]);
      assert RingForces.SumPoints(ring) == Add(RingForces.SumPoints(ring[..n]), ring[n]);
      TranslateStep(RingForces.SumPoints(ring[..n]), ring[n], t, n as real, |ring| as real);
    } else {
      assert RingForces.Translate(ring, t) == [];
      ZeroScale(t);
    }
  }

  lemma ZeroScale(t: Point)
    ensures Add((0.0, 0.0), Scale(0.0, t)) == (0.0, 0.0) && Scale(0.0, t) == (0.0, 0.0)
  {
    var z := Scale(0.0, t);
    assert z.0 == 0.0 * t.0 == 0.0;
    assert z.1 == 0.0 * t.1 == 0.0;
    PointEq(z, (0.0, 0.0));
  }

  /** Moving a ring by t moves its centre of mass by t. */
  lemma CmTranslate(ring: seq<Point>, t: Point)
    requires |ring| > 0
    ensures Mean(RingForces.Translate(ring, t)) == Add(Mean(ring), t)
  {
    var n := |ring| as real;
    var m := Mean(RingForces.Translate(ring, t));
    SumTranslate(ring, t);
    assert Scale(n, m) == Add(RingForces.SumPoints(ring), Scale(n, t));
    ScaleAdd(n, Mean(ring), t);
    ScaleInjective(n, m, Add(Mean(ring), t));
  }

  lemma ScaleAdd(n: real, p: Point, q: Point)
    ensures Scale(n, Add(p, q)) == Add(Scale(n, p), Scale(n, q))
  {
    var l := Scale(n, Add(p, q));
    var r := Add(Scale(n, p), Scale(n, q));
    assert l.0 == n * (p.0 + q.0) == n * p.0 + n * q.0 == r.0;
    assert l.1 == n * (p.1 + q.1) == n * p.1 + n * q.1 == r.1;
  }

  lemma {:induction false} SumConstant(ring: seq<Point>, p: Point)
    requires forall k :: 0 <= k < |ring| ==> ring[k] == p
    ensures RingForces.SumPoints(ring) == Scale(|ring| as real, p)
  {
    if ring != [] {
      var n := |ring| - 1;
      SumConstant(ring[..n], p);
      ConstantStep(p, n as real, |ring| as real);
    } else {
      ZeroScale(p);
    }
  }

  lemma ConstantStep(p: Point, n: real, m: real)
    requires m == n + 1.0
    ensures Add(Scale(n, p), p) == Scale(m, p)
  {
    Distrib(n, p.0, m);
    Distrib(n, p.1, m);
    var l := Add(Scale(n, p), p);
    var r := Scale(m, p);
    assert l.0 == n * p.0 + p.0 == m * p.0 == r.0;
    assert l.1 == n * p.1 + p.1 == m * p.1 == r.1;
    PointEq(l, r);
  }

  /** A ring whose particles all sit at p has its centre of mass at p. */
  lemma CmOfCoincident(ring: seq<Point>, p: Point)
    requires |ring| > 0 && forall k :: 0 <= k < |ring| ==> ring[k] == p
    ensures Mean(ring) == p
  {
    SumConstant(ring, p);
    ScaleInjective(|ring| as real, Mean(ring), p);
  }

  // ---------------------------------------------------------------------
  // same_rings, get_vel_cm_from_pos
  // ---------------------------------------------------------------------

  /** No id appears twice. */
  predicate Distinct(ids: seq<int>)
  {
    forall a, b :: 0 <= a < b < |ids| ==> ids[a] != ids[b]
  }

  /** The ids of `a` that also occur in `b`, in the order of `a`. */
  function Inter(a: seq<int>, b: seq<int>): (r: seq<int>)
    ensures forall x :: x in r <==> x in a && x in b
    ensures forall x :: multiset(r)[x] <= multiset(a)[x]
  {
    if a == [] then []
    else
      assert a == [a[0]] + a[1..];
      (if a[0] in b then [a[0]] else []) + Inter(a[1..], b)
  }

  /** `np.intersect1d` of the sorted id lists. */
  function CommonIds(ids1: seq<int>, ids2: seq<int>): seq<int>
  {
    Invasions.SortAsc(Inter(ids1, ids2))
  }

  /** The common ids are strictly increasing and are exactly the ids found in both lists. */
  lemma CommonIdsSpec(ids1: seq<int>, ids2: seq<int>)
    requires Distinct(ids1)
    ensures Invasions.StrictlySorted(CommonIds(ids1, ids2))
    ensures forall x :: x in CommonIds(ids1, ids2) <==> x in ids1 && x in ids2
  {
    var c := CommonIds(ids1, ids2);
    var t := Inter(ids1, ids2);
    Invasions.SortAscSpec(t);
    Invasions.NoRepeatsCount(ids1);
    forall i, j | 0 <= i < j < |c|
      ensures c[i] < c[j]
    {
      Invasions.TwiceInMultiset(c, i, j);
      assert multiset(c)[c[i]] <= 1;
    }
    forall x
      ensures x in c <==> x in t
    {
      assert x in c <==> x in multiset(c);
      assert x in t <==> x in multiset(t);
    }
  }

  /** The position of x in s. */
  function IndexOf(s: seq<int>, x: int): (i: int)
    requires x in s
    ensures 0 <= i < |s| && s[i] == x
  {
    if s[0] == x then 0 else 1 + IndexOf(s[1..], x)
  }

  /** The entries of s at the listed indices (numpy fancy indexing). */
  function Pick<T>(s: seq<T>, idx: seq<int>): (r: seq<T>)
    requires forall k :: 0 <= k < |idx| ==> 0 <= idx[k] < |s|
    ensures |r| == |idx| && forall k :: 0 <= k < |idx| ==> r[k] == s[idx[k]]
  {
    seq(|idx|, k requires 0 <= k < |idx| => s[idx[k]])
  }

  /**
   * `same_rings` with `return_common_ids`: the rings present in both frames,
   * in increasing id order, the k-th of each frame carrying the k-th common
   * id. Ring ids are unique within a frame.
   */
  function SameRings<T>(pos1: seq<T>, ids1: seq<int>, pos2: seq<T>, ids2: seq<int>): (r: (seq<T>, seq<T>, seq<int>))
    requires |pos1| == |ids1| && |pos2| == |ids2|
    requires Distinct(ids1) && Distinct(ids2)
    ensures |r.0| == |r.2| && |r.1| == |r.2|
    ensures Invasions.StrictlySorted(r.2)
    ensures forall x :: x in r.2 <==> x in ids1 && x in ids2
    ensures forall k :: 0 <= k < |r.2| ==> r.0[k] in pos1 && r.1[k] in pos2
    ensures forall k :: 0 <= k < |r.2| ==>
              (exists i :: 0 <= i < |ids1| && ids1[i] == r.2[k] && r.0[k] == pos1[i])
    ensures forall k :: 0 <= k < |r.2| ==>
              (exists j :: 0 <= j < |ids2| && ids2[j] == r.2[k] && r.1[k] == pos2[j])
  {
    var c := CommonIds(ids1, ids2);
    CommonIdsSpec(ids1, ids2);
    var idx1 := seq(|c|, k requires 0 <= k < |c| => IndexOf(ids1, c[k]));
    var idx2 := seq(|c|, k requires 0 <= k < |c| => IndexOf(ids2, c[k]));
    var p1 := Pick(pos1, idx1);
    var p2 := Pick(pos2, idx2);
    assert forall k :: 0 <= k < |c| ==> ids1[idx1[k]] == c[k] && p1[k] == pos1[idx1[k]];
    assert forall k :: 0 <= k < |c| ==> ids2[idx2[k]] == c[k] && p2[k] == pos2[idx2[k]];
    (p1, p2, c)
  }

  /** The per-particle velocity of one ring over dt: `(pos2 - pos1) / dt`. */
  function ScaledDiff(a: seq<Point>, b: seq<Point>, dt: real): (r: seq<Point>)
    requires |a| == |b| && dt != 0.0
    ensures |r| == |a| && forall j :: 0 <= j < |a| ==> r[j] == DivP(Sub(b[j], a[j]), dt)
  {
    seq(|a|, j requires 0 <= j < |a| => DivP(Sub(b[j], a[j]), dt))
  }

  lemma {:induction false} SumScaledDiff(a: seq<Point>, b: seq<Point>, dt: real)
    requires |a| == |b| && dt != 0.0
    ensures RingForces.SumPoints(ScaledDiff(a, b, dt))
         == DivP(Sub(RingForces.SumPoints(b), RingForces.SumPoints(a)), dt)
  {
    if a == [] {
      assert ScaledDiff(a, b, dt) == [];
    } else {
      var n := |a| - 1;
      var v := ScaledDiff(a, b, dt);
      assert v[..n] == ScaledDiff(a[..n], b[..n], dt);
      SumScaledDiff(a[..n], b[..n], dt);
      assert RingForces.SumPoints(v) == Add(RingForces.SumPoints(v[..n]), v[n]);
      var sa := RingForces.SumPoints(a[..n]);
      var sb := RingForces.SumPoints(b[..n]);
      DivDiffAdd(sb.0, sa.0, b[n].0, a[n].0, dt);
      DivDiffAdd(sb.1, sa.1, b[n].1, a[n].1, dt);
    }
  }

  /** The mean of the per-particle velocities is the displacement of the centre of mass over dt. */
  lemma MeanScaledDiff(a: seq<Point>, b: seq<Point>, dt: real)
    requires |a| == |b| > 0 && dt != 0.0
    ensures Mean(ScaledDiff(a, b, dt)) == DivP(Sub(Mean(b), Mean(a)), dt)
  {
    var n := |a| as real;
    var sa := RingForces.SumPoints(a);
    var sb := RingForces.SumPoints(b);
    SumScaledDiff(a, b, dt);
    DivDivSub(sb.0, sa.0, dt, n);
    DivDivSub(sb.1, sa.1, dt, n);
  }

  /** Every ring of both frames has the same, positive, number of particles. */
  predicate SameParticleCount(pos1: seq<seq<Point>>, pos2: seq<seq<Point>>)
  {
    NonEmptyRings(pos1) && NonEmptyRings(pos2) &&
    forall i, j :: 0 <= i < |pos1| && 0 <= j < |pos2| ==> |pos1[i]| == |pos2[j]|
  }

  /**
   * `get_vel_cm_from_pos`: the frames are aligned with `same_rings`, and
   * the velocity of each common ring's centre is the displacement of its
   * centre of mass divided by dt.
   */
  function GetVelCmFromPos(pos1: seq<seq<Point>>, ids1: seq<int>, pos2: seq<seq<Point>>, ids2: seq<int>, dt: real)
    : (r: (seq<Point>, seq<seq<Point>>, seq<seq<Point>>))
    requires |pos1| == |ids1| && |pos2| == |ids2|
    requires Distinct(ids1) && Distinct(ids2)
    requires SameParticleCount(pos1, pos2)
    requires dt != 0.0
    ensures var s := SameRings(pos1, ids1, pos2, ids2);
            r.1 == s.0 && r.2 == s.1 && |r.0| == |s.2|
    ensures forall k :: 0 <= k < |r.0| ==>
              |r.1[k]| == |r.2[k]| > 0 && r.0[k] == DivP(Sub(Mean(r.2[k]), Mean(r.1[k])), dt)
  {
    var s := SameRings(pos1, ids1, pos2, ids2);
    var p1 := s.0;
    var p2 := s.1;
    assert forall k :: 0 <= k < |p1| ==> |p1[k]| == |p2[k]| > 0;
    var vel := seq(|p1|, k requires 0 <= k < |p1| => ScaledDiff(p1[k], p2[k], dt));
    var cm := GetVelCm(vel);
    assert forall k :: 0 <= k < |p1| ==> cm[k] == DivP(Sub(Mean(p2[k]), Mean(p1[k])), dt) by {
      forall k | 0 <= k < |p1|
        ensures cm[k] == DivP(Sub(Mean(p2[k]), Mean(p1[k])), dt)
      {
        MeanScaledDiff(p1[k], p2[k], dt);
        ScaleInjective(|vel[k]| as real, cm[k], Mean(vel[k]));
      }
    }
    (cm, p1, p2)
  }

  // ---------------------------------------------------------------------
  // get_dist_pb
  // ---------------------------------------------------------------------

  /** `get_dist_pb`: `pos2 - pos1`, each component wrapped by its period. */
  function GetDistPb(pos1: seq<Point>, pos2: seq<Point>, height: real, length: real): (r: seq<Point>)
    requires |pos1| == |pos2|
    ensures |r| == |pos1|
  {
    seq(|pos1|, i requires 0 <= i < |pos1| => RingForces.PeriodicBorder(Sub(pos2[i], pos1[i]), length, height))
  }

  /**
   * A component more than half its period away is moved by one period
   * towards zero (`copysign`); a component within half a period is kept.
   * For positive periods the result differs from `pos2 - pos1` by whole
   * periods and lies within half a period when the raw difference is at
   * most one and a half periods.
   */
  lemma GetDistPbSpec(pos1: seq<Point>, pos2: seq<Point>, height: real, length: real, i: int)
    requires |pos1| == |pos2| && 0 <= i < |pos1|
    ensures var d := Sub(pos2[i], pos1[i]);
            var w := GetDistPb(pos1, pos2, height, length)[i];
            (AbsR(d.0) > length / 2.0 ==> w.0 == d.0 - RingForces.CopySign(length, d.0)) &&
            (AbsR(d.0) <= length / 2.0 ==> w.0 == d.0) &&
            (AbsR(d.1) > height / 2.0 ==> w.1 == d.1 - RingForces.CopySign(height, d.1)) &&
            (AbsR(d.1) <= height / 2.0 ==> w.1 == d.1)
    ensures length > 0.0 && height > 0.0 ==>
            var d := Sub(pos2[i], pos1[i]);
            var w := GetDistPb(pos1, pos2, height, length)[i];
            var kx := RingForces.WrapShift(d.0, length);
            var ky := RingForces.WrapShift(d.1, height);
            -1 <= kx <= 1 && -1 <= ky <= 1 &&
            w == (d.0 - kx as real * length, d.1 - ky as real * height) &&
            (AbsR(d.0) <= 3.0 * length / 2.0 ==> AbsR(w.0) <= length / 2.0) &&
            (AbsR(d.1) <= 3.0 * height / 2.0 ==> AbsR(w.1) <= height / 2.0)
  {
    var d := Sub(pos2[i], pos1[i]);
    if length > 0.0 && height > 0.0 {
      RingForces.WrapSpec(d.0, length);
      RingForces.WrapSpec(d.1, height);
    }
  }

  /** Swapping the frames negates the periodic difference. */
  lemma GetDistPbSwap(pos1: seq<Point>, pos2: seq<Point>, height: real, length: real, i: int)
    requires |pos1| == |pos2| && 0 <= i < |pos1|
    requires height >= 0.0 && length >= 0.0
    ensures GetDistPb(pos2, pos1, height, length)[i] == Neg(GetDistPb(pos1, pos2, height, length)[i])
  {
    var d := Sub(pos2[i], pos1[i]);
    assert Sub(pos1[i], pos2[i]) == Neg(d);
    RingForces.WrapOdd(d.0, length);
    RingForces.WrapOdd(d.1, height);
  }

  // ---------------------------------------------------------------------
  // get_area
  // ---------------------------------------------------------------------

  /**
   * `get_area`: for every ring the sum of the cross products of consecutive
   * particles plus the closing one from the last particle to the first,
   * halved once all rings are done. A ring without particles has no last
   * particle and raises `IndexError`.
   */
  method GetArea(rings: seq<seq<Point>>) returns (r: Result<seq<real>>)
    ensures r.Err? <==> !NonEmptyRings(rings)
    ensures r.Err? ==> r.error == IndexError
    ensures r.Ok? ==> |r.value| == |rings| &&
                      forall i :: 0 <= i < |rings| ==> r.value[i] == RingForces.ShoelaceArea(rings[i])
  {
    var areas := new real[|rings|];
    var i := 0;
    while i < |rings|
      invariant 0 <= i <= |rings|
      invariant forall k :: 0 <= k < i ==> (|rings[k]| > 0 &&
                  areas[k] == RingForces.ChainCross(rings[k]) + Cross(rings[k][|rings[k]| - 1], rings[k][0]))
    {
      var ring := rings[i];
      areas[i] := RingForces.ChainCross(ring);
      if |ring| == 0 {
        return Err(IndexError);
      }
      areas[i] := areas[i] + Cross(ring[|ring| - 1], ring[0]);
      i := i + 1;
    }
    i := 0;
    while i < areas.Length
      invariant 0 <= i <= areas.Length
      invariant forall k :: 0 <= k < i ==> areas[k] == RingForces.ShoelaceArea(rings[k])
      invariant forall k :: i <= k < |rings| ==>
                  areas[k] == RingForces.ChainCross(rings[k]) + Cross(rings[k][|rings[k]| - 1], rings[k][0])
    {
      areas[i] := areas[i] / 2.0;
      i := i + 1;
    }
    return Ok(areas[..]);
  }

  // ---------------------------------------------------------------------
  // get_in_obstacle_mask
  // ---------------------------------------------------------------------

  /** The centres of the cells along one axis, from the edges. */
  function Centres(e: seq<real>): (c: seq<real>)
    requires |e| >= 1
    ensures |c| == |e| - 1 && forall k :: 0 <= k < |c| ==> c[k] == (e[k] + e[k + 1]) / 2.0
  {
    seq(|e| - 1, k requires 0 <= k < |e| - 1 => (e[k] + e[k + 1]) / 2.0)
  }

  /**
   * `get_in_obstacle_mask`: over the meshgrid of cell centres, [row][col],
   * whether the squared distance to the obstacle centre is below the
   * squared radius.
   */
  function InObstacleMask(g: RegularGrid, obstacle: Point, radius: real): (m: seq<seq<bool>>)
    requires g.Valid()
    ensures |m| == g.numRows && forall i :: 0 <= i < |m| ==> |m[i]| == g.numCols
  {
    var xs := Centres(g.EdgesX());
    var ys := Centres(g.EdgesY());
    seq(|ys|, i requires 0 <= i < |ys| =>
      seq(|xs|, j requires 0 <= j < |xs| => Sq(xs[j] - obstacle.0) + Sq(ys[i] - obstacle.1) < radius * radius))
  }

  lemma SqLt(d: real, r: real)
    requires 0.0 <= d < r
    ensures d * d < r * r
  {
    calc {
      d * d;
    <= { MulLeR(d, r, d); }
      r * d;
    ==
      d * r;
    < { MulLtR(d, r, r); }
      r * r;
    }
  }

  lemma SqLe(d: real, r: real)
    requires 0.0 <= r <= d
    ensures r * r <= d * d
  {
    calc {
      r * r;
    <= { MulLeR(r, d, r); }
      d * r;
    ==
      r * d;
    <= { MulLeR(r, d, d); }
      d * d;
    }
  }

  /** For nonnegative d and r, d*d < r*r exactly when d < r. */
  lemma SqLess(d: real, r: real)
    requires d >= 0.0 && r >= 0.0
    ensures d * d < r * r <==> d < r
  {
    if d < r {
      SqLt(d, r);
    } else {
      SqLe(d, r);
    }
  }

  /**
   * A cell is marked exactly when its centre is strictly closer to the
   * obstacle centre than the radius (its absolute value, as the radius is
   * squared): `dist` is that distance, the root of the squared one.
   */
  lemma InObstacleMaskSpec(g: RegularGrid, obstacle: Point, radius: real, i: int, j: int, dist: real)
    requires g.Valid() && 0 <= i < g.numRows && 0 <= j < g.numCols
    requires dist >= 0.0
    requires var xc := Centres(g.EdgesX())[j];
             var yc := Centres(g.EdgesY())[i];
             dist * dist == Sq(xc - obstacle.0) + Sq(yc - obstacle.1)
    ensures InObstacleMask(g, obstacle, radius)[i][j] <==> dist < AbsR(radius)
  {
    assert AbsR(radius) * AbsR(radius) == radius * radius;
    SqLess(dist, AbsR(radius));
  }

  /** Consecutive edges are one cell apart. */
  lemma EdgesStep(g: RegularGrid, i: int, j: int)
    requires g.Valid() && 0 <= i < g.numRows && 0 <= j < g.numCols
    ensures g.EdgesX()[j + 1] == g.EdgesX()[j] + g.CellSize().0
    ensures g.EdgesY()[i + 1] == g.EdgesY()[i] + g.CellSize().1
  {
    var s := g.CellSize();
    Distrib(j as real, s.0, (j + 1) as real);
    Distrib(i as real, s.1, (i + 1) as real);
  }

  /**
   * The commented-out alternative: every cell the "inside" `circle_mask`
   * marks for the obstacle circle is also in the obstacle mask.
   */
  lemma InsideCircleMaskInObstacle(g: RegularGrid, obstacle: Point, radius: real, i: int, j: int)
    requires g.Valid() && 0 <= i < g.numRows && 0 <= j < g.numCols
    requires RingUtils.CircleMask(g.EdgesX(), g.EdgesY(), radius, obstacle, "inside").value[i][j]
    ensures InObstacleMask(g, obstacle, radius)[i][j]
  {
    var xs := g.EdgesX();
    var ys := g.EdgesY();
    EdgesStep(g, i, j);
    var p := (Centres(xs)[j], Centres(ys)[i]);
    assert xs[j] <= p.0 <= xs[j + 1] && ys[i] <= p.1 <= ys[i + 1];
    RingUtils.InsideMaskSound(xs, ys, radius, obstacle, i, j, p);
    assert InObstacleMask(g, obstacle, radius)[i][j] == (Sq(p.0 - obstacle.0) + Sq(p.1 - obstacle.1) < radius * radius);
  }

  // ---------------------------------------------------------------------
  // Density
  // ---------------------------------------------------------------------

  /** The number of the points that cell c locates. */
  ghost function NumLocated(g: RegularGrid, pts: seq<Point>, c: Coord): nat
    requires g.Valid()
  {
    if pts == [] then 0
    else NumLocated(g, pts[..|pts| - 1], c) + (if Locates(g, pts[|pts| - 1], c) then 1 else 0)
  }

  /** One axis of a cell interval: two indices whose cells hold the same offset are equal. */
  lemma AxisUnique(a: int, b: int, o: real, s: real)
    requires s > 0.0
    requires a as real * s <= o < (a + 1) as real * s
    requires b as real * s <= o < (b + 1) as real * s
    ensures a == b
  {
    if a < b {
      MulLeR((a + 1) as real, b as real, s);
    } else if b < a {
      MulLeR((b + 1) as real, a as real, s);
    }
  }

  /** A point is located by one coordinate only. */
  lemma LocatesUnique(g: RegularGrid, p: Point, c: Coord, d: Coord)
    requires g.Valid() && Locates(g, p, c) && Locates(g, p, d)
    ensures c == d
  {
    var o := g.Offset(p);
    var s := g.CellSize();
    if 0 <= c.0 < g.numCols && 0 <= d.0 < g.numCols {
      AxisUnique(c.0, d.0, o.0, s.0);
    }
    if 0 <= c.1 < g.numRows && 0 <= d.1 < g.numRows {
      AxisUnique(c.1, d.1, o.1, s.1);
    }
  }

  /** The floored coordinates name cell c as many times as c locates a point. */
  lemma {:induction false} CoordsCountLocated(g: RegularGrid, pts: seq<Point>, c: Coord)
    requires g.Valid()
    ensures multiset(RingUtils.CoordsOfLayer(g, pts, true))[c] == NumLocated(g, pts, c)
  {
    if pts != [] {
      var n := |pts| - 1;
      var cs := RingUtils.CoordsOfLayer(g, pts, true);
      assert cs == RingUtils.CoordsOfLayer(g, pts[..n], true) + [cs[n]];
      CoordsCountLocated(g, pts[..n], c);
      CoordFloorSpec(g, pts[n]);
      if Locates(g, pts[n], c) {
        LocatesUnique(g, pts[n], c, cs[n]);
      }
    }
  }

  /** The widened row/column index of a coordinate: the -1 marker is the last one. */
  function Widened(k: int, n: nat): int
  {
    if k == -1 then n + 1 else k
  }

  /**
   * `Density.get_from_cm` of the src copy: the `count` of the centres'
   * coordinates, one layer of the grid widened by the out-of-grid cells.
   * Every cell of the widened grid, the markers included, holds the number
   * of ring centres that cell locates.
   */
  function DensityFromCm(g: RegularGrid, cms: seq<Point>): (r: seq<seq<seq<nat>>>)
    requires g.Valid()
    ensures |r| == 1 && |r[0]| == g.numRows + 2
    ensures forall row :: 0 <= row < g.numRows + 2 ==> |r[0][row]| == g.numCols + 2
    ensures forall col, row :: -1 <= col <= g.numCols && -1 <= row <= g.numRows ==>
              r[0][Widened(row, g.numRows)][Widened(col, g.numCols)] == NumLocated(g, cms, (col, row))
  {
    var coords := RingUtils.CoordsOfLayer(g, cms, true);
    assert forall i :: 0 <= i < |coords| ==> Clamped(coords[i], g.numCols, g.numRows) by {
      forall i | 0 <= i < |coords|
        ensures Clamped(coords[i], g.numCols, g.numRows)
      {
        CoordFloorSpec(g, cms[i]);
      }
    }
    RingUtils.CountLayerSpec(coords, g.numCols, g.numRows, 0, 0);
    var count := RingUtils.CountLayer(coords, g.numCols, g.numRows).value;
    assert forall col, row :: -1 <= col <= g.numCols && -1 <= row <= g.numRows ==>
             count[Widened(row, g.numRows)][Widened(col, g.numCols)] == NumLocated(g, cms, (col, row)) by {
      forall col, row | -1 <= col <= g.numCols && -1 <= row <= g.numRows
        ensures count[Widened(row, g.numRows)][Widened(col, g.numCols)] == NumLocated(g, cms, (col, row))
      {
        RingUtils.CountLayerSpec(coords, g.numCols, g.numRows, col, row);
        CoordsCountLocated(g, cms, (col, row));
      }
    }
    [count]
  }

  /** `cell_area`: every cell of a regular grid has the same, positive, area. */
  function CellArea(g: RegularGrid): (a: real)
    requires g.Valid()
    ensures a > 0.0
  {
    var s := g.CellSize();
    MulLtR(0.0, s.0, s.1);
    s.0 * s.1
  }

  /** After `remove_cells_out_of_bounds` the count is nr x nc, each in-grid cell holding its number of centres. */
  lemma KeptCounts(g: RegularGrid, cms: seq<Point>)
    requires g.Valid()
    ensures var kept := RingUtils.RemoveCellsOutOfBounds(DensityFromCm(g, cms)[0]);
            |kept| == g.numRows &&
            (forall row :: 0 <= row < g.numRows ==> |kept[row]| == g.numCols) &&
            forall col, row :: 0 <= col < g.numCols && 0 <= row < g.numRows ==>
              kept[row][col] == NumLocated(g, cms, (col, row))
  {
    var count := DensityFromCm(g, cms)[0];
    var kept := RingUtils.RemoveCellsOutOfBounds(count);
    forall row | 0 <= row < g.numRows
      ensures |kept[row]| == g.numCols
      ensures forall col :: 0 <= col < g.numCols ==> kept[row][col] == NumLocated(g, cms, (col, row))
    {
      assert kept[row] == RingUtils.DropTwo(count[row]);
      forall col | 0 <= col < g.numCols
        ensures kept[row][col] == NumLocated(g, cms, (col, row))
      {
        assert Widened(row, g.numRows) == row && Widened(col, g.numCols) == col;
      }
    }
  }

  /**
   * `Density.get_from_cm` of the build copy: the count without the
   * out-of-grid cells, simplified to one layer, divided by the cell area.
   * Each cell's density is the number of ring centres in that cell over
   * the cell area.
   */
  function DensityFromCmPerArea(g: RegularGrid, cms: seq<Point>): (r: seq<seq<real>>)
    requires g.Valid()
    ensures |r| == g.numRows && forall row :: 0 <= row < g.numRows ==> |r[row]| == g.numCols
    ensures forall col, row :: 0 <= col < g.numCols && 0 <= row < g.numRows ==>
              r[row][col] == NumLocated(g, cms, (col, row)) as real / CellArea(g)
  {
    var kept := RingUtils.RemoveCellsOutOfBounds(DensityFromCm(g, cms)[0]);
    var area := CellArea(g);
    KeptCounts(g, cms);
    DivideBy(kept, area)
  }

  /** Every entry divided by a. */
  function DivideBy(m: seq<seq<nat>>, a: real): (r: seq<seq<real>>)
    requires a != 0.0
    ensures |r| == |m| && forall i :: 0 <= i < |m| ==> |r[i]| == |m[i]|
    ensures forall i, j :: 0 <= i < |m| && 0 <= j < |m[i]| ==> r[i][j] == m[i][j] as real / a
  {
    seq(|m|, i requires 0 <= i < |m| => seq(|m[i]|, j requires 0 <= j < |m[i]| => m[i][j] as real / a))
  }

  /**
   * `Density.get_from_pos` computes the density of the rings' centres of
   * mass and discards it: the call yields `None`.
   */
  function DensityFromPos(g: RegularGrid, pos: seq<seq<Point>>): (r: Option<seq<seq<seq<nat>>>>)
    requires g.Valid() && NonEmptyRings(pos)
    ensures r.None?
  {
    var _ := DensityFromCm(g, GetCm(pos));
    None
  }
}
