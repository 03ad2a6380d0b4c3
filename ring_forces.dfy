/**
 * The real-valued geometry and the pairwise force bookkeeping of the C++
 * `Ring` solver: the periodic wrap of a difference vector, the
 * excluded-volume and spring pair forces accumulated into the force matrix,
 * the shoelace area, the continuous (unwrapped) ring reconstruction and the
 * stokes wall clamp.  Distances, which the source obtains with `sqrt`, are
 * passed in together with the fact that they square to the squared norm.
 */
module RingForces {
  import opened Numeric

  /** `RingUpdateType`. */
  datatype UpdateType = PeriodicBorders | Stokes | Invagination

  /** `std::copysign(mag, s)` for a magnitude: `mag` with the sign of `s`. */
  function CopySign(mag: real, s: real): real
  {
    if s < 0.0 then -mag else mag
  }

  /** One coordinate of `periodic_border`: beyond half a period, one period is taken off towards zero. */
  function Wrap(x: real, size: real): real
  {
    if AbsR(x) > size / 2.0 then x - CopySign(size, x) else x
  }

  /** The number of periods `Wrap` subtracts. */
  function WrapShift(x: real, size: real): int
  {
    if AbsR(x) > size / 2.0 then (if x < 0.0 then -1 else 1) else 0
  }

  /**
   * `Wrap` moves x by a whole number of periods (at most one); leaves x in
   * place within half a period; and brings any x within one and a half
   * periods into [-size/2, size/2].
   */
  lemma WrapSpec(x: real, size: real)
    requires size > 0.0
    ensures Wrap(x, size) == x - WrapShift(x, size) as real * size
    ensures -1 <= WrapShift(x, size) <= 1
    ensures AbsR(x) <= size / 2.0 ==> Wrap(x, size) == x
    ensures AbsR(x) <= 3.0 * size / 2.0 ==> AbsR(Wrap(x, size)) <= size / 2.0
  {
  }

  /** Wrapping commutes with negation, so the wrapped difference q - p is minus the wrapped p - q. */
  lemma WrapOdd(x: real, size: real)
    requires size >= 0.0
    ensures Wrap(-x, size) == -Wrap(x, size)
  {
  }

  /** `periodic_border`: each coordinate wrapped by its own period. */
  function PeriodicBorder(p: Point, length: real, height: real): Point
  {
    (Wrap(p.0, length), Wrap(p.1, height))
  }

  /** The difference vector `periodic_dist` leaves behind: unchanged in the stokes regime, wrapped otherwise. */
  function PeriodicDiff(d: Point, length: real, height: real, updateType: UpdateType): Point
  {
    if updateType == Stokes then d else PeriodicBorder(d, length, height)
  }

  lemma PeriodicDiffOdd(d: Point, length: real, height: real, updateType: UpdateType)
    requires length >= 0.0 && height >= 0.0
    ensures PeriodicDiff(Neg(d), length, height, updateType) == Neg(PeriodicDiff(d, length, height, updateType))
  {
    WrapOdd(d.0, length);
    WrapOdd(d.1, height);
  }

  /**
   * The excluded-volume pair scalar for a pair within `maxDist`: linear
   * attraction on (diameter, maxDist], linear repulsion up to the diameter.
   */
  function ExcludedVolScalar(dist: real, diameter: real, maxDist: real, adhForce: real, repForce: real): (s: real)
    requires 0.0 < dist <= maxDist
    ensures diameter < dist && adhForce >= 0.0 ==> s <= 0.0
    ensures dist <= diameter && repForce >= 0.0 ==> s >= 0.0
    ensures dist == diameter ==> s == 0.0
    ensures dist <= diameter && repForce > 0.0 ==> (s == 0.0 <==> dist == diameter)
    ensures diameter < dist && adhForce > 0.0 ==> (s == -adhForce <==> dist == maxDist)
  {
    if dist > diameter then
      MulNonPositive(adhForce, diameter - dist);
      DivByPositive(adhForce * (diameter - dist), maxDist - diameter, adhForce);
      adhForce * (diameter - dist) / (maxDist - diameter)
    else
      MulNonPositive(repForce, dist - diameter);
      repForce * (diameter - dist) / diameter
  }

  lemma MulNonPositive(a: real, b: real)
    ensures a >= 0.0 && b <= 0.0 ==> a * b <= 0.0
    ensures a >= 0.0 && b >= 0.0 ==> a * b >= 0.0
    ensures a > 0.0 && b != 0.0 ==> a * b != 0.0
  {
  }

  lemma DivByPositive(x: real, y: real, a: real)
    requires y > 0.0
    ensures x <= 0.0 ==> x / y <= 0.0
    ensures x >= 0.0 ==> x / y >= 0.0
    ensures x < 0.0 ==> x / y < 0.0
    ensures x > 0.0 ==> x / y > 0.0
    ensures x / y == -a <==> x == -a * y
  {
  }

  /** The excluded-volume force on p from `other`, for a pair within `maxDist`. */
  function ExcludedVolVec(d: Point, dist: real, diameter: real, maxDist: real, adhForce: real, repForce: real): Point
    requires 0.0 < dist <= maxDist
  {
    Scale(ExcludedVolScalar(dist, diameter, maxDist, adhForce, repForce) / dist, d)
  }

  /** Sum of a list of vectors. */
  function SumPoints(s: seq<Point>): Point
  {
    if s == [] then (0.0, 0.0) else Add(SumPoints(s[..|s| - 1]), s[|s| - 1])
  }

  /** The sum of every entry of the force matrix. */
  function Total(m: seq<seq<Point>>): Point
  {
    if m == [] then (0.0, 0.0) else Add(Total(m[..|m| - 1]), SumPoints(m[|m| - 1]))
  }

  /** The force matrix with f added to entry (i, j). */
  function AddAt(m: seq<seq<Point>>, i: int, j: int, f: Point): (r: seq<seq<Point>>)
    requires 0 <= i < |m| && 0 <= j < |m[i]|
    ensures |r| == |m| && forall k :: 0 <= k < |m| ==> |r[k]| == |m[k]|
  {
    m[i := m[i][j := Add(m[i][j], f)]]
  }

  lemma {:induction false} SumPointsUpdate(s: seq<Point>, j: int, f: Point)
    requires 0 <= j < |s|
    ensures SumPoints(s[j := Add(s[j], f)]) == Add(SumPoints(s), f)
  {
    var n := |s| - 1;
    if j < n {
      assert s[j := Add(s[j], f)][..n] == s[..n][j := Add(s[..n][j], f)];
      SumPointsUpdate(s[..n], j, f);
    } else {
      assert s[j := Add(s[j], f)][..n] == s[..n];
    }
  }

  /** Adding f to one entry adds f to the total. */
  lemma {:induction false} TotalAddAt(m: seq<seq<Point>>, i: int, j: int, f: Point)
    requires 0 <= i < |m| && 0 <= j < |m[i]|
    ensures Total(AddAt(m, i, j, f)) == Add(Total(m), f)
  {
    var n := |m| - 1;
    if i < n {
      assert AddAt(m, i, j, f)[..n] == AddAt(m[..n], i, j, f);
      TotalAddAt(m[..n], i, j, f);
    } else {
      assert AddAt(m, i, j, f)[..n] == m[..n];
      SumPointsUpdate(m[i], j, f);
    }
  }

  lemma AddNeg(t: Point, f: Point)
    ensures Add(Add(t, f), Neg(f)) == t
  {
  }

  /** Adding f somewhere and -f anywhere (the same entry included) leaves the total. */
  lemma PairKeepsTotal(m: seq<seq<Point>>, i: int, j: int, i': int, j': int, f: Point)
    requires 0 <= i < |m| && 0 <= j < |m[i]| && 0 <= i' < |m| && 0 <= j' < |m[i']|
    ensures Total(AddAt(AddAt(m, i, j, f), i', j', Neg(f))) == Total(m)
  {
    var m1 := AddAt(m, i, j, f);
    TotalAddAt(m, i, j, f);
    TotalAddAt(m1, i', j', Neg(f));
    AddNeg(Total(m), f);
  }

  /**
   * The force bookkeeping part of `Ring`: the force constants, the
   * boundary type and the accumulated force matrix `sum_forces_matrix`.
   */
  class RingForces {
    const updateType: UpdateType
    const length: real
    const height: real
    const diameter: real
    const maxDist: real
    const adhForce: real
    const repForce: real
    const springK: real
    const springR: real
    const numParticles: int
    /** Rings whose springs use the per-spring constants `invSpringK` in the invagination regime. */
    const invNumAffected: int
    const invSpringK: seq<real>
    var sumForces: seq<seq<Point>>

    constructor (updateType: UpdateType, length: real, height: real, diameter: real, maxDist: real,
                 adhForce: real, repForce: real, springK: real, springR: real, numParticles: int,
                 invNumAffected: int, invSpringK: seq<real>, numMaxRings: nat)
      requires numParticles >= 0
      ensures this.updateType == updateType && this.length == length && this.height == height
      ensures this.diameter == diameter && this.maxDist == maxDist && this.adhForce == adhForce
      ensures this.repForce == repForce && this.springK == springK && this.springR == springR
      ensures this.numParticles == numParticles && this.invNumAffected == invNumAffected
      ensures this.invSpringK == invSpringK
      ensures |sumForces| == numMaxRings && forall r :: 0 <= r < numMaxRings ==> sumForces[r] == seq(numParticles, _ => (0.0, 0.0))
    {
      this.updateType := updateType;
      this.length := length;
      this.height := height;
      this.diameter := diameter;
      this.maxDist := maxDist;
      this.adhForce := adhForce;
      this.repForce := repForce;
      this.springK := springK;
      this.springR := springR;
      this.numParticles := numParticles;
      this.invNumAffected := invNumAffected;
      this.invSpringK := invSpringK;
      sumForces := seq(numMaxRings, _ => seq(numParticles, _ => (0.0, 0.0)));
    }

    /**
     * `calc_excluded_vol_force`: the pair beyond `maxDist` contributes nothing;
     * otherwise the force on vertex p is added to its entry, and with the
     * third law the exact negation goes to the other vertex, which keeps the
     * total force.  `dist` is the length of the wrapped difference p - other.
     */
    method ExcludedVolForce(pos: seq<seq<Point>>, ringId: int, otherRingId: int, pId: int, otherId: int,
                            dist: real, useThirdLaw: bool)
      requires 0 <= ringId < |pos| && 0 <= pId < |pos[ringId]| && 0 <= otherRingId < |pos| && 0 <= otherId < |pos[otherRingId]|
      requires ringId < |sumForces| && pId < |sumForces[ringId]| && otherRingId < |sumForces| && otherId < |sumForces[otherRingId]|
      requires dist > 0.0
      requires dist * dist == SqNorm(PeriodicDiff(Sub(pos[ringId][pId], pos[otherRingId][otherId]), length, height, updateType))
      modifies this
      ensures dist > maxDist ==> sumForces == old(sumForces)
      ensures dist <= maxDist ==>
                var f := ExcludedVolVec(PeriodicDiff(Sub(pos[ringId][pId], pos[otherRingId][otherId]), length, height, updateType),
                                        dist, diameter, maxDist, adhForce, repForce);
                sumForces == if useThirdLaw then AddAt(AddAt(old(sumForces), ringId, pId, f), otherRingId, otherId, Neg(f))
                             else AddAt(old(sumForces), ringId, pId, f)
      ensures useThirdLaw ==> Total(sumForces) == Total(old(sumForces))
    {
      var d := PeriodicDiff(Sub(pos[ringId][pId], pos[otherRingId][otherId]), length, height, updateType);
      if dist > maxDist {
        return;
      }
      var forceR: real;
      if dist > diameter {
        forceR := adhForce * (diameter - dist) / (maxDist - diameter);
      } else {
        forceR := repForce * (diameter - dist) / diameter;
      }
      assert forceR == ExcludedVolScalar(dist, diameter, maxDist, adhForce, repForce);
      var f := Scale(forceR / dist, d);
      ghost var m0 := sumForces;
      sumForces := AddAt(sumForces, ringId, pId, f);
      if useThirdLaw {
        sumForces := AddAt(sumForces, otherRingId, otherId, Neg(f));
        PairKeepsTotal(m0, ringId, pId, otherRingId, otherId, f);
      }
    }

    /** The spring constant of spring `springId` of ring `ringId`. */
    function SpringConstant(ringId: int, springId: int): real
      requires updateType == Invagination && ringId < invNumAffected ==> 0 <= springId < |invSpringK|
    {
      if updateType == Invagination && ringId < invNumAffected then invSpringK[springId] else springK
    }

    /** The vertex a spring ends on: the next one, wrapping from the last to the first. */
    static function SpringEnd(springId: int, numParticles: int): (e: int)
      requires 0 <= springId < numParticles
      ensures 0 <= e < numParticles && (e == 0 <==> springId == numParticles - 1)
    {
      if springId == numParticles - 1 then 0 else springId + 1
    }

    /** The spring force on the first vertex: along the wrapped difference, proportional to the extension. */
    function SpringVec(d: Point, dist: real, k: real): Point
      requires dist > 0.0
    {
      Scale(k * (dist - springR) / dist, d)
    }

    /**
     * `calc_spring_force2`: the spring from vertex `springId` to the next one
     * (the first after the last) adds its force to the first vertex and
     * subtracts it from the second, so the total force is kept.  `dist` is
     * the length of the wrapped difference second - first.
     */
    method SpringForce2(pos: seq<seq<Point>>, ringId: int, springId: int, dist: real)
      requires 0 <= springId < numParticles
      requires 0 <= ringId < |pos| && numParticles <= |pos[ringId]| && ringId < |sumForces| && numParticles <= |sumForces[ringId]|
      requires updateType == Invagination && ringId < invNumAffected ==> springId < |invSpringK|
      requires dist > 0.0
      requires dist * dist == SqNorm(PeriodicDiff(Sub(pos[ringId][SpringEnd(springId, numParticles)], pos[ringId][springId]),
                                                  length, height, updateType))
      modifies this
      ensures var second := SpringEnd(springId, numParticles);
              var f := SpringVec(PeriodicDiff(Sub(pos[ringId][second], pos[ringId][springId]), length, height, updateType),
                                 dist, SpringConstant(ringId, springId));
              sumForces == AddAt(AddAt(old(sumForces), ringId, springId, f), ringId, second, Neg(f))
      ensures Total(sumForces) == Total(old(sumForces))
    {
      var firstId := springId;
      var secondId := if springId == numParticles - 1 then 0 else springId + 1;
      var d := PeriodicDiff(Sub(pos[ringId][secondId], pos[ringId][firstId]), length, height, updateType);
      var currentSpringK := springK;
      if updateType == Invagination {
        if ringId < invNumAffected {
          currentSpringK := invSpringK[springId];
        }
      }
      assert secondId == SpringEnd(springId, numParticles) && currentSpringK == SpringConstant(ringId, springId);
      var f := SpringVec(d, dist, currentSpringK);
      ghost var m0 := sumForces;
      sumForces := AddAt(sumForces, ringId, firstId, f);
      sumForces := AddAt(sumForces, ringId, secondId, Neg(f));
      PairKeepsTotal(m0, ringId, firstId, ringId, secondId, f);

    }

    /**
     * A stretched spring with a positive constant pulls its first vertex
     * towards the second; a compressed one pushes it away.
     */
    lemma SpringRestoring(d: Point, dist: real, k: real)
      requires dist > 0.0 && k > 0.0
      ensures dist > springR ==> exists c :: c > 0.0 && SpringVec(d, dist, k) == Scale(c, d)
      ensures dist < springR ==> exists c :: c < 0.0 && SpringVec(d, dist, k) == Scale(c, d)
    {
      var c := k * (dist - springR) / dist;
      MulNonPositive(k, dist - springR);
      DivByPositive(k * (dist - springR), dist, 0.0);
      assert SpringVec(d, dist, k) == Scale(c, d);

    }
  }

  /** The open chain sum of `cross_prod(p_i, p_i+1)` over consecutive points. */
  function ChainCross(points: seq<Point>): real
  {
    if |points| <= 1 then 0.0
    else ChainCross(points[..|points| - 1]) + Cross(points[|points| - 2], points[|points| - 1])
  }

  /** The shoelace area: half the cyclic sum of cross products (positive for a counter-clockwise polygon). */
  function ShoelaceArea(points: seq<Point>): real
    requires |points| > 0
  {
    (ChainCross(points) + Cross(points[|points| - 1], points[0])) / 2.0
  }

  /** `calc_area`: the chain of cross products, the closing edge, halved. */
  method CalcArea(points: seq<Point>) returns (area: real)
    requires |points| > 0
    ensures area == ShoelaceArea(points)
  {
    area := 0.0;
    var i := 0;
    while i < |points| - 1
      invariant 0 <= i <= |points| - 1
      invariant area == ChainCross(points[..i + 1])
    {
      assert points[..i + 2][..i + 1] == points[..i + 1];
      area := area + Cross(points[i], points[i + 1]);
      i := i + 1;
    }
    assert points[..|points|] == points;
    var last := |points| - 1;
    area := area + Cross(points[last], points[0]);
    area := area / 2.0;
  }

  function Translate(points: seq<Point>, t: Point): (r: seq<Point>)
    ensures |r| == |points| && forall k :: 0 <= k < |points| ==> r[k] == Add(points[k], t)
  {
    seq(|points|, k requires 0 <= k < |points| => Add(points[k], t))
  }

  lemma CrossTranslate(p: Point, q: Point, t: Point)
    ensures Cross(Add(p, t), Add(q, t)) == Cross(p, q) + Cross(t, q) - Cross(t, p)
  {
  }

  /** Translating the chain changes its cross sum by a telescoping term. */
  lemma {:induction false} ChainCrossTranslate(points: seq<Point>, t: Point)
    requires |points| > 0
    ensures ChainCross(Translate(points, t)) == ChainCross(points) + Cross(t, points[|points| - 1]) - Cross(t, points[0])
  {
    var n := |points|;
    if n > 1 {
      assert Translate(points, t)[..n - 1] == Translate(points[..n - 1], t);
      ChainCrossTranslate(points[..n - 1], t);
      CrossTranslate(points[n - 2], points[n - 1], t);
    }
  }

  /** The shoelace area does not depend on where the polygon sits. */
  lemma ShoelaceTranslation(points: seq<Point>, t: Point)
    requires |points| > 0
    ensures ShoelaceArea(Translate(points, t)) == ShoelaceArea(points)
  {
    ChainCrossTranslate(points, t);
    CrossTranslate(points[|points| - 1], points[0], t);
  }

  /**
   * `calc_differences` without the perimeter: entry i is the wrapped
   * difference from vertex i to the next one, the last to the first.
   */
  method CalcDifferences(ring: seq<Point>, length: real, height: real, updateType: UpdateType) returns (diffs: seq<Point>)
    requires |ring| > 0
    ensures |diffs| == |ring|
    ensures forall i :: 0 <= i < |ring| - 1 ==> diffs[i] == PeriodicDiff(Sub(ring[i + 1], ring[i]), length, height, updateType)
    ensures diffs[|ring| - 1] == PeriodicDiff(Sub(ring[0], ring[|ring| - 1]), length, height, updateType)
  {
    var n := |ring|;
    diffs := seq(n, _ => (0.0, 0.0));
    var i := 0;
    while i < n - 1
      invariant 0 <= i <= n - 1 && |diffs| == n
      invariant forall k :: 0 <= k < i ==> diffs[k] == PeriodicDiff(Sub(ring[k + 1], ring[k]), length, height, updateType)
    {
      diffs := diffs[i := PeriodicDiff(Sub(ring[i + 1], ring[i]), length, height, updateType)];
      i := i + 1;
    }
    diffs := diffs[n - 1 := PeriodicDiff(Sub(ring[0], ring[n - 1]), length, height, updateType)];
  }

  /** Periods in x (resp. y) the wrapped steps of the ring have dropped up to vertex i. */
  function ShiftsX(ring: seq<Point>, i: int, length: real, updateType: UpdateType): int
    requires 0 <= i < |ring|
  {
    if i == 0 || updateType == Stokes then 0
    else ShiftsX(ring, i - 1, length, updateType) + WrapShift(ring[i].0 - ring[i - 1].0, length)
  }

  function ShiftsY(ring: seq<Point>, i: int, height: real, updateType: UpdateType): int
    requires 0 <= i < |ring|
  {
    if i == 0 || updateType == Stokes then 0
    else ShiftsY(ring, i - 1, height, updateType) + WrapShift(ring[i].1 - ring[i - 1].1, height)
  }

  /** The displacement the wrapped steps have dropped up to vertex i: raw minus wrapped differences. */
  function Offset(ring: seq<Point>, i: int, length: real, height: real, updateType: UpdateType): Point
    requires 0 <= i < |ring|
  {
    if i == 0 then (0.0, 0.0)
    else
      var raw := Sub(ring[i], ring[i - 1]);
      Add(Offset(ring, i - 1, length, height, updateType), Sub(raw, PeriodicDiff(raw, length, height, updateType)))
  }

  /** n periods of the given size, as repeated addition. */
  function Periods(n: int, size: real): real
    decreases if n < 0 then -n else n
  {
    if n == 0 then 0.0 else if n > 0 then Periods(n - 1, size) + size else Periods(n + 1, size) - size
  }

  lemma PeriodsStep(n: int, w: int, size: real)
    requires -1 <= w <= 1
    ensures Periods(n + w, size) == Periods(n, size) + Periods(w, size)
  {
    assert Periods(1, size) == size && Periods(-1, size) == -size;
  }

  /** `Periods` is multiplication. */
  lemma {:induction false} PeriodsIsProduct(n: int, size: real)
    ensures Periods(n, size) == n as real * size
    decreases if n < 0 then -n else n
  {
    if n > 0 {
      PeriodsIsProduct(n - 1, size);
    } else if n < 0 {
      PeriodsIsProduct(n + 1, size);
    }
  }

  /** That displacement is a whole number of periods on each axis. */
  lemma OffsetIsPeriods(ring: seq<Point>, i: int, length: real, height: real, updateType: UpdateType)
    requires 0 <= i < |ring| && length > 0.0 && height > 0.0
    ensures Offset(ring, i, length, height, updateType) ==
            (Periods(ShiftsX(ring, i, length, updateType), length), Periods(ShiftsY(ring, i, height, updateType), height))
  {
    OffsetIsPeriodsX(ring, i, length, height, updateType);
    OffsetIsPeriodsY(ring, i, length, height, updateType);
  }

  lemma {:induction false} OffsetIsPeriodsX(ring: seq<Point>, i: int, length: real, height: real, updateType: UpdateType)
    requires 0 <= i < |ring| && length > 0.0
    ensures Offset(ring, i, length, height, updateType).0 == Periods(ShiftsX(ring, i, length, updateType), length)
  {
    if i > 0 {
      OffsetIsPeriodsX(ring, i - 1, length, height, updateType);
      if updateType != Stokes {
        var x := ring[i].0 - ring[i - 1].0;
        PeriodsStep(ShiftsX(ring, i - 1, length, updateType), WrapShift(x, length), length);
      }
    }
  }

  lemma {:induction false} OffsetIsPeriodsY(ring: seq<Point>, i: int, length: real, height: real, updateType: UpdateType)
    requires 0 <= i < |ring| && height > 0.0
    ensures Offset(ring, i, length, height, updateType).1 == Periods(ShiftsY(ring, i, height, updateType), height)
  {
    if i > 0 {
      OffsetIsPeriodsY(ring, i - 1, length, height, updateType);
      if updateType != Stokes {
        var y := ring[i].1 - ring[i - 1].1;
        PeriodsStep(ShiftsY(ring, i - 1, height, updateType), WrapShift(y, height), height);
      }
    }
  }

  /**
   * `calc_continuos_pos`: the ring redrawn without jumps across the border.
   * It starts at the stored first vertex and advances by the wrapped
   * differences, so each consecutive step is the short one; every vertex is
   * its stored position moved by whole periods, and in the stokes regime
   * (no periodic border) it is the stored position itself.
   */
  method CalcContinuousPos(ring: seq<Point>, length: real, height: real, updateType: UpdateType) returns (cont: seq<Point>)
    requires |ring| > 0 && length > 0.0 && height > 0.0
    ensures |cont| == |ring| && cont[0] == ring[0]
    ensures forall i :: 0 <= i < |ring| - 1 ==>
              Sub(cont[i + 1], cont[i]) == PeriodicDiff(Sub(ring[i + 1], ring[i]), length, height, updateType)
    ensures forall i :: 0 <= i < |ring| ==> cont[i] == Sub(ring[i], Offset(ring, i, length, height, updateType))
  {
    var diffs := CalcDifferences(ring, length, height, updateType);
    var n := |ring|;
    cont := seq(n, _ => (0.0, 0.0));
    cont := cont[0 := ring[0]];
    var i := 0;
    while i < n - 1
      invariant 0 <= i <= n - 1 && |cont| == n && cont[0] == ring[0]
      invariant forall k :: 0 <= k < i ==> Sub(cont[k + 1], cont[k]) == diffs[k]
    {
      cont := cont[i + 1 := (cont[i].0 + diffs[i].0, cont[i].1 + diffs[i].1)];
      i := i + 1;
    }
    forall k | 0 <= k < n ensures cont[k] == Sub(ring[k], Offset(ring, k, length, height, updateType)) {
      ChainLattice(ring, cont, length, height, updateType, k);
    }
  }

  /** A chain built from the wrapped differences is the stored ring shifted back by the dropped offsets. */
  lemma {:induction false} ChainLattice(ring: seq<Point>, cont: seq<Point>, length: real, height: real,
                                        updateType: UpdateType, i: int)
    requires |cont| == |ring| > 0 && cont[0] == ring[0]
    requires 0 <= i < |ring|
    requires forall k :: 0 <= k < |ring| - 1 ==>
               Sub(cont[k + 1], cont[k]) == PeriodicDiff(Sub(ring[k + 1], ring[k]), length, height, updateType)
    ensures cont[i] == Sub(ring[i], Offset(ring, i, length, height, updateType))
  {
    if i > 0 {
      ChainLattice(ring, cont, length, height, updateType, i - 1);
      var k := i - 1;
      assert Sub(cont[k + 1], cont[k]) == PeriodicDiff(Sub(ring[k + 1], ring[k]), length, height, updateType);
    }
  }

  /** In the stokes regime there is no border to cross: nothing is dropped and the chain is the stored ring. */
  lemma {:induction false} StokesChainIsRing(ring: seq<Point>, length: real, height: real, i: int)
    requires 0 <= i < |ring|
    ensures Offset(ring, i, length, height, Stokes) == (0.0, 0.0)
  {
    if i > 0 {
      StokesChainIsRing(ring, length, height, i - 1);
    }
  }

  /**
   * `stokes_resolve_collisions`, the wall part: a vertex above the top wall
   * loses an upward velocity, one below the bottom wall a downward one, and
   * one left of the inlet a leftward one.
   */
  function StokesResolveCollisions(p: Point, v: Point, height: real, length: real): (w: Point)
  {
    var vy := if p.1 > height / 2.0 then (if v.1 > 0.0 then 0.0 else v.1)
              else if p.1 < -height / 2.0 then (if v.1 < 0.0 then 0.0 else v.1)
              else v.1;
    var vx := if p.0 < -length / 2.0 && v.0 < 0.0 then 0.0 else v.0;
    (vx, vy)
  }

  /**
   * After the clamp no vertex outside a wall moves further out; each
   * component is either kept or zeroed; and clamping twice is clamping once.
   */
  lemma StokesClampSpec(p: Point, v: Point, height: real, length: real)
    ensures var w := StokesResolveCollisions(p, v, height, length);
            (p.1 > height / 2.0 ==> w.1 <= 0.0) &&
            (p.1 < -height / 2.0 && !(p.1 > height / 2.0) ==> w.1 >= 0.0) &&
            (p.0 < -length / 2.0 ==> w.0 >= 0.0) &&
            (w.0 == v.0 || w.0 == 0.0) && (w.1 == v.1 || w.1 == 0.0) &&
            (-height / 2.0 <= p.1 <= height / 2.0 && -length / 2.0 <= p.0 ==> w == v) &&
            StokesResolveCollisions(p, w, height, length) == w
  {
  }
}
