/**
 * The particle solver `SelfPropelling` (the older, square-space engine): the
 * pair force `calc_force` with its cut-off and its superposition fallback,
 * the all-pairs traversal of `update_normal`, the per-particle advance with
 * the snap wrap at the border and the reset of the force buffer, and the
 * polarisation `mean_vel`.  Positions are reals; the square root is a
 * parameter `root`, and the new headings (the cosine and sine of the turned
 * angles) are an input of the advance.
 */
module SelfPropelling {
  import opened Numeric
  import opened RingForces
  import opened Grid
  import InPol
  import ScanCover
  import Windows
  import WindowsLib

  /** `SelfPropellingCfg`. */
  datatype Cfg = Cfg(mobility: real, relaxationTime: real, vo: real, nabla: real,
                     maxRepulsiveForce: real, maxAttractiveForce: real, rEq: real, maxR: real)
  {
    /** The constants the force law divides by are non-zero. */
    predicate Valid() { rEq != 0.0 && maxR != rEq }
  }

  /** Below this distance two particles count as superposed. */
  const SuperpositionDist: real := 0.000001

  /** The force scalar along the separation: repulsive below `r_eq`, attractive above. */
  function ForceScalar(cfg: Cfg, dist: real): real
    requires cfg.Valid()
  {
    if dist < cfg.rEq then cfg.maxRepulsiveForce * (dist - cfg.rEq) / cfg.rEq
    else cfg.maxAttractiveForce * (dist - cfg.rEq) / (cfg.maxR - cfg.rEq)
  }

  /**
   * With non-negative constants and 0 < r_eq < max_r the scalar pushes apart
   * below r_eq and pulls together from r_eq on.
   */
  lemma ForceScalarSign(cfg: Cfg, dist: real)
    requires 0.0 < cfg.rEq < cfg.maxR && cfg.maxRepulsiveForce >= 0.0 && cfg.maxAttractiveForce >= 0.0
    ensures dist < cfg.rEq ==> ForceScalar(cfg, dist) <= 0.0
    ensures cfg.rEq <= dist ==> ForceScalar(cfg, dist) >= 0.0
  {
    if dist < cfg.rEq {
      MulNonPositive(cfg.maxRepulsiveForce, dist - cfg.rEq);
      DivByPositive(cfg.maxRepulsiveForce * (dist - cfg.rEq), cfg.rEq, 0.0);
    } else {
      MulNonPositive(cfg.maxAttractiveForce, dist - cfg.rEq);
      DivByPositive(cfg.maxAttractiveForce * (dist - cfg.rEq), cfg.maxR - cfg.rEq, 0.0);
    }
  }

  /**
   * The scalar is the full repulsion at distance 0, zero at r_eq and the full
   * attraction at max_r.
   */
  lemma ForceScalarValues(cfg: Cfg)
    requires 0.0 < cfg.rEq < cfg.maxR
    ensures ForceScalar(cfg, 0.0) == -cfg.maxRepulsiveForce
    ensures ForceScalar(cfg, cfg.rEq) == 0.0
    ensures ForceScalar(cfg, cfg.maxR) == cfg.maxAttractiveForce
  {
    var a, r, w := cfg.maxRepulsiveForce, cfg.rEq, cfg.maxR - cfg.rEq;
    calc {
      ForceScalar(cfg, 0.0);
      a * (0.0 - r) / r;
      { assert a * (0.0 - r) == (-a) * r; }
      (-a) * r / r;
      { CancelDiv(-a, r); }
      -a;
    }
    calc {
      ForceScalar(cfg, cfg.maxR);
      cfg.maxAttractiveForce * w / w;
      { CancelDiv(cfg.maxAttractiveForce, w); }
      cfg.maxAttractiveForce;
    }
  }

  lemma CancelDiv(a: real, b: real)
    requires b != 0.0
    ensures a * b / b == a
  {
  }

  /** The separation other - p, each coordinate wrapped into the square of side `size`. */
  function Separation(pos: seq<Point>, p: int, other: int, size: real): Point
    requires 0 <= p < |pos| && 0 <= other < |pos|
  {
    (Wrap(pos[other].0 - pos[p].0, size), Wrap(pos[other].1 - pos[p].1, size))
  }

  /** The force buffer with f added to entry k. */
  function Push(forces: seq<Point>, k: int, f: Point): (r: seq<Point>)
    requires 0 <= k < |forces|
    ensures |r| == |forces|
  {
    forces[k := Add(forces[k], f)]
  }

  /** The vector of length |s| along d (of length dist), pointing with d for s > 0. */
  function Along(d: Point, dist: real, s: real): Point
    requires dist != 0.0
  {
    (d.0 / dist * s, d.1 / dist * s)
  }

  /** The force buffer `sum_forces_matrix` and the counter `superposition_count`. */
  datatype Accum = Accum(forces: seq<Point>, superpositions: int)

  /**
   * What `calc_force(p, other)` does to the buffer and the counter, the
   * wrapped separation having length `dist`.
   */
  function PairStep(cfg: Cfg, size: real, pos: seq<Point>, acc: Accum, p: int, other: int, dist: real): (r: Accum)
    requires cfg.Valid() && 0 <= p < |pos| && 0 <= other < |pos| && |acc.forces| == |pos|
    ensures |r.forces| == |pos|
  {
    if dist > cfg.maxR then acc
    else if dist < SuperpositionDist then
      Accum(Push(Push(acc.forces, p, (cfg.maxRepulsiveForce, 0.0)), other, (-cfg.maxRepulsiveForce, 0.0)),
            acc.superpositions + 1)
    else
      var d := Separation(pos, p, other, size);
      var f := Along(d, dist, ForceScalar(cfg, dist));
      Accum(Push(Push(acc.forces, p, f), other, Neg(f)), acc.superpositions)
  }

  /** Adding f to one entry and -f to any entry leaves the total force. */
  lemma PushPairTotal(forces: seq<Point>, p: int, other: int, f: Point)
    requires 0 <= p < |forces| && 0 <= other < |forces|
    ensures SumPoints(Push(Push(forces, p, f), other, Neg(f))) == SumPoints(forces)
  {
    SumPointsUpdate(forces, p, f);
    SumPointsUpdate(Push(forces, p, f), other, Neg(f));
    AddNeg(SumPoints(forces), f);
  }

  /**
   * A pair call leaves everything unchanged beyond `max_r`; below the
   * superposition distance it counts one superposition and pushes the two
   * particles apart along x by the full repulsion; in every case the total
   * force over all particles is what it was (third law).
   */
  lemma PairStepSpec(cfg: Cfg, size: real, pos: seq<Point>, acc: Accum, p: int, other: int, dist: real)
    requires cfg.Valid() && 0 <= p < |pos| && 0 <= other < |pos| && |acc.forces| == |pos|
    ensures var r := PairStep(cfg, size, pos, acc, p, other, dist);
            SumPoints(r.forces) == SumPoints(acc.forces) &&
            (dist > cfg.maxR ==> r == acc) &&
            r.superpositions == acc.superpositions + (if dist <= cfg.maxR && dist < SuperpositionDist then 1 else 0) &&
            (dist <= cfg.maxR && dist < SuperpositionDist && p != other ==>
               r.forces[p] == Add(acc.forces[p], (cfg.maxRepulsiveForce, 0.0)) &&
               r.forces[other] == Add(acc.forces[other], (-cfg.maxRepulsiveForce, 0.0))) &&
            (forall k :: 0 <= k < |pos| && k != p && k != other ==> r.forces[k] == acc.forces[k])
  {
    if dist > cfg.maxR {
    } else if dist < SuperpositionDist {
      assert Neg((cfg.maxRepulsiveForce, 0.0)) == (-cfg.maxRepulsiveForce, 0.0);
      PushPairTotal(acc.forces, p, other, (cfg.maxRepulsiveForce, 0.0));
    } else {
      var d := Separation(pos, p, other, size);
      PushPairTotal(acc.forces, p, other, Along(d, dist, ForceScalar(cfg, dist)));
    }
  }

  // ---------------------------------------------------------------------
  // The all-pairs traversal of `update_normal`
  // ---------------------------------------------------------------------

  type Pair = (int, int)

  /** The pairs (i, k) for i < k < j, in increasing k. */
  function RowPairs(i: int, j: int): (r: seq<Pair>)
    ensures |r| == if j <= i + 1 then 0 else j - i - 1
    ensures forall k :: 0 <= k < |r| ==> r[k] == (i, i + 1 + k)
    decreases j - i
  {
    if j <= i + 1 then [] else RowPairs(i, j - 1) + [(i, j - 1)]
  }

  /** The pairs the outer loop has visited after i rounds: rows 0 .. i-1 of n. */
  function PairsBelow(i: nat, n: int): (r: seq<Pair>)
    ensures PairsUpper(r, i, n)
  {
    if i == 0 then [] else PairsBelow(i - 1, n) + RowPairs(i - 1, n)
  }

  /** Every pair (a, b) listed has a < i and a < b < n. */
  predicate PairsUpper(ps: seq<Pair>, i: int, n: int)
  {
    forall k :: 0 <= k < |ps| ==> 0 <= ps[k].0 < i && ps[k].0 < ps[k].1 < n
  }

  /** Every pair the double loop over i < j < n visits, in visiting order. */
  function AllPairs(n: nat): seq<Pair>
  {
    PairsBelow(n, n)
  }

  predicate LexLess(a: Pair, b: Pair)
  {
    a.0 < b.0 || (a.0 == b.0 && a.1 < b.1)
  }

  /** Every (a, b) with a < i and a < b < n has been visited after i rounds. */
  lemma {:induction false} PairsBelowHas(i: nat, n: int, a: int, b: int)
    requires 0 <= a < i && a < b < n
    ensures (a, b) in PairsBelow(i, n)
  {
    if a < i - 1 {
      PairsBelowHas(i - 1, n, a, b);
    } else {
      assert RowPairs(i - 1, n)[b - i] == (a, b);
    }
  }

  /** The visits of the first i rounds come in strictly increasing lexicographic order. */
  lemma {:induction false} PairsBelowOrdered(i: nat, n: int)
    ensures forall k, l :: 0 <= k < l < |PairsBelow(i, n)| ==> LexLess(PairsBelow(i, n)[k], PairsBelow(i, n)[l])
  {
    if i > 0 {
      PairsBelowOrdered(i - 1, n);
      var prev, row := PairsBelow(i - 1, n), RowPairs(i - 1, n);
      var ps := PairsBelow(i, n);
      assert ps == prev + row;
      forall k, l | 0 <= k < l < |ps|
        ensures LexLess(ps[k], ps[l])
      {
        if l < |prev| {
          assert LexLess(prev[k], prev[l]);
        } else if k < |prev| {
          assert ps[k] == prev[k] && ps[l] == row[l - |prev|];
        } else {
          assert ps[k] == row[k - |prev|] && ps[l] == row[l - |prev|];
        }
      }
    }
  }

  /**
   * `update_normal` calls `calc_force` once for every unordered pair: its
   * visits are exactly the pairs i < j < n, each once.
   */
  lemma AllPairsExactlyOnce(n: nat)
    ensures forall a, b :: (a, b) in AllPairs(n) <==> 0 <= a < b < n
    ensures forall k, l :: 0 <= k < l < |AllPairs(n)| ==> AllPairs(n)[k] != AllPairs(n)[l]
  {
    PairsBelowOrdered(n, n);
    var ps := AllPairs(n);
    forall a, b | 0 <= a < b < n
      ensures (a, b) in ps
    {
      PairsBelowHas(n, n, a, b);
    }
    forall k, l | 0 <= k < l < |ps|
      ensures ps[k] != ps[l]
    {
      assert LexLess(ps[k], ps[l]);
    }
  }

  predicate PairsIn(ps: seq<Pair>, n: int)
  {
    forall k :: 0 <= k < |ps| ==> 0 <= ps[k].0 < n && 0 <= ps[k].1 < n
  }

  /** The distance `calc_force` measures between p and other. */
  function Dist(pos: seq<Point>, p: int, other: int, size: real, root: real -> real): real
    requires 0 <= p < |pos| && 0 <= other < |pos|
  {
    root(SqNorm(Separation(pos, p, other, size)))
  }

  /** The pair calls ps made in order from acc. */
  function ApplyPairs(cfg: Cfg, size: real, pos: seq<Point>, acc: Accum, ps: seq<Pair>, root: real -> real): (r: Accum)
    requires cfg.Valid() && |acc.forces| == |pos| && PairsIn(ps, |pos|)
    ensures |r.forces| == |pos|
  {
    if ps == [] then acc
    else
      var last := ps[|ps| - 1];
      var prev := ApplyPairs(cfg, size, pos, acc, ps[..|ps| - 1], root);
      PairStep(cfg, size, pos, prev, last.0, last.1, Dist(pos, last.0, last.1, size, root))
  }

  /** No sequence of pair calls changes the total force, and each superposition counts once. */
  lemma {:induction false} ApplyPairsTotal(cfg: Cfg, size: real, pos: seq<Point>, acc: Accum, ps: seq<Pair>, root: real -> real)
    requires cfg.Valid() && |acc.forces| == |pos| && PairsIn(ps, |pos|)
    ensures SumPoints(ApplyPairs(cfg, size, pos, acc, ps, root).forces) == SumPoints(acc.forces)
    ensures ApplyPairs(cfg, size, pos, acc, ps, root).superpositions >= acc.superpositions
  {
    if ps != [] {
      var last := ps[|ps| - 1];
      var prev := ApplyPairs(cfg, size, pos, acc, ps[..|ps| - 1], root);
      ApplyPairsTotal(cfg, size, pos, acc, ps[..|ps| - 1], root);
      PairStepSpec(cfg, size, pos, prev, last.0, last.1, Dist(pos, last.0, last.1, size, root));
    }
  }

  // ---------------------------------------------------------------------
  // The per-particle advance
  // ---------------------------------------------------------------------

  /** One coordinate after the snap wrap: past one border it jumps to the other. */
  function SnapWrap(x: real, size: real): real
  {
    if x > size / 2.0 then -size / 2.0
    else if x < -size / 2.0 then size / 2.0
    else x
  }

  function SnapWrapPoint(p: Point, size: real): Point
  {
    (SnapWrap(p.0, size), SnapWrap(p.1, size))
  }

  /**
   * The snap wrap leaves a coordinate inside the square as it is and puts
   * every coordinate into [-size/2, size/2].
   */
  lemma SnapWrapSpec(x: real, size: real)
    requires size >= 0.0
    ensures -size / 2.0 <= SnapWrap(x, size) <= size / 2.0
    ensures -size / 2.0 <= x <= size / 2.0 ==> SnapWrap(x, size) == x
    ensures x > size / 2.0 ==> SnapWrap(x, size) == -size / 2.0
    ensures x < -size / 2.0 ==> SnapWrap(x, size) == size / 2.0
  {
  }

  /** The new velocity: self-propulsion along the old heading plus mobility times the force. */
  function NewVel(cfg: Cfg, heading: Point, force: Point): Point
  {
    Add(Scale(cfg.vo, heading), Scale(cfg.mobility, force))
  }

  predicate AllZero(s: seq<Point>)
  {
    forall k :: 0 <= k < |s| ==> s[k] == (0.0, 0.0)
  }

  lemma {:induction false} SumPointsZero(s: seq<Point>)
    requires AllZero(s)
    ensures SumPoints(s) == (0.0, 0.0)
  {
    if s != [] {
      SumPointsZero(s[..|s| - 1]);
    }
  }

  // ---------------------------------------------------------------------
  // The polarisation `mean_vel`
  // ---------------------------------------------------------------------

  /** The sum of the unit velocities, zero-speed particles skipped. */
  function SumUnit(vel: seq<Point>, root: real -> real): Point
  {
    if vel == [] then (0.0, 0.0)
    else
      var v := vel[|vel| - 1];
      var speed := root(SqNorm(v));
      var prev := SumUnit(vel[..|vel| - 1], root);
      if speed == 0.0 then prev else Add(prev, (v.0 / speed, v.1 / speed))
  }

  /** A particle at rest adds nothing to the polarisation sum. */
  lemma SumUnitAtRest(vel: seq<Point>, root: real -> real)
    requires root(0.0) == 0.0
    ensures SumUnit(vel + [(0.0, 0.0)], root) == SumUnit(vel, root)
  {
    assert (vel + [(0.0, 0.0)])[..|vel|] == vel;
  }

  /** A system entirely at rest has polarisation sum zero, whatever its size. */
  lemma {:induction false} SumUnitAllAtRest(vel: seq<Point>, root: real -> real)
    requires root(0.0) == 0.0 && AllZero(vel)
    ensures SumUnit(vel, root) == (0.0, 0.0)
  {
    if vel != [] {
      SumUnitAllAtRest(vel[..|vel| - 1], root);
    }
  }

  // ---------------------------------------------------------------------
  // The grid traversal of `update_windows`
  // ---------------------------------------------------------------------

  /** The calls (x, y), y taken from ys in order. */
  function CallsTo(x: int, ys: seq<int>): seq<Pair>
  {
    if ys == [] then [] else CallsTo(x, ys[..|ys| - 1]) + [(x, ys[|ys| - 1])]
  }

  lemma CallsToSnoc(x: int, ys: seq<int>, y: int)
    ensures CallsTo(x, ys + [y]) == CallsTo(x, ys) + [(x, y)]
  {
    assert (ys + [y])[..|ys|] == ys;
  }

  /** Calls of particle x against the members of the first k neighbour cells. */
  ghost function StencilForces(windows: seq<seq<seq<int>>>, capacity: seq<seq<int>>, nr: int, nc: int,
                               x: int, nbs: seq<Cell>, k: int): seq<Pair>
    requires WellFormed(windows, capacity, nr, nc) && AllInGrid(nbs, nr, nc) && 0 <= k <= |nbs|
  {
    if k == 0 then []
    else
      StencilForces(windows, capacity, nr, nc, x, nbs, k - 1) +
      CallsTo(x, Occ(windows, capacity, nr, nc, nbs[k - 1].0, nbs[k - 1].1))
  }

  /**
   * Calls made for the first i members of cell c: each member against the
   * later members of its own cell, then against the members of each
   * neighbour cell.
   */
  ghost function MemberForces(windows: seq<seq<seq<int>>>, capacity: seq<seq<int>>, nr: int, nc: int,
                              c: Cell, nbs: seq<Cell>, i: int): seq<Pair>
    requires WellFormed(windows, capacity, nr, nc) && InGrid(c, nr, nc) && AllInGrid(nbs, nr, nc)
    requires 0 <= i <= capacity[c.0][c.1]
  {
    if i == 0 then []
    else
      var occ := Occ(windows, capacity, nr, nc, c.0, c.1);
      MemberForces(windows, capacity, nr, nc, c, nbs, i - 1) +
      CallsTo(occ[i - 1], occ[i..]) +
      StencilForces(windows, capacity, nr, nc, occ[i - 1], nbs, |nbs|)
  }

  /** Calls made for the first w cells of the visiting order. */
  ghost function ScanForces(windows: seq<seq<seq<int>>>, capacity: seq<seq<int>>, nr: int, nc: int,
                            cells: seq<Cell>, neigh: seq<seq<seq<Cell>>>, w: int): seq<Pair>
    requires WellFormed(windows, capacity, nr, nc) && AllInGrid(cells, nr, nc) && InPol.NeighShape(neigh, nr, nc)
    requires 0 <= w <= |cells|
  {
    if w == 0 then []
    else
      var c := cells[w - 1];
      ScanForces(windows, capacity, nr, nc, cells, neigh, w - 1) +
      MemberForces(windows, capacity, nr, nc, c, neigh[c.0][c.1], capacity[c.0][c.1])
  }

  function Swap(p: Pair): Pair { (p.1, p.0) }

  /** The two-way pairs of one member against a list are its one-way calls and their reverses. */
  lemma {:induction false} CallsToBoth(x: int, ys: seq<int>, p: Pair)
    ensures p in InPol.PairsWith(x, ys) <==> p in CallsTo(x, ys) || Swap(p) in CallsTo(x, ys)
  {
    if ys != [] {
      CallsToBoth(x, ys[..|ys| - 1], p);
    }
  }

  lemma {:induction false} StencilBoth(windows: seq<seq<seq<int>>>, capacity: seq<seq<int>>, nr: int, nc: int,
                                       x: int, nbs: seq<Cell>, k: int, p: Pair)
    requires WellFormed(windows, capacity, nr, nc) && AllInGrid(nbs, nr, nc) && 0 <= k <= |nbs|
    ensures p in InPol.StencilCalls(windows, capacity, nr, nc, x, nbs, k) <==>
            p in StencilForces(windows, capacity, nr, nc, x, nbs, k) ||
            Swap(p) in StencilForces(windows, capacity, nr, nc, x, nbs, k)
  {
    if k > 0 {
      StencilBoth(windows, capacity, nr, nc, x, nbs, k - 1, p);
      CallsToBoth(x, Occ(windows, capacity, nr, nc, nbs[k - 1].0, nbs[k - 1].1), p);
    }
  }

  lemma {:induction false} MemberBoth(windows: seq<seq<seq<int>>>, capacity: seq<seq<int>>, nr: int, nc: int,
                                      c: Cell, nbs: seq<Cell>, i: int, p: Pair)
    requires WellFormed(windows, capacity, nr, nc) && InGrid(c, nr, nc) && AllInGrid(nbs, nr, nc)
    requires 0 <= i <= capacity[c.0][c.1]
    ensures p in InPol.MemberCalls(windows, capacity, nr, nc, c, nbs, i) <==>
            p in MemberForces(windows, capacity, nr, nc, c, nbs, i) ||
            Swap(p) in MemberForces(windows, capacity, nr, nc, c, nbs, i)
  {
    if i > 0 {
      var occ := Occ(windows, capacity, nr, nc, c.0, c.1);
      MemberBoth(windows, capacity, nr, nc, c, nbs, i - 1, p);
      CallsToBoth(occ[i - 1], occ[i..], p);
      StencilBoth(windows, capacity, nr, nc, occ[i - 1], nbs, |nbs|, p);
    }
  }

  /**
   * The one-way calls of `update_windows` are, up to the order of each pair,
   * exactly the two-way calls of the invasion detector's scan over the same
   * grid.
   */
  lemma {:induction false} ScanBoth(windows: seq<seq<seq<int>>>, capacity: seq<seq<int>>, nr: int, nc: int,
                                    cells: seq<Cell>, neigh: seq<seq<seq<Cell>>>, w: int, p: Pair)
    requires WellFormed(windows, capacity, nr, nc) && AllInGrid(cells, nr, nc) && InPol.NeighShape(neigh, nr, nc)
    requires 0 <= w <= |cells|
    ensures p in InPol.ScanCalls(windows, capacity, nr, nc, cells, neigh, w) <==>
            p in ScanForces(windows, capacity, nr, nc, cells, neigh, w) ||
            Swap(p) in ScanForces(windows, capacity, nr, nc, cells, neigh, w)
  {
    if w > 0 {
      var c := cells[w - 1];
      assert InGrid(c, nr, nc);
      var nbs := neigh[c.0][c.1];
      assert AllInGrid(nbs, nr, nc);
      ScanBoth(windows, capacity, nr, nc, cells, neigh, w - 1, p);
      MemberBoth(windows, capacity, nr, nc, c, nbs, capacity[c.0][c.1], p);
      var calls0 := InPol.ScanCalls(windows, capacity, nr, nc, cells, neigh, w - 1);
      var forces0 := ScanForces(windows, capacity, nr, nc, cells, neigh, w - 1);
      var calls1 := InPol.MemberCalls(windows, capacity, nr, nc, c, nbs, capacity[c.0][c.1]);
      var forces1 := MemberForces(windows, capacity, nr, nc, c, nbs, capacity[c.0][c.1]);
      assert InPol.ScanCalls(windows, capacity, nr, nc, cells, neigh, w) == calls0 + calls1;
      assert ScanForces(windows, capacity, nr, nc, cells, neigh, w) == forces0 + forces1;
    }
  }

  /**
   * On a grid of at least 3 x 3 cells with the half-stencil layout, a force
   * is computed, in one order or the other, for exactly the pairs of
   * occupants of one cell (distinct slots) or of two touching cells.
   */
  lemma ScanForcesExactlyAdjacent(windows: seq<seq<seq<int>>>, capacity: seq<seq<int>>, nr: int, nc: int,
                                  cells: seq<Cell>, neigh: seq<seq<seq<Cell>>>, a: int, b: int)
    requires WellFormed(windows, capacity, nr, nc) && ScanCover.StencilLayout(cells, neigh, nr, nc)
    ensures var calls := ScanForces(windows, capacity, nr, nc, cells, neigh, |cells|);
            (a, b) in calls || (b, a) in calls <==>
            exists x, i, y, j :: ScanCover.Adjacent(windows, capacity, nr, nc, x, i, y, j) &&
                                 (a, b) == (windows[x.0][x.1][i], windows[y.0][y.1][j])
  {
    ScanBoth(windows, capacity, nr, nc, cells, neigh, |cells|, (a, b));
    ScanCover.ScanCallsExactlyAdjacent(windows, capacity, nr, nc, cells, neigh, (a, b));
  }

  /** The row-major order and the half stencils name cells of the grid. */
  lemma StencilGridShape(cells: seq<Cell>, neigh: seq<seq<seq<Cell>>>, nr: int, nc: int)
    requires nr > 0 && nc > 0 && cells == RowMajor(nr, nc)
    requires |neigh| == nr && forall i :: 0 <= i < nr ==> |neigh[i]| == nc
    requires forall i, j :: 0 <= i < nr && 0 <= j < nc ==> neigh[i][j] == Stencil(i, j, nr, nc)
    ensures AllInGrid(cells, nr, nc) && InPol.NeighShape(neigh, nr, nc)
  {
    RowMajorLength(nr, nc);
    forall k | 0 <= k < |cells|
      ensures InGrid(cells[k], nr, nc)
    {
      RowMajorAt(nr, nc, k);
    }
  }

  /** The members of a cell of a grid whose occupants are all below n. */
  lemma OccupantsOf(windows: seq<seq<seq<int>>>, capacity: seq<seq<int>>, nr: int, nc: int, n: int, c: Cell)
    requires WellFormed(windows, capacity, nr, nc) && InPol.OccupantsBelow(windows, capacity, nr, nc, n)
    requires InGrid(c, nr, nc)
    ensures forall j :: 0 <= j < capacity[c.0][c.1] ==> 0 <= windows[c.0][c.1][j] < n
  {
  }

  lemma ApplyPairsSnoc(cfg: Cfg, size: real, pos: seq<Point>, acc: Accum, ps: seq<Pair>, p: int, q: int,
                       root: real -> real)
    requires cfg.Valid() && |acc.forces| == |pos| && PairsIn(ps, |pos|) && 0 <= p < |pos| && 0 <= q < |pos|
    ensures PairsIn(ps + [(p, q)], |pos|)
    ensures ApplyPairs(cfg, size, pos, acc, ps + [(p, q)], root) ==
            PairStep(cfg, size, pos, ApplyPairs(cfg, size, pos, acc, ps, root), p, q, Dist(pos, p, q, size, root))
  {
    assert (ps + [(p, q)])[..|ps|] == ps;
  }

  /** Every coordinate lies in the closed square of side `size` centred on the origin. */
  ghost predicate Inside(pos: seq<Point>, size: real)
  {
    forall k :: 0 <= k < |pos| ==> InExtent(pos[k].0, 0.0, size) && InExtent(pos[k].1, 0.0, size)
  }

  /**
   * The particle solver's state: positions, velocities, headings, the force
   * buffer and the superposition counter.
   */
  class SelfPropelling {
    const cfg: Cfg
    const size: real
    const dt: real
    const n: int
    var pos: seq<Point>
    var vel: seq<Point>
    var propVel: seq<Point>
    var sumForces: seq<Point>
    var superpositionCount: int
    const windowsManager: WindowsLib.WindowsManager

    /** Every per-particle buffer has n entries and the force buffer is clear. */
    ghost predicate Valid()
      reads this
    {
      cfg.Valid() && size >= 0.0 && n == |pos| == |vel| == |propVel| == |sumForces| && AllZero(sumForces)
    }

    /**
     * The windows manager covers the solver's square with a square grid of
     * cells, visits them in row-major order with the half stencils, and is
     * sized for all n particles.
     */
    ghost predicate Linked()
      reads this, windowsManager
    {
      var wm := windowsManager;
      var nr, nc := wm.numRows, wm.numCols;
      wm.Valid() && wm.numPoints == n && wm.spaceSize == size && nr == nc &&
      wm.windowsIds == RowMajor(nr, nc) && AllInGrid(wm.windowsIds, nr, nc) &&
      InPol.NeighShape(wm.windowNeighbor, nr, nc) &&
      forall i, j :: 0 <= i < nr && 0 <= j < nc ==> wm.windowNeighbor[i][j] == Stencil(i, j, nr, nc)
    }

    /**
     * The constructor: positions and velocities are copied, the headings are
     * given (the cosine and sine of the random initial angles), the force
     * buffer is zero and a windows manager with numColWindows cells per side
     * is built over the positions.
     */
    constructor (pos0: seq<Point>, vel0: seq<Point>, cfg: Cfg, size: real, dt: real, numColWindows: int,
                 headings: seq<Point>)
      requires cfg.Valid() && size > 0.0 && numColWindows > 0 && |vel0| == |pos0| && |headings| == |pos0|
      ensures Valid() && Linked()
      ensures windowsManager.numCols == numColWindows
      ensures this.cfg == cfg && this.size == size && this.dt == dt && n == |pos0|
      ensures pos == pos0 && vel == vel0 && propVel == headings && superpositionCount == 0
    {
      var wm := new WindowsLib.WindowsManager(pos0, numColWindows, numColWindows, size);
      StencilGridShape(wm.windowsIds, wm.windowNeighbor, numColWindows, numColWindows);
      windowsManager := wm;
      this.cfg := cfg;
      this.size := size;
      this.dt := dt;
      n := |pos0|;
      pos := pos0;
      vel := vel0;
      propVel := headings;
      sumForces := seq(|pos0|, _ => (0.0, 0.0));
      superpositionCount := 0;
    }

    /**
     * `calc_force(p, other)`: the pair call on the buffer and the counter,
     * with the square root supplied as `root`.
     */
    method CalcForce(p: int, other: int, root: real -> real)
      requires cfg.Valid() && 0 <= p < |pos| && 0 <= other < |pos| && |sumForces| == |pos|
      modifies this`sumForces, this`superpositionCount
      ensures pos == old(pos) && vel == old(vel) && propVel == old(propVel)
      ensures Accum(sumForces, superpositionCount) ==
              PairStep(cfg, size, pos, Accum(old(sumForces), old(superpositionCount)), p, other,
                       Dist(pos, p, other, size, root))
    {
      var other' := pos[other];
      var posI := pos[p];
      var dx := other'.0 - posI.0;
      var dy := other'.1 - posI.1;
      if AbsR(dx) > size * 0.5 {
        dx := dx - CopySign(size, dx);
      }
      if AbsR(dy) > size * 0.5 {
        dy := dy - CopySign(size, dy);
      }
      assert (dx, dy) == Separation(pos, p, other, size);
      var dist := root(SqNorm((dx, dy)));
      if dist > cfg.maxR {
        return;
      }
      if dist < SuperpositionDist {
        superpositionCount := superpositionCount + 1;
        sumForces := Push(sumForces, p, (cfg.maxRepulsiveForce, 0.0));
        sumForces := Push(sumForces, other, (-cfg.maxRepulsiveForce, 0.0));
        return;
      }
      // the repulsive / attractive branch on r_eq
      var scalar := ForceScalar(cfg, dist);
      var f := Along((dx, dy), dist, scalar);
      sumForces := Push(sumForces, p, f);
      sumForces := Push(sumForces, other, Neg(f));
    }

    /**
     * The per-particle loop closing a step: the position moves by dt times
     * the old velocity and is snap-wrapped, the velocity becomes
     * self-propulsion along the old heading plus mobility times the force,
     * the heading becomes the given one and the force entry is cleared.
     */
    method Advance(headings: seq<Point>)
      requires cfg.Valid() && size >= 0.0 && n == |pos| == |vel| == |propVel| == |sumForces| && |headings| == n
      modifies this
      ensures Valid() && superpositionCount == old(superpositionCount)
      ensures forall k :: 0 <= k < n ==> pos[k] == SnapWrapPoint(Add(old(pos)[k], Scale(dt, old(vel)[k])), size)
      ensures forall k :: 0 <= k < n ==> vel[k] == NewVel(cfg, old(propVel)[k], old(sumForces)[k])
      ensures propVel == headings
      ensures forall k :: 0 <= k < n ==> -size / 2.0 <= pos[k].0 <= size / 2.0 && -size / 2.0 <= pos[k].1 <= size / 2.0
    {
      var newPos, newVel, newForces := pos, vel, sumForces;
      var i := 0;
      while i < n
        invariant 0 <= i <= n && |newPos| == |newVel| == |newForces| == n
        invariant forall k :: 0 <= k < i ==> newPos[k] == SnapWrapPoint(Add(pos[k], Scale(dt, vel[k])), size)
        invariant forall k :: 0 <= k < i ==> newVel[k] == NewVel(cfg, propVel[k], sumForces[k])
        invariant forall k :: 0 <= k < i ==> newForces[k] == (0.0, 0.0)
        invariant forall k :: i <= k < n ==> newForces[k] == sumForces[k]
      {
        var moved := Add(pos[i], Scale(dt, vel[i]));
        var v := Add(Scale(cfg.vo, propVel[i]), Scale(cfg.mobility, sumForces[i]));
        var x := moved.0;
        if x > size / 2.0 {
          x := -size / 2.0;
        } else if x < -size / 2.0 {
          x := size / 2.0;
        }
        var y := moved.1;
        if y > size / 2.0 {
          y := -size / 2.0;
        } else if y < -size / 2.0 {
          y := size / 2.0;
        }
        newPos := newPos[i := (x, y)];
        newVel := newVel[i := v];
        newForces := newForces[i := (0.0, 0.0)];
        i := i + 1;
      }
      forall k | 0 <= k < n
        ensures -size / 2.0 <= newPos[k].0 <= size / 2.0 && -size / 2.0 <= newPos[k].1 <= size / 2.0
      {
        var moved := Add(pos[k], Scale(dt, vel[k]));
        SnapWrapSpec(moved.0, size);
        SnapWrapSpec(moved.1, size);
      }
      pos, vel, propVel, sumForces := newPos, newVel, headings, newForces;
    }

    /**
     * Row i of the double loop: `calc_force(i, j)` for j = i+1 .. n-1, on top
     * of the calls `done` already made from acc0.
     */
    method CalcRow(i: int, root: real -> real, ghost acc0: Accum, ghost done: seq<Pair>)
      requires Applied(acc0, done, root) && 0 <= i < n
      modifies this
      ensures pos == old(pos) && vel == old(vel) && propVel == old(propVel)
      ensures Applied(acc0, done + RowPairs(i, n), root)
    {
      var j := i + 1;
      assert done + RowPairs(i, j) == done;
      while j < n
        invariant i + 1 <= j <= n
        invariant pos == old(pos) && vel == old(vel) && propVel == old(propVel)
        invariant Applied(acc0, done + RowPairs(i, j), root)
      {
        ForceStep(i, j, root, acc0, done + RowPairs(i, j));
        assert done + RowPairs(i, j + 1) == done + RowPairs(i, j) + [(i, j)];
        j := j + 1;
      }
    }

    /** The double loop of `update_normal`: `calc_force(i, j)` for every i < j < n, in order. */
    method CalcPairs(root: real -> real)
      requires cfg.Valid() && n == |pos| && |sumForces| == n
      modifies this
      ensures pos == old(pos) && vel == old(vel) && propVel == old(propVel)
      ensures Accum(sumForces, superpositionCount) ==
              ApplyPairs(cfg, size, pos, Accum(old(sumForces), old(superpositionCount)), AllPairs(n), root)
    {
      ghost var acc0 := Accum(sumForces, superpositionCount);
      var i := 0;
      while i < n - 1
        invariant 0 <= i <= n && (n > 0 ==> i <= n - 1)
        invariant pos == old(pos) && vel == old(vel) && propVel == old(propVel)
        invariant Applied(acc0, PairsBelow(i, n), root)
      {
        CalcRow(i, root, acc0, PairsBelow(i, n));
        i := i + 1;
      }
      if n > 0 {
        assert RowPairs(n - 1, n) == [];
        assert PairsBelow(n, n) == PairsBelow(n - 1, n) + RowPairs(n - 1, n);
      }
      assert AllPairs(n) == PairsBelow(i, n);
    }

    /**
     * `update_normal`: the counter restarts at zero, every pair i < j gets one
     * `calc_force` call, then every particle advances with the force it
     * collected.  The forces collected sum to zero (third law) and the step
     * leaves the buffer clear.
     */
    method UpdateNormal(root: real -> real, headings: seq<Point>)
      requires Valid() && |headings| == n
      modifies this
      ensures Valid()
      ensures var acc := ApplyPairs(cfg, size, old(pos), Accum(old(sumForces), 0), AllPairs(n), root);
              superpositionCount == acc.superpositions &&
              SumPoints(acc.forces) == (0.0, 0.0) &&
              (forall k :: 0 <= k < n ==> pos[k] == SnapWrapPoint(Add(old(pos)[k], Scale(dt, old(vel)[k])), size)) &&
              (forall k :: 0 <= k < n ==> vel[k] == NewVel(cfg, old(propVel)[k], acc.forces[k]))
      ensures propVel == headings
    {
      superpositionCount := 0;
      CalcPairs(root);
      ghost var collected := Accum(sumForces, superpositionCount);
      ApplyPairsTotal(cfg, size, pos, Accum(old(sumForces), 0), AllPairs(n), root);
      SumPointsZero(old(sumForces));
      Advance(headings);
    }

    /**
     * The buffer and the counter are what the calls `done` make in order from
     * acc0.  The replay is stated for every sequence equal to `done`, so that
     * it is unfolded only where a caller names that replay.
     */
    ghost predicate Applied(acc0: Accum, done: seq<Pair>, root: real -> real)
      reads this
    {
      cfg.Valid() && n == |pos| && |sumForces| == n && |acc0.forces| == n && PairsIn(done, n) &&
      forall ps :: ps == done ==> Accum(sumForces, superpositionCount) == ApplyPairs(cfg, size, pos, acc0, ps, root)
    }

    /** One `calc_force(p, other)` after the calls `done`. */
    method ForceStep(p: int, other: int, root: real -> real, ghost acc0: Accum, ghost done: seq<Pair>)
      requires Applied(acc0, done, root) && 0 <= p < n && 0 <= other < n
      modifies this`sumForces, this`superpositionCount
      ensures pos == old(pos) && vel == old(vel) && propVel == old(propVel)
      ensures Applied(acc0, done + [(p, other)], root)
    {
      ApplyPairsSnoc(cfg, size, pos, acc0, done, p, other, root);
      CalcForce(p, other, root);
    }

    /** `calc_force(p, window[j])` for j = from .. to-1, after the calls `done`. */
    method ForceRun(p: int, window: seq<int>, from: int, to: int, root: real -> real,
                    ghost acc0: Accum, ghost done: seq<Pair>)
      requires Applied(acc0, done, root) && 0 <= p < n
      requires 0 <= from <= to <= |window| && forall j :: from <= j < to ==> 0 <= window[j] < n
      modifies this`sumForces, this`superpositionCount
      ensures pos == old(pos) && vel == old(vel) && propVel == old(propVel)
      ensures Applied(acc0, done + CallsTo(p, window[from..to]), root)
    {
      ghost var cur := done;
      var j := from;
      while j < to
        invariant from <= j <= to
        invariant cur == done + CallsTo(p, window[from..j])
        invariant Applied(acc0, cur, root)
      {
        var other := window[j];
        ForceStep(p, other, root, acc0, cur);
        cur := cur + [(p, other)];
        InPol.SliceSnoc(window, from, j);
        CallsToSnoc(p, window[from..j], other);
        j := j + 1;
      }
    }

    /** Particle p against every member of cell c, in slot order. */
    method ForceCell(p: int, windows: seq<seq<seq<int>>>, capacity: seq<seq<int>>, ghost nr: int, ghost nc: int,
                     c: Cell, root: real -> real, ghost acc0: Accum, ghost done: seq<Pair>)
      requires Applied(acc0, done, root) && 0 <= p < n
      requires WellFormed(windows, capacity, nr, nc) && InPol.OccupantsBelow(windows, capacity, nr, nc, n)
      requires InGrid(c, nr, nc)
      modifies this`sumForces, this`superpositionCount
      ensures pos == old(pos) && vel == old(vel) && propVel == old(propVel)
      ensures Applied(acc0, done + CallsTo(p, Occ(windows, capacity, nr, nc, c.0, c.1)), root)
    {
      var window := windows[c.0][c.1];
      var windowCap := capacity[c.0][c.1];
      OccupantsOf(windows, capacity, nr, nc, n, c);
      ForceRun(p, window, 0, windowCap, root, acc0, done);
      assert window[0..windowCap] == Occ(windows, capacity, nr, nc, c.0, c.1);
    }

    /** Particle p against every member of each listed neighbour cell, in list order. */
    method ForceNeighbours(p: int, windows: seq<seq<seq<int>>>, capacity: seq<seq<int>>, ghost nr: int, ghost nc: int,
                           neighbors: seq<Cell>, root: real -> real, ghost acc0: Accum, ghost done: seq<Pair>)
      requires Applied(acc0, done, root) && 0 <= p < n
      requires WellFormed(windows, capacity, nr, nc) && InPol.OccupantsBelow(windows, capacity, nr, nc, n)
      requires AllInGrid(neighbors, nr, nc)
      modifies this`sumForces, this`superpositionCount
      ensures pos == old(pos) && vel == old(vel) && propVel == old(propVel)
      ensures Applied(acc0, done + StencilForces(windows, capacity, nr, nc, p, neighbors, |neighbors|), root)
    {
      ghost var cur := done;
      var k := 0;
      while k < |neighbors|
        invariant 0 <= k <= |neighbors|
        invariant cur == done + StencilForces(windows, capacity, nr, nc, p, neighbors, k)
        invariant Applied(acc0, cur, root)
      {
        var neighId := neighbors[k];
        assert InGrid(neighId, nr, nc);
        ForceCell(p, windows, capacity, nr, nc, neighId, root, acc0, cur);
        cur := cur + CallsTo(p, Occ(windows, capacity, nr, nc, neighId.0, neighId.1));
        k := k + 1;
      }
    }

    /**
     * Member i of cell c against the later members of c and then against the
     * members of each neighbour cell.
     */
    method ForceMember(c: Cell, i: int, windows: seq<seq<seq<int>>>, capacity: seq<seq<int>>, ghost nr: int,
                       ghost nc: int, neighbors: seq<Cell>, root: real -> real, ghost acc0: Accum, ghost done: seq<Pair>)
      requires WellFormed(windows, capacity, nr, nc) && InPol.OccupantsBelow(windows, capacity, nr, nc, n)
      requires InGrid(c, nr, nc) && AllInGrid(neighbors, nr, nc) && 0 <= i < capacity[c.0][c.1]
      requires Applied(acc0, done + MemberForces(windows, capacity, nr, nc, c, neighbors, i), root)
      modifies this`sumForces, this`superpositionCount
      ensures pos == old(pos) && vel == old(vel) && propVel == old(propVel)
      ensures Applied(acc0, done + MemberForces(windows, capacity, nr, nc, c, neighbors, i + 1), root)
    {
      var window := windows[c.0][c.1];
      var windowsCap := capacity[c.0][c.1];
      ghost var occ := Occ(windows, capacity, nr, nc, c.0, c.1);
      ghost var prior := done + MemberForces(windows, capacity, nr, nc, c, neighbors, i);
      var pId := window[i];
      OccupantsOf(windows, capacity, nr, nc, n, c);
      ForceRun(pId, window, i + 1, windowsCap, root, acc0, prior);
      InPol.PrefixSlice(window, windowsCap, i + 1);
      ghost var calls := CallsTo(pId, occ[i + 1..]);
      ForceNeighbours(pId, windows, capacity, nr, nc, neighbors, root, acc0, prior + calls);
      ghost var stencil := StencilForces(windows, capacity, nr, nc, occ[i], neighbors, |neighbors|);
      assert prior + calls + stencil == done + MemberForces(windows, capacity, nr, nc, c, neighbors, i + 1);
    }

    /**
     * Each member of cell c against the later members of c and then against
     * the members of each neighbour cell.
     */
    method ForceMembers(c: Cell, windows: seq<seq<seq<int>>>, capacity: seq<seq<int>>, ghost nr: int, ghost nc: int,
                        neighbors: seq<Cell>, root: real -> real, ghost acc0: Accum, ghost done: seq<Pair>)
      requires Applied(acc0, done, root)
      requires WellFormed(windows, capacity, nr, nc) && InPol.OccupantsBelow(windows, capacity, nr, nc, n)
      requires InGrid(c, nr, nc) && AllInGrid(neighbors, nr, nc)
      modifies this`sumForces, this`superpositionCount
      ensures pos == old(pos) && vel == old(vel) && propVel == old(propVel)
      ensures Applied(acc0, done + MemberForces(windows, capacity, nr, nc, c, neighbors, capacity[c.0][c.1]), root)
    {
      var windowsCap := capacity[c.0][c.1];
      assert done + MemberForces(windows, capacity, nr, nc, c, neighbors, 0) == done;
      var i := 0;
      while i < windowsCap
        invariant 0 <= i <= windowsCap
        invariant Applied(acc0, done + MemberForces(windows, capacity, nr, nc, c, neighbors, i), root)
      {
        ForceMember(c, i, windows, capacity, nr, nc, neighbors, root, acc0, done);
        i := i + 1;
      }
    }

    /**
     * The scan of `update_windows`: for each cell in visiting order and each
     * member of it, `calc_force` against every later member of the cell and
     * then against every member of each neighbour cell.
     */
    method ForceScan(windows: seq<seq<seq<int>>>, capacity: seq<seq<int>>, ghost nr: int, ghost nc: int,
                     cells: seq<Cell>, neigh: seq<seq<seq<Cell>>>, root: real -> real, ghost acc0: Accum)
      requires Applied(acc0, [], root)
      requires WellFormed(windows, capacity, nr, nc) && InPol.OccupantsBelow(windows, capacity, nr, nc, n)
      requires AllInGrid(cells, nr, nc) && InPol.NeighShape(neigh, nr, nc)
      modifies this`sumForces, this`superpositionCount
      ensures pos == old(pos) && vel == old(vel) && propVel == old(propVel)
      ensures Applied(acc0, ScanForces(windows, capacity, nr, nc, cells, neigh, |cells|), root)
    {
      ghost var done: seq<Pair> := [];
      var w := 0;
      while w < |cells|
        invariant 0 <= w <= |cells|
        invariant done == ScanForces(windows, capacity, nr, nc, cells, neigh, w)
        invariant Applied(acc0, done, root)
      {
        var winId := cells[w];
        assert InGrid(winId, nr, nc);
        var neighbors := neigh[winId.0][winId.1];
        ForceMembers(winId, windows, capacity, nr, nc, neighbors, root, acc0, done);
        done := done + MemberForces(windows, capacity, nr, nc, winId, neighbors, capacity[winId.0][winId.1]);
        w := w + 1;
      }
    }

    /**
     * The force pass of `update_windows`: the windows are rebuilt from the
     * current positions and the scan makes one `calc_force` call per visited
     * pair.
     */
    method WindowForces(root: real -> real)
      requires cfg.Valid() && n == |pos| && |sumForces| == n && Linked() && Inside(pos, size)
      modifies this, windowsManager
      ensures pos == old(pos) && vel == old(vel) && propVel == old(propVel) && Linked()
      ensures var wm := windowsManager;
              Filled(wm.windows, wm.capacity, wm.numRows, wm.numCols, Range(n), wm.PointCells(pos, n))
      ensures var wm := windowsManager;
              var calls := ScanForces(wm.windows, wm.capacity, wm.numRows, wm.numCols,
                                      wm.windowsIds, wm.windowNeighbor, |wm.windowsIds|);
              PairsIn(calls, n) &&
              Accum(sumForces, superpositionCount) ==
              ApplyPairs(cfg, size, pos, Accum(old(sumForces), old(superpositionCount)), calls, root)
    {
      var wm := windowsManager;
      var nr, nc := wm.numRows, wm.numCols;
      forall k | 0 <= k < n
        ensures InGrid(wm.CellOf(pos[k]), nr, nc)
      {
        Windows.InsidePointInGrid(pos[k], 0.0, 0.0, size, size, nc, nr);
      }
      wm.UpdateWindowMembers(pos);
      InPol.OccupantsFromItems(wm.windows, wm.capacity, nr, nc, Range(n), wm.PointCells(pos, n), n);
      ghost var acc0 := Accum(sumForces, superpositionCount);
      ForceScan(wm.windows, wm.capacity, nr, nc, wm.windowsIds, wm.windowNeighbor, root, acc0);
    }

    /**
     * `update_windows`: the counter restarts at zero, the force pass runs over
     * the rebuilt windows, then every particle advances with the force it
     * collected.  The forces collected sum to zero and the step leaves the
     * buffer clear and every particle inside the square.
     */
    method UpdateWindows(root: real -> real, headings: seq<Point>)
      requires Valid() && Linked() && Inside(pos, size) && |headings| == n
      modifies this, windowsManager
      ensures Valid() && Linked() && Inside(pos, size) && propVel == headings
      ensures var wm := windowsManager;
              Filled(wm.windows, wm.capacity, wm.numRows, wm.numCols, Range(n), wm.PointCells(old(pos), n))
      ensures var wm := windowsManager;
              var calls := ScanForces(wm.windows, wm.capacity, wm.numRows, wm.numCols,
                                      wm.windowsIds, wm.windowNeighbor, |wm.windowsIds|);
              PairsIn(calls, n) &&
              var acc := ApplyPairs(cfg, size, old(pos), Accum(old(sumForces), 0), calls, root);
              superpositionCount == acc.superpositions &&
              SumPoints(acc.forces) == (0.0, 0.0) &&
              (forall k :: 0 <= k < n ==> pos[k] == SnapWrapPoint(Add(old(pos)[k], Scale(dt, old(vel)[k])), size)) &&
              (forall k :: 0 <= k < n ==> vel[k] == NewVel(cfg, old(propVel)[k], acc.forces[k]))
    {
      superpositionCount := 0;
      WindowForces(root);
      ghost var wm := windowsManager;
      ghost var calls := ScanForces(wm.windows, wm.capacity, wm.numRows, wm.numCols, wm.windowsIds, wm.windowNeighbor,
                                    |wm.windowsIds|);
      ApplyPairsTotal(cfg, size, pos, Accum(old(sumForces), 0), calls, root);
      SumPointsZero(old(sumForces));
      Advance(headings);
    }

    /**
     * `mean_vel`: the length of the sum of the unit velocities of the moving
     * particles, divided by the number of particles (those at rest count in
     * the divisor).
     */
    method MeanVel(root: real -> real) returns (m: real)
      requires n == |vel| && n > 0
      ensures m == root(SqNorm(SumUnit(vel, root))) / n as real
    {
      var sum := (0.0, 0.0);
      var i := 0;
      while i < |vel|
        invariant 0 <= i <= |vel|
        invariant sum == SumUnit(vel[..i], root)
      {
        var v := vel[i];
        var speed := root(SqNorm(v));
        assert vel[..i + 1][..i] == vel[..i] && vel[..i + 1][i] == v;
        if speed != 0.0 {
          sum := Add(sum, (v.0 / speed, v.1 / speed));
        }
        i := i + 1;
      }
      assert vel[..|vel|] == vel;
      var speedTotal := root(SqNorm(sum));
      m := speedTotal / n as real;
    }
  }
}
