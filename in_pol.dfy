/**
 * The point-in-polygon collision detector of the lib core
 * (`InPolChecker`): rings are polygons with `numVerts` vertices; a vertex of
 * one ring lying inside another ring is a collision.  Candidate ring pairs
 * come from a `WindowsManager` over the rings' centres of mass.
 */
module InPol {
  import opened Numeric
  import opened Grid
  import opened Windows

  /** One vertex `pId` of ring `ringId` found inside ring `colRingId`. */
  datatype ColInfo = ColInfo(ringId: int, pId: int, colRingId: int)

  /** An ordered `check_intersection(pol_id, other_id)` call. */
  type Call = (int, int)

  // ---------------------------------------------------------------------
  // Crossing-parity test
  // ---------------------------------------------------------------------

  /**
   * The edge v1 -> v2 toggles the parity for the point (x, y): the edge
   * straddles the horizontal line through y and meets it to the right of x.
   * The interpolation is only evaluated once the edge straddles the line, so
   * a horizontal edge (where the source divides by zero) never toggles.
   */
  predicate EdgeCrosses(v1: Point, v2: Point, x: real, y: real)
  {
    ((v2.1 > y) != (v1.1 > y)) && x < CrossingX(v1, v2, y)
  }

  /** Where the line through v1 and v2 meets the horizontal line through y. */
  function CrossingX(v1: Point, v2: Point, y: real): real
    requires v1.1 != v2.1
  {
    Interp(v1.0 - v2.0, y - v2.1, v1.1 - v2.1, v2.0)
  }

  /** a * b / c + e, the interpolation's shape as the source writes it. */
  function Interp(a: real, b: real, c: real, e: real): real
    requires c != 0.0
  {
    a * b / c + e
  }

  /** Edge e of the closed polygon made of the first n vertices. */
  function EdgeOf(pol: seq<Point>, n: int, e: int): (Point, Point)
    requires 1 <= n <= |pol| && 0 <= e < n
  {
    if e < n - 1 then (pol[e], pol[e + 1]) else (pol[n - 1], pol[0])
  }

  /** How many of the first k edges toggle the parity for (x, y). */
  function Crossings(pol: seq<Point>, n: int, x: real, y: real, k: int): nat
    requires 1 <= n <= |pol| && 0 <= k <= n
  {
    if k == 0 then 0
    else
      var e := EdgeOf(pol, n, k - 1);
      Crossings(pol, n, x, y, k - 1) + (if EdgeCrosses(e.0, e.1, x, y) then 1 else 0)
  }

  /** (x, y) is inside the polygon: an odd number of its edges are crossed. */
  predicate Inside(pol: seq<Point>, n: int, x: real, y: real)
    requires 1 <= n <= |pol|
  {
    Crossings(pol, n, x, y, n) % 2 == 1
  }

  /** A crossed edge meets the line strictly right of x, so x is left of one of its ends. */
  lemma CrossingLeftOfEdge(v1: Point, v2: Point, x: real, y: real)
    requires EdgeCrosses(v1, v2, x, y)
    ensures x < v1.0 || x < v2.0
  {
    var t := (y - v2.1) / (v1.1 - v2.1);
    assert CrossingX(v1, v2, y) == (v1.0 - v2.0) * t + v2.0;
    if v2.1 > y {
      assert y - v2.1 < 0.0 && v1.1 - v2.1 < 0.0 && y - v2.1 >= v1.1 - v2.1;
    } else {
      assert y - v2.1 >= 0.0 && v1.1 - v2.1 > 0.0 && y - v2.1 < v1.1 - v2.1;
    }
    UnitRatio(y - v2.1, v1.1 - v2.1);
    UnitInterpolation(v1.0, v2.0, t);
  }

  /** a*t + b*(1 - t) lies between a and b for t in [0, 1]. */
  lemma UnitInterpolation(a: real, b: real, t: real)
    requires 0.0 <= t <= 1.0
    ensures (a - b) * t + b <= (if a < b then b else a)
  {
    if a >= b {
      var u := a - b;
      MulNonNegative(u, 1.0 - t);
      assert u * t == u - u * (1.0 - t);
    } else {
      var u := b - a;
      MulNonNegative(u, t);
      assert (a - b) * t == -(u * t);
    }
  }

  /** num / den lies in [0, 1] when num lies between 0 and den. */
  lemma UnitRatio(num: real, den: real)
    requires (den > 0.0 && 0.0 <= num < den) || (den < 0.0 && den <= num < 0.0)
    ensures 0.0 <= num / den <= 1.0
  {
    var t := num / den;
    assert t * den == num;
    if den > 0.0 {
      if t < 0.0 { MulNonNegative(-t, den); }
      if t > 1.0 { MulNonNegative(t - 1.0, den); }
    } else {
      if t < 0.0 { MulNonNegative(-t, -den); }
      if t > 1.0 { MulNonNegative(t - 1.0, -den); }
    }
  }

  lemma MulNonNegative(a: real, b: real)
    requires a >= 0.0 && b >= 0.0
    ensures a * b >= 0.0
    ensures a > 0.0 && b > 0.0 ==> a * b > 0.0
  {
  }

  /** No edge of a polygon wholly left of (or on the line through) x is crossed. */
  lemma {:induction false} RightOfVerticesCrossings(pol: seq<Point>, n: int, x: real, y: real, k: int)
    requires 1 <= n <= |pol| && 0 <= k <= n
    requires forall v :: 0 <= v < n ==> pol[v].0 <= x
    ensures Crossings(pol, n, x, y, k) == 0
  {
    if k > 0 {
      RightOfVerticesCrossings(pol, n, x, y, k - 1);
      var e := EdgeOf(pol, n, k - 1);
      if EdgeCrosses(e.0, e.1, x, y) {
        CrossingLeftOfEdge(e.0, e.1, x, y);
        assert false;
      }
    }
  }

  /** A point right of every vertex is outside. */
  lemma RightOfVerticesOutside(pol: seq<Point>, n: int, x: real, y: real)
    requires 1 <= n <= |pol|
    requires forall v :: 0 <= v < n ==> pol[v].0 <= x
    ensures !Inside(pol, n, x, y)
  {
    RightOfVerticesCrossings(pol, n, x, y, n);
  }

  /** A horizontal line that no edge straddles crosses nothing. */
  lemma {:induction false} AboveVerticesCrossings(pol: seq<Point>, n: int, x: real, y: real, k: int)
    requires 1 <= n <= |pol| && 0 <= k <= n
    requires forall v :: 0 <= v < n ==> pol[v].1 <= y
    ensures Crossings(pol, n, x, y, k) == 0
  {
    if k > 0 {
      AboveVerticesCrossings(pol, n, x, y, k - 1);
    }
  }

  /** A point at or above every vertex is outside. */
  lemma AboveVerticesOutside(pol: seq<Point>, n: int, x: real, y: real)
    requires 1 <= n <= |pol|
    requires forall v :: 0 <= v < n ==> pol[v].1 <= y
    ensures !Inside(pol, n, x, y)
  {
    AboveVerticesCrossings(pol, n, x, y, n);
  }

  /** Every vertex moved by d. */
  function Shifted(pol: seq<Point>, d: Point): (r: seq<Point>)
    ensures |r| == |pol| && forall v :: 0 <= v < |pol| ==> r[v] == Add(pol[v], d)
  {
    seq(|pol|, v requires 0 <= v < |pol| => Add(pol[v], d))
  }

  lemma EdgeCrossesShifted(v1: Point, v2: Point, x: real, y: real, d: Point)
    ensures EdgeCrosses(Add(v1, d), Add(v2, d), x + d.0, y + d.1) == EdgeCrosses(v1, v2, x, y)
  {
    var w1, w2 := Add(v1, d), Add(v2, d);
    assert w1.0 - w2.0 == v1.0 - v2.0;
    assert (y + d.1) - w2.1 == y - v2.1;
    assert w1.1 - w2.1 == v1.1 - v2.1;
    if v1.1 != v2.1 {
      var a, b, c := v1.0 - v2.0, y - v2.1, v1.1 - v2.1;
      assert CrossingX(w1, w2, y + d.1) == Interp(a, b, c, w2.0);
    }
  }

  lemma {:induction false} CrossingsShifted(pol: seq<Point>, n: int, x: real, y: real, d: Point, k: int)
    requires 1 <= n <= |pol| && 0 <= k <= n
    ensures Crossings(Shifted(pol, d), n, x + d.0, y + d.1, k) == Crossings(pol, n, x, y, k)
  {
    if k > 0 {
      CrossingsShifted(pol, n, x, y, d, k - 1);
      var e := EdgeOf(pol, n, k - 1);
      EdgeCrossesShifted(e.0, e.1, x, y, d);
    }
  }

  /** The test does not depend on where the polygon and the point are, only on their relative place. */
  lemma InsideShifted(pol: seq<Point>, n: int, x: real, y: real, d: Point)
    requires 1 <= n <= |pol|
    ensures Inside(Shifted(pol, d), n, x + d.0, y + d.1) == Inside(pol, n, x, y)
  {
    CrossingsShifted(pol, n, x, y, d, n);
  }

  // ---------------------------------------------------------------------
  // Collision records
  // ---------------------------------------------------------------------

  /** Every ring stores at least the detector's vertex count. */
  ghost predicate PolsFit(pols: seq<seq<Point>>, numVerts: int)
  {
    numVerts >= 0 && forall r :: 0 <= r < |pols| ==> |pols[r]| >= numVerts
  }

  /**
   * The collisions `check_intersection(polId, otherId)` records for its
   * first k vertices: each vertex of ring polId inside ring otherId, in
   * vertex order.
   */
  ghost function VertexHits(pols: seq<seq<Point>>, numVerts: int, polId: int, otherId: int, k: int): (hits: seq<ColInfo>)
    requires PolsFit(pols, numVerts) && 0 <= polId < |pols| && 0 <= otherId < |pols|
    requires 0 <= k <= numVerts
    ensures |hits| <= k
  {
    if k == 0 then []
    else
      var v := pols[polId][k - 1];
      VertexHits(pols, numVerts, polId, otherId, k - 1) +
        (if Inside(pols[otherId], numVerts, v.0, v.1) then [ColInfo(polId, k - 1, otherId)] else [])
  }

  lemma VertexHitsStep(pols: seq<seq<Point>>, numVerts: int, polId: int, otherId: int, p: int, inside: bool)
    requires PolsFit(pols, numVerts) && 0 <= polId < |pols| && 0 <= otherId < |pols| && 0 <= p < numVerts
    requires inside == Inside(pols[otherId], numVerts, pols[polId][p].0, pols[polId][p].1)
    ensures VertexHits(pols, numVerts, polId, otherId, p + 1) ==
              VertexHits(pols, numVerts, polId, otherId, p) + (if inside then [ColInfo(polId, p, otherId)] else [])
  {
  }

  /** Each recorded vertex of polId is one inside otherId, and each such vertex is recorded. */
  lemma {:induction false} VertexHitsMembers(pols: seq<seq<Point>>, numVerts: int, polId: int, otherId: int, k: int, c: ColInfo)
    requires PolsFit(pols, numVerts) && 0 <= polId < |pols| && 0 <= otherId < |pols|
    requires 0 <= k <= numVerts
    ensures c in VertexHits(pols, numVerts, polId, otherId, k) <==>
              c.ringId == polId && c.colRingId == otherId && 0 <= c.pId < k &&
              Inside(pols[otherId], numVerts, pols[polId][c.pId].0, pols[polId][c.pId].1)
  {
    if k > 0 {
      VertexHitsMembers(pols, numVerts, polId, otherId, k - 1, c);
    }
  }

  /** Every record names a vertex that exists. */
  predicate HitsIn(pols: seq<seq<Point>>, hits: seq<ColInfo>)
  {
    forall k :: 0 <= k < |hits| ==> 0 <= hits[k].ringId < |pols| && 0 <= hits[k].pId < |pols[hits[k].ringId]|
  }

  /** The vertex positions of the records, in order (the `inside_points` buffer). */
  function HitPoints(pols: seq<seq<Point>>, hits: seq<ColInfo>): (pts: seq<Point>)
    requires HitsIn(pols, hits)
    ensures |pts| == |hits|
  {
    seq(|hits|, k requires 0 <= k < |hits| && HitsIn(pols, hits) => pols[hits[k].ringId][hits[k].pId])
  }

  /** Records produced by VertexHits name existing vertices. */
  lemma {:induction false} VertexHitsIn(pols: seq<seq<Point>>, numVerts: int, polId: int, otherId: int, k: int)
    requires PolsFit(pols, numVerts) && 0 <= polId < |pols| && 0 <= otherId < |pols|
    requires 0 <= k <= numVerts
    ensures HitsIn(pols, VertexHits(pols, numVerts, polId, otherId, k))
  {
    var hits := VertexHits(pols, numVerts, polId, otherId, k);
    forall j | 0 <= j < |hits|
      ensures 0 <= hits[j].ringId < |pols| && 0 <= hits[j].pId < |pols[hits[j].ringId]|
    {
      var c := VertexHits(pols, numVerts, polId, otherId, k)[j];
      VertexHitsMembers(pols, numVerts, polId, otherId, k, c);
    }
  }

  lemma HitPointsSnoc(pols: seq<seq<Point>>, hits: seq<ColInfo>, c: ColInfo)
    requires HitsIn(pols, hits) && 0 <= c.ringId < |pols| && 0 <= c.pId < |pols[c.ringId]|
    ensures HitsIn(pols, hits + [c])
    ensures HitPoints(pols, hits + [c]) == HitPoints(pols, hits) + [pols[c.ringId][c.pId]]
  {
  }

  lemma HitPointsAppend(pols: seq<seq<Point>>, a: seq<ColInfo>, b: seq<ColInfo>)
    requires HitsIn(pols, a) && HitsIn(pols, b)
    ensures HitsIn(pols, a + b)
    ensures HitPoints(pols, a + b) == HitPoints(pols, a) + HitPoints(pols, b)
  {
    assert forall k :: 0 <= k < |a + b| ==> (a + b)[k] == if k < |a| then a[k] else b[k - |a|];
  }

  /** Every call's ring ids index the ring list. */
  predicate CallsIn(calls: seq<Call>, n: int)
  {
    forall k :: 0 <= k < |calls| ==> 0 <= calls[k].0 < n && 0 <= calls[k].1 < n
  }

  /** The collisions recorded by a sequence of `check_intersection` calls, in call order. */
  ghost function ScanHits(pols: seq<seq<Point>>, numVerts: int, calls: seq<Call>): seq<ColInfo>
    requires PolsFit(pols, numVerts) && CallsIn(calls, |pols|)
  {
    if calls == [] then []
    else
      var c := calls[|calls| - 1];
      ScanHits(pols, numVerts, calls[..|calls| - 1]) + VertexHits(pols, numVerts, c.0, c.1, numVerts)
  }

  /**
   * One more call appends its records: the log, the inside points and the
   * fresh flags all grow by that call's share.
   */
  lemma ScanStep(pols: seq<seq<Point>>, numVerts: int, calls: seq<Call>, a: int, b: int)
    requires PolsFit(pols, numVerts) && CallsIn(calls, |pols|) && 0 <= a < |pols| && 0 <= b < |pols|
    ensures CallsIn(calls + [(a, b)], |pols|)
    ensures var hits := ScanHits(pols, numVerts, calls);
            var more := VertexHits(pols, numVerts, a, b, numVerts);
            HitsIn(pols, hits) && HitsIn(pols, more) &&
            ScanHits(pols, numVerts, calls + [(a, b)]) == hits + more &&
            HitsIn(pols, hits + more) &&
            HitPoints(pols, hits + more) == HitPoints(pols, hits) + HitPoints(pols, more) &&
            Unresolved(|hits + more|) == Unresolved(|hits|) + Unresolved(|more|)
  {
    assert (calls + [(a, b)])[..|calls|] == calls;
    ScanHitsIn(pols, numVerts, calls);
    VertexHitsIn(pols, numVerts, a, b, numVerts);
    HitPointsAppend(pols, ScanHits(pols, numVerts, calls), VertexHits(pols, numVerts, a, b, numVerts));
  }

  /** log, pts and flags are what the calls `done` record, all unresolved. */
  ghost predicate Recorded(pols: seq<seq<Point>>, numVerts: int, done: seq<Call>,
                           log: seq<ColInfo>, pts: seq<Point>, flags: seq<bool>)
  {
    PolsFit(pols, numVerts) && CallsIn(done, |pols|) &&
    HitsIn(pols, ScanHits(pols, numVerts, done)) &&
    log == ScanHits(pols, numVerts, done) &&
    pts == HitPoints(pols, ScanHits(pols, numVerts, done)) &&
    flags == Unresolved(|log|)
  }

  lemma RecordedStep(pols: seq<seq<Point>>, numVerts: int, done: seq<Call>, a: int, b: int,
                     log: seq<ColInfo>, pts: seq<Point>, flags: seq<bool>,
                     log': seq<ColInfo>, pts': seq<Point>, flags': seq<bool>)
    requires Recorded(pols, numVerts, done, log, pts, flags) && 0 <= a < |pols| && 0 <= b < |pols|
    requires var more := VertexHits(pols, numVerts, a, b, numVerts);
             HitsIn(pols, more) &&
             log' == log + more && pts' == pts + HitPoints(pols, more) && flags' == flags + Unresolved(|more|)
    ensures Recorded(pols, numVerts, done + [(a, b)], log', pts', flags')
  {
    ScanStep(pols, numVerts, done, a, b);
  }

  /** Every record of ScanHits names an existing vertex. */
  lemma {:induction false} ScanHitsIn(pols: seq<seq<Point>>, numVerts: int, calls: seq<Call>)
    requires PolsFit(pols, numVerts) && CallsIn(calls, |pols|)
    ensures HitsIn(pols, ScanHits(pols, numVerts, calls))
  {
    if calls != [] {
      var c := calls[|calls| - 1];
      ScanHitsIn(pols, numVerts, calls[..|calls| - 1]);
      VertexHitsIn(pols, numVerts, c.0, c.1, numVerts);
      HitPointsAppend(pols, ScanHits(pols, numVerts, calls[..|calls| - 1]), VertexHits(pols, numVerts, c.0, c.1, numVerts));
    }
  }

  // ---------------------------------------------------------------------
  // The candidate pairs scanned by `update`
  // ---------------------------------------------------------------------

  /** Both orders of every pair (x, y), y taken from ys in order. */
  function PairsWith(x: int, ys: seq<int>): seq<Call>
  {
    if ys == [] then []
    else PairsWith(x, ys[..|ys| - 1]) + [(x, ys[|ys| - 1]), (ys[|ys| - 1], x)]
  }

  lemma SliceSnoc<T>(s: seq<T>, from: int, j: int)
    requires 0 <= from <= j < |s|
    ensures s[from..j + 1] == s[from..j] + [s[j]]
  {
  }

  lemma PairsWithSnoc(done: seq<Call>, x: int, ys: seq<int>, y: int)
    ensures (done + PairsWith(x, ys)) + [(x, y)] + [(y, x)] == done + PairsWith(x, ys + [y])
  {
    assert (ys + [y])[..|ys|] == ys;
  }

  lemma PrefixSlice<T>(s: seq<T>, cap: int, from: int)
    requires 0 <= from <= cap <= |s|
    ensures s[..cap][from..] == s[from..cap]
  {
  }

  /** The neighbour lists have the grid's shape and name cells of the grid. */
  ghost predicate NeighShape(neigh: seq<seq<seq<Cell>>>, nr: int, nc: int)
  {
    |neigh| == nr &&
    (forall i :: 0 <= i < nr ==> |neigh[i]| == nc) &&
    forall i, j :: 0 <= i < nr && 0 <= j < nc ==> AllInGrid(neigh[i][j], nr, nc)
  }

  /** Calls of ring x against the members of the first k neighbour cells. */
  ghost function StencilCalls(windows: seq<seq<seq<int>>>, capacity: seq<seq<int>>, nr: int, nc: int,
                              x: int, nbs: seq<Cell>, k: int): seq<Call>
    requires WellFormed(windows, capacity, nr, nc) && AllInGrid(nbs, nr, nc) && 0 <= k <= |nbs|
  {
    if k == 0 then []
    else
      StencilCalls(windows, capacity, nr, nc, x, nbs, k - 1) +
      PairsWith(x, Occ(windows, capacity, nr, nc, nbs[k - 1].0, nbs[k - 1].1))
  }

  /**
   * Calls made for the first i members of cell c: each member against the
   * later members of its own cell, then against the members of each
   * neighbour cell.
   */
  ghost function MemberCalls(windows: seq<seq<seq<int>>>, capacity: seq<seq<int>>, nr: int, nc: int,
                             c: Cell, nbs: seq<Cell>, i: int): seq<Call>
    requires WellFormed(windows, capacity, nr, nc) && InGrid(c, nr, nc) && AllInGrid(nbs, nr, nc)
    requires 0 <= i <= capacity[c.0][c.1]
  {
    if i == 0 then []
    else
      var occ := Occ(windows, capacity, nr, nc, c.0, c.1);
      MemberCalls(windows, capacity, nr, nc, c, nbs, i - 1) +
      PairsWith(occ[i - 1], occ[i..]) +
      StencilCalls(windows, capacity, nr, nc, occ[i - 1], nbs, |nbs|)
  }

  lemma StencilCallsStep(windows: seq<seq<seq<int>>>, capacity: seq<seq<int>>, nr: int, nc: int,
                          x: int, nbs: seq<Cell>, k: int, base: seq<Call>)
    requires WellFormed(windows, capacity, nr, nc) && AllInGrid(nbs, nr, nc) && 0 <= k < |nbs|
    ensures var nb := nbs[k];
            (base + StencilCalls(windows, capacity, nr, nc, x, nbs, k)) +
              PairsWith(x, windows[nb.0][nb.1][0..capacity[nb.0][nb.1]]) ==
            base + StencilCalls(windows, capacity, nr, nc, x, nbs, k + 1)
  {
    var nb := nbs[k];
    assert windows[nb.0][nb.1][0..capacity[nb.0][nb.1]] == Occ(windows, capacity, nr, nc, nb.0, nb.1);
  }

  lemma ScanCallsStep(windows: seq<seq<seq<int>>>, capacity: seq<seq<int>>, nr: int, nc: int,
                      cells: seq<Cell>, neigh: seq<seq<seq<Cell>>>, w: int)
    requires WellFormed(windows, capacity, nr, nc) && AllInGrid(cells, nr, nc) && NeighShape(neigh, nr, nc)
    requires 0 <= w < |cells|
    ensures var c := cells[w];
            InGrid(c, nr, nc) && AllInGrid(neigh[c.0][c.1], nr, nc) &&
            ScanCalls(windows, capacity, nr, nc, cells, neigh, w + 1) ==
            ScanCalls(windows, capacity, nr, nc, cells, neigh, w) +
            MemberCalls(windows, capacity, nr, nc, c, neigh[c.0][c.1], capacity[c.0][c.1])
  {
    assert InGrid(cells[w], nr, nc);
  }

  lemma MemberCallsStep(windows: seq<seq<seq<int>>>, capacity: seq<seq<int>>, nr: int, nc: int,
                        c: Cell, nbs: seq<Cell>, i: int, base: seq<Call>)
    requires WellFormed(windows, capacity, nr, nc) && InGrid(c, nr, nc) && AllInGrid(nbs, nr, nc)
    requires 0 <= i < capacity[c.0][c.1]
    ensures var occ := Occ(windows, capacity, nr, nc, c.0, c.1);
            (base + MemberCalls(windows, capacity, nr, nc, c, nbs, i)) + PairsWith(occ[i], occ[i + 1..]) +
              StencilCalls(windows, capacity, nr, nc, occ[i], nbs, |nbs|) ==
            base + MemberCalls(windows, capacity, nr, nc, c, nbs, i + 1)
  {
  }

  /** Calls made for the first w cells of the visiting order. */
  ghost function ScanCalls(windows: seq<seq<seq<int>>>, capacity: seq<seq<int>>, nr: int, nc: int,
                           cells: seq<Cell>, neigh: seq<seq<seq<Cell>>>, w: int): seq<Call>
    requires WellFormed(windows, capacity, nr, nc) && AllInGrid(cells, nr, nc) && NeighShape(neigh, nr, nc)
    requires 0 <= w <= |cells|
  {
    if w == 0 then []
    else
      var c := cells[w - 1];
      ScanCalls(windows, capacity, nr, nc, cells, neigh, w - 1) +
      MemberCalls(windows, capacity, nr, nc, c, neigh[c.0][c.1], capacity[c.0][c.1])
  }

  /** The manager's fixed layout: row-major visiting order and half-stencil neighbours. */
  ghost predicate Layout(wm: WindowsManager)
  {
    LayoutOrder(wm) &&
    AllInGrid(wm.windowsIds, wm.numRows, wm.numCols) &&
    NeighShape(wm.windowNeighbor, wm.numRows, wm.numCols)
  }

  ghost predicate LayoutOrder(wm: WindowsManager)
  {
    wm.numRows > 0 && wm.numCols > 0 &&
    wm.windowsIds == RowMajor(wm.numRows, wm.numCols) &&
    |wm.windowNeighbor| == wm.numRows &&
    (forall i :: 0 <= i < wm.numRows ==> |wm.windowNeighbor[i]| == wm.numCols) &&
    forall i, j :: 0 <= i < wm.numRows && 0 <= j < wm.numCols ==>
      wm.windowNeighbor[i][j] == Stencil(i, j, wm.numRows, wm.numCols)
  }

  lemma LayoutShape(wm: WindowsManager)
    requires LayoutOrder(wm)
    ensures Layout(wm)
  {
    var nr, nc := wm.numRows, wm.numCols;
    RowMajorLength(nr, nc);
    forall k | 0 <= k < |wm.windowsIds|
      ensures InGrid(wm.windowsIds[k], nr, nc)
    {
      RowMajorAt(nr, nc, k);
    }
  }

  /** Every member of every cell is a ring id below n. */
  ghost predicate OccupantsBelow(windows: seq<seq<seq<int>>>, capacity: seq<seq<int>>, nr: int, nc: int, n: int)
    requires WellFormed(windows, capacity, nr, nc)
  {
    forall i, j, k :: 0 <= i < nr && 0 <= j < nc && 0 <= k < capacity[i][j] ==> 0 <= windows[i][j][k] < n
  }

  lemma OccupantsFromItems(windows: seq<seq<seq<int>>>, capacity: seq<seq<int>>, nr: int, nc: int,
                           items: seq<int>, cells: seq<Cell>, n: int)
    requires WellFormed(windows, capacity, nr, nc) && |items| == |cells|
    requires Filled(windows, capacity, nr, nc, items, cells)
    requires forall k :: 0 <= k < |items| ==> 0 <= items[k] < n
    ensures OccupantsBelow(windows, capacity, nr, nc, n)
  {
    forall i, j, k | 0 <= i < nr && 0 <= j < nc && 0 <= k < capacity[i][j]
      ensures 0 <= windows[i][j][k] < n
    {
      var x := windows[i][j][k];
      assert x == Occ(windows, capacity, nr, nc, i, j)[k];
      BucketMembership(items, cells, (i, j), x);
    }
  }

  /** n fresh, unresolved flags. */
  function Unresolved(n: nat): (r: seq<bool>)
    ensures |r| == n && forall k :: 0 <= k < n ==> !r[k]
  {
    seq(n, _ => false)
  }

  lemma AppendSnoc<T>(a: seq<T>, b: seq<T>, x: T)
    ensures (a + b) + [x] == a + (b + [x])
  {
  }

  /** Writing x at slot cap extends the first cap slots by x. */
  lemma SlotPrefix<T>(w: seq<T>, cap: int, x: T)
    requires 0 <= cap <= |w|
    ensures WriteSlot(w, cap, x)[..cap + 1] == w[..cap] + [x]
  {
    var w' := WriteSlot(w, cap, x);
    assert w'[..cap + 1] == w'[..cap] + [w'[cap]];
  }

  // ---------------------------------------------------------------------
  // The detector
  // ---------------------------------------------------------------------

  /** The counter before the k-th `update` call (k from 0): the constructor leaves 1. */
  function CheckerCounter(k: nat, updateFreq: int): int
    requires updateFreq > 0
  {
    if k == 0 then 1 else GateStep(CheckerCounter(k - 1, updateFreq), updateFreq)
  }

  lemma {:induction false} CheckerCounterShift(k: nat, updateFreq: int)
    requires updateFreq > 0
    ensures CheckerCounter(k, updateFreq) == CounterAfter(k + 1, updateFreq)
  {
    if k == 0 {
      assert Rebuilds(0, updateFreq);
    } else {
      CheckerCounterShift(k - 1, updateFreq);
    }
  }

  /**
   * Starting from the constructor's counter of 1, the call numbered k + 1
   * (counting from 1) recomputes the collisions exactly when k + 1 is a
   * multiple of `update_freq`.
   */
  lemma CheckerSchedule(k: nat, updateFreq: int)
    requires updateFreq > 0
    ensures Rebuilds(CheckerCounter(k, updateFreq), updateFreq) <==> (k + 1) % updateFreq == 0
  {
    CheckerCounterShift(k, updateFreq);
    RebuildSchedule(k + 1, updateFreq);
  }

  class InPolChecker {
    const numVerts: int
    const updateFreq: int
    const disable: bool
    const windowsManager: WindowsManager
    var collisions: seq<ColInfo>
    var isColResolved: seq<bool>
    var numCollisions: int
    var numInsidePoints: int
    var insidePoints: seq<Point>
    var counter: int
    var toCalcForces: bool

    /** The reusable buffers: both counts advance together and fit their storage. */
    ghost predicate Buffers()
      reads this
    {
      0 <= numCollisions == numInsidePoints &&
      numCollisions <= |collisions| == |isColResolved| &&
      numInsidePoints <= |insidePoints|
    }

    ghost predicate Valid()
      reads this, windowsManager
    {
      numVerts >= 0 && updateFreq > 0 && Buffers() &&
      windowsManager.Valid() && Layout(windowsManager)
    }

    /** The live records: the first `numCollisions` slots. */
    ghost function Log(): seq<ColInfo>
      reads this
      requires Buffers()
    {
      collisions[..numCollisions]
    }

    /** The live inside points: the first `numInsidePoints` slots. */
    ghost function Points(): seq<Point>
      reads this
      requires Buffers()
    {
      insidePoints[..numInsidePoints]
    }

    /** The resolved flags of the live records. */
    ghost function Flags(): seq<bool>
      reads this
      requires Buffers()
    {
      isColResolved[..numCollisions]
    }

    /** The buffers hold the records of the calls `done`, none of them resolved yet. */
    ghost predicate Holds(pols: seq<seq<Point>>, done: seq<Call>)
      reads this
    {
      Buffers() && Recorded(pols, numVerts, done, Log(), Points(), Flags())
    }

    constructor (pols: seq<seq<Point>>, centerMass: seq<Point>, height: real, length: real,
                 numColWindows: int, updateFreq: int, disable: bool)
      requires |pols| > 0 && height > 0.0 && length > 0.0 && numColWindows > 0 && updateFreq > 0
      ensures Valid()
      ensures numVerts == |pols[0]| && this.updateFreq == updateFreq && this.disable == disable
      ensures windowsManager.numRows == numColWindows && windowsManager.numCols == numColWindows
      ensures windowsManager.height == height && windowsManager.length == length
      ensures windowsManager.centerX == 0.0 && windowsManager.centerY == 0.0
      ensures counter == 1 && !toCalcForces
      ensures numCollisions == 0 && numInsidePoints == 0
      ensures collisions == [] && isColResolved == [] && insidePoints == []
    {
      var wm := new WindowsManager(centerMass, numColWindows, numColWindows, height, length, 0.0, 0.0);
      LayoutShape(wm);
      windowsManager := wm;
      numVerts := |pols[0]|;
      this.updateFreq := updateFreq;
      this.disable := disable;
      collisions := [];
      isColResolved := [];
      insidePoints := [];
      numInsidePoints := 0;
      numCollisions := 0;
      counter := 1;
      toCalcForces := false;
    }

    /** `is_inside_pol`: the crossing-parity test of (x, y) against ring polId. */
    method IsInsidePol(pols: seq<seq<Point>>, x: real, y: real, polId: int) returns (isInside: bool)
      requires 0 <= polId < |pols| && 1 <= numVerts <= |pols[polId]|
      ensures isInside == Inside(pols[polId], numVerts, x, y)
    {
      var pol := pols[polId];
      isInside := false;
      var i := 0;
      while i < numVerts - 1
        invariant 0 <= i <= numVerts - 1
        invariant isInside == (Crossings(pol, numVerts, x, y, i) % 2 == 1)
      {
        var vert1, vert2 := pol[i], pol[i + 1];
        assert EdgeOf(pol, numVerts, i) == (vert1, vert2);
        ghost var c := Crossings(pol, numVerts, x, y, i);
        assert Crossings(pol, numVerts, x, y, i + 1) == c + (if EdgeCrosses(vert1, vert2, x, y) then 1 else 0);
        var test1 := (vert2.1 > y) != (vert1.1 > y);
        if test1 {
          var test2 := x < CrossingX(vert1, vert2, y);
          if test2 {
            isInside := !isInside;
          }
        }
        i := i + 1;
      }
      var vert1, vert2 := pol[numVerts - 1], pol[0];
      assert EdgeOf(pol, numVerts, numVerts - 1) == (vert1, vert2);
      ghost var c := Crossings(pol, numVerts, x, y, numVerts - 1);
      assert Crossings(pol, numVerts, x, y, numVerts) == c + (if EdgeCrosses(vert1, vert2, x, y) then 1 else 0);
      var test1 := (vert2.1 > y) != (vert1.1 > y);
      if test1 {
        var test2 := x < CrossingX(vert1, vert2, y);
        if test2 {
          isInside := !isInside;
        }
      }
    }

    /**
     * `check_intersection`: every vertex of ring polId inside ring otherId is
     * recorded, in vertex order, in the next free slot of the buffers (reused,
     * else appended), unresolved; earlier records are kept.
     */
    method CheckIntersection(pols: seq<seq<Point>>, polId: int, otherId: int)
      requires Buffers() && PolsFit(pols, numVerts)
      requires 0 <= polId < |pols| && 0 <= otherId < |pols|
      modifies this`collisions, this`isColResolved, this`numCollisions, this`numInsidePoints, this`insidePoints
      ensures Buffers()
      ensures var hits := VertexHits(pols, numVerts, polId, otherId, numVerts);
              HitsIn(pols, hits) &&
              Log() == old(Log()) + hits &&
              Points() == old(Points()) + HitPoints(pols, hits) &&
              Flags() == old(Flags()) + Unresolved(|hits|)
    {
      ghost var log0, pts0, flags0 := Log(), Points(), Flags();
      ghost var hits: seq<ColInfo> := [];
      var p := 0;
      while p < numVerts
        invariant 0 <= p <= numVerts && Buffers()
        invariant hits == VertexHits(pols, numVerts, polId, otherId, p) && HitsIn(pols, hits)
        invariant Log() == log0 + hits
        invariant Points() == pts0 + HitPoints(pols, hits)
        invariant Flags() == flags0 + Unresolved(|hits|)
      {
        var v := pols[polId][p];
        var inside := IsInsidePol(pols, v.0, v.1, otherId);
        VertexHitsStep(pols, numVerts, polId, otherId, p, inside);
        if inside {
          var c := ColInfo(polId, p, otherId);
          Record(v, c);
          HitPointsSnoc(pols, hits, c);
          AppendSnoc(log0, hits, c);
          AppendSnoc(pts0, HitPoints(pols, hits), v);
          AppendSnoc(flags0, Unresolved(|hits|), false);
          assert Unresolved(|hits|) + [false] == Unresolved(|hits| + 1);
          hits := hits + [c];
        } else {
          assert hits + [] == hits;
        }
        p := p + 1;
      }
    }

    /**
     * The critical section of `check_intersection`: the vertex and its record
     * go to the next free slot (reused when storage exists, else appended),
     * the record unresolved, and both counts advance.
     */
    method Record(v: Point, c: ColInfo)
      requires Buffers()
      modifies this`collisions, this`isColResolved, this`numCollisions, this`numInsidePoints, this`insidePoints
      ensures Buffers()
      ensures Log() == old(Log()) + [c]
      ensures Points() == old(Points()) + [v]
      ensures Flags() == old(Flags()) + [false]
    {
      SlotPrefix(insidePoints, numInsidePoints, v);
      SlotPrefix(collisions, numCollisions, c);
      SlotPrefix(isColResolved, numCollisions, false);
      if |insidePoints| > numInsidePoints {
        insidePoints := insidePoints[numInsidePoints := v];
      } else {
        insidePoints := insidePoints + [v];
      }
      if |collisions| > numCollisions {
        collisions := collisions[numCollisions := c];
        isColResolved := isColResolved[numCollisions := false];
      } else {
        collisions := collisions + [c];
        isColResolved := isColResolved + [false];
      }
      numCollisions := numCollisions + 1;
      numInsidePoints := numInsidePoints + 1;
    }

    /**
     * `update`: nothing when disabled; otherwise the gate of `update_freq`
     * calls.  On the calls it lets through, the windows are rebuilt from the
     * centres of mass of the active rings, the buffers are emptied and every
     * candidate pair is checked in both directions, so the buffers then hold
     * exactly the records of those calls, all unresolved.
     */
    method Update(pols: seq<seq<Point>>, centerMass: seq<Point>, ids: seq<int>, numActive: int)
      requires Valid() && PolsFit(pols, numVerts)
      requires 0 <= numActive <= |ids| && windowsManager.Placeable(centerMass, ids[..numActive])
      requires forall k :: 0 <= k < numActive ==> 0 <= ids[k] < |pols|
      modifies this, windowsManager
      ensures Valid()
      ensures disable ==> unchanged(this, windowsManager)
      ensures !disable ==> counter == GateStep(old(counter), updateFreq) &&
                           toCalcForces == Rebuilds(old(counter), updateFreq)
      ensures !disable && !Rebuilds(old(counter), updateFreq) ==>
                unchanged(windowsManager) &&
                collisions == old(collisions) && isColResolved == old(isColResolved) &&
                insidePoints == old(insidePoints) &&
                numCollisions == old(numCollisions) && numInsidePoints == old(numInsidePoints)
      ensures !disable && Rebuilds(old(counter), updateFreq) ==>
                var wm := windowsManager;
                Filled(wm.windows, wm.capacity, wm.numRows, wm.numCols,
                       ids[..numActive], wm.IdCells(centerMass, ids[..numActive])) &&
                Holds(pols, ScanCalls(wm.windows, wm.capacity, wm.numRows, wm.numCols,
                                      wm.windowsIds, wm.windowNeighbor, |wm.windowsIds|))
    {
      if disable {
        return;
      }
      if counter % updateFreq == 0 {
        toCalcForces := true;
        counter := 1;
      } else {
        toCalcForces := false;
        counter := counter + 1;
        return;
      }
      windowsManager.UpdateWindowMembers(centerMass, ids, numActive);
      var wm := windowsManager;
      OccupantsFromItems(wm.windows, wm.capacity, wm.numRows, wm.numCols,
                         ids[..numActive], wm.IdCells(centerMass, ids[..numActive]), |pols|);
      numInsidePoints := 0;
      numCollisions := 0;
      assert Unresolved(0) == [];
      ScanWindows(pols, wm.windows, wm.capacity, wm.numRows, wm.numCols, wm.windowsIds, wm.windowNeighbor);
    }

    /**
     * The innermost loops of the scan: ring polId against each of
     * window[from..to), both directions each time.
     */
    method CheckPairs(pols: seq<seq<Point>>, polId: int, window: seq<int>, from: int, to: int, ghost done: seq<Call>)
      requires Buffers() && Holds(pols, done) && 0 <= polId < |pols|
      requires 0 <= from <= to <= |window| && forall j :: from <= j < to ==> 0 <= window[j] < |pols|
      modifies this`collisions, this`isColResolved, this`numCollisions, this`numInsidePoints, this`insidePoints
      ensures Buffers()
      ensures Holds(pols, done + PairsWith(polId, window[from..to]))
    {
      ghost var cur := done;
      var j := from;
      while j < to
        invariant from <= j <= to
        invariant Buffers()
        invariant cur == done + PairsWith(polId, window[from..j])
        invariant Holds(pols, cur)
      {
        var otherId := window[j];
        CheckBoth(pols, polId, otherId, cur);
        cur := cur + [(polId, otherId)] + [(otherId, polId)];
        SliceSnoc(window, from, j);
        PairsWithSnoc(done, polId, window[from..j], otherId);
        j := j + 1;
      }
    }

    /** One pair of rings checked in both directions: polId against otherId, then otherId against polId. */
    method CheckBoth(pols: seq<seq<Point>>, polId: int, otherId: int, ghost done: seq<Call>)
      requires Holds(pols, done) && 0 <= polId < |pols| && 0 <= otherId < |pols|
      modifies this`collisions, this`isColResolved, this`numCollisions, this`numInsidePoints, this`insidePoints
      ensures Holds(pols, done + [(polId, otherId)] + [(otherId, polId)])
    {
      ghost var log, pts, flags := Log(), Points(), Flags();
      CheckIntersection(pols, polId, otherId);
      RecordedStep(pols, numVerts, done, polId, otherId, log, pts, flags, Log(), Points(), Flags());
      log, pts, flags := Log(), Points(), Flags();
      CheckIntersection(pols, otherId, polId);
      RecordedStep(pols, numVerts, done + [(polId, otherId)], otherId, polId, log, pts, flags, Log(), Points(), Flags());
    }

    /** Ring polId against every member of each listed neighbour cell, in list order. */
    method CheckNeighbours(pols: seq<seq<Point>>, polId: int, windows: seq<seq<seq<int>>>, capacity: seq<seq<int>>,
                           ghost nr: int, ghost nc: int, neighbors: seq<Cell>, ghost done: seq<Call>)
      requires Buffers() && Holds(pols, done) && 0 <= polId < |pols|
      requires WellFormed(windows, capacity, nr, nc) && OccupantsBelow(windows, capacity, nr, nc, |pols|)
      requires AllInGrid(neighbors, nr, nc)
      modifies this`collisions, this`isColResolved, this`numCollisions, this`numInsidePoints, this`insidePoints
      ensures Buffers()
      ensures Holds(pols, done + StencilCalls(windows, capacity, nr, nc, polId, neighbors, |neighbors|))
    {
      ghost var cur := done;
      var k := 0;
      while k < |neighbors|
        invariant 0 <= k <= |neighbors|
        invariant Buffers()
        invariant cur == done + StencilCalls(windows, capacity, nr, nc, polId, neighbors, k)
        invariant Holds(pols, cur)
      {
        var neighId := neighbors[k];
        assert InGrid(neighId, nr, nc);
        var neighWindow := windows[neighId.0][neighId.1];
        var neighWindowCap := capacity[neighId.0][neighId.1];
        CheckPairs(pols, polId, neighWindow, 0, neighWindowCap, cur);
        cur := cur + PairsWith(polId, neighWindow[0..neighWindowCap]);
        StencilCallsStep(windows, capacity, nr, nc, polId, neighbors, k, done);
        k := k + 1;
      }
    }

    /**
     * Each member of cell c against the later members of c and then against
     * the members of each neighbour cell.
     */
    method CheckMembers(pols: seq<seq<Point>>, c: Cell, windows: seq<seq<seq<int>>>, capacity: seq<seq<int>>,
                        ghost nr: int, ghost nc: int, neighbors: seq<Cell>, ghost done: seq<Call>)
      requires Buffers() && Holds(pols, done)
      requires WellFormed(windows, capacity, nr, nc) && OccupantsBelow(windows, capacity, nr, nc, |pols|)
      requires InGrid(c, nr, nc) && AllInGrid(neighbors, nr, nc)
      modifies this`collisions, this`isColResolved, this`numCollisions, this`numInsidePoints, this`insidePoints
      ensures Buffers()
      ensures Holds(pols, done + MemberCalls(windows, capacity, nr, nc, c, neighbors, capacity[c.0][c.1]))
    {
      var windowsCap := capacity[c.0][c.1];
      var i := 0;
      assert done + MemberCalls(windows, capacity, nr, nc, c, neighbors, 0) == done;
      while i < windowsCap
        invariant 0 <= i <= windowsCap
        invariant Holds(pols, done + MemberCalls(windows, capacity, nr, nc, c, neighbors, i))
      {
        CheckMember(pols, c, i, windows, capacity, nr, nc, neighbors, done);
        i := i + 1;
      }
    }

    /** Member i of cell c against the later members of c and then against the members of each neighbour cell. */
    method CheckMember(pols: seq<seq<Point>>, c: Cell, i: int, windows: seq<seq<seq<int>>>, capacity: seq<seq<int>>,
                       ghost nr: int, ghost nc: int, neighbors: seq<Cell>, ghost done: seq<Call>)
      requires WellFormed(windows, capacity, nr, nc) && OccupantsBelow(windows, capacity, nr, nc, |pols|)
      requires InGrid(c, nr, nc) && AllInGrid(neighbors, nr, nc) && 0 <= i < capacity[c.0][c.1]
      requires Holds(pols, done + MemberCalls(windows, capacity, nr, nc, c, neighbors, i))
      modifies this`collisions, this`isColResolved, this`numCollisions, this`numInsidePoints, this`insidePoints
      ensures Holds(pols, done + MemberCalls(windows, capacity, nr, nc, c, neighbors, i + 1))
    {
      var window := windows[c.0][c.1];
      var windowsCap := capacity[c.0][c.1];
      ghost var occ := Occ(windows, capacity, nr, nc, c.0, c.1);
      ghost var cur := done + MemberCalls(windows, capacity, nr, nc, c, neighbors, i);
      var polId := window[i];
      CheckPairs(pols, polId, window, i + 1, windowsCap, cur);
      PrefixSlice(window, windowsCap, i + 1);
      cur := cur + PairsWith(polId, occ[i + 1..]);
      CheckNeighbours(pols, polId, windows, capacity, nr, nc, neighbors, cur);
      cur := cur + StencilCalls(windows, capacity, nr, nc, polId, neighbors, |neighbors|);
      MemberCallsStep(windows, capacity, nr, nc, c, neighbors, i, done);
    }

    /**
     * The scan of `update`: for each cell in visiting order and each member
     * of it, the member against every later member of the cell, then against
     * every member of each neighbour cell, both directions each time.
     */
    method ScanWindows(pols: seq<seq<Point>>, windows: seq<seq<seq<int>>>, capacity: seq<seq<int>>,
                       ghost nr: int, ghost nc: int, cells: seq<Cell>, neigh: seq<seq<seq<Cell>>>)
      requires Buffers() && Holds(pols, [])
      requires WellFormed(windows, capacity, nr, nc) && OccupantsBelow(windows, capacity, nr, nc, |pols|)
      requires AllInGrid(cells, nr, nc) && NeighShape(neigh, nr, nc)
      modifies this`collisions, this`isColResolved, this`numCollisions, this`numInsidePoints, this`insidePoints
      ensures Buffers()
      ensures Holds(pols, ScanCalls(windows, capacity, nr, nc, cells, neigh, |cells|))
    {
      var w := 0;
      assert ScanCalls(windows, capacity, nr, nc, cells, neigh, 0) == [];
      while w < |cells|
        invariant 0 <= w <= |cells|
        invariant Holds(pols, ScanCalls(windows, capacity, nr, nc, cells, neigh, w))
      {
        ScanCell(pols, windows, capacity, nr, nc, cells, neigh, w);
        w := w + 1;
      }
    }

    /** One cell of the scan: its members against the rest of the cell and the neighbour cells. */
    method ScanCell(pols: seq<seq<Point>>, windows: seq<seq<seq<int>>>, capacity: seq<seq<int>>,
                    ghost nr: int, ghost nc: int, cells: seq<Cell>, neigh: seq<seq<seq<Cell>>>, w: int)
      requires WellFormed(windows, capacity, nr, nc) && OccupantsBelow(windows, capacity, nr, nc, |pols|)
      requires AllInGrid(cells, nr, nc) && NeighShape(neigh, nr, nc) && 0 <= w < |cells|
      requires Holds(pols, ScanCalls(windows, capacity, nr, nc, cells, neigh, w))
      modifies this`collisions, this`isColResolved, this`numCollisions, this`numInsidePoints, this`insidePoints
      ensures Holds(pols, ScanCalls(windows, capacity, nr, nc, cells, neigh, w + 1))
    {
      ghost var done := ScanCalls(windows, capacity, nr, nc, cells, neigh, w);
      var winId := cells[w];
      ScanCallsStep(windows, capacity, nr, nc, cells, neigh, w);
      var neighbors := neigh[winId.0][winId.1];
      CheckMembers(pols, winId, windows, capacity, nr, nc, neighbors, done);
    }
  }
}
