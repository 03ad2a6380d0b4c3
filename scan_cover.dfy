/**
 * What the scan of `InPolChecker::update` covers.  The scan visits the cells
 * in row-major order and, for each member, pairs it with the later members of
 * its own cell and with every member of the cell's four half-stencil
 * neighbours, both orders each time.  On a grid of at least 3 x 3 cells this
 * is exactly the set of ordered pairs of occupants of the same cell (distinct
 * slots) or of Moore-neighbouring cells; and the records it leaves are
 * exactly the vertices of one ring of such a pair inside the other.
 */
module ScanCover {
  import opened Numeric
  import opened Grid
  import opened InPol

  // ---------------------------------------------------------------------
  // Membership in each layer of the scan
  // ---------------------------------------------------------------------

  lemma {:induction false} PairsWithHas(x: int, ys: seq<int>, t: int)
    requires 0 <= t < |ys|
    ensures (x, ys[t]) in PairsWith(x, ys) && (ys[t], x) in PairsWith(x, ys)
  {
    var n := |ys| - 1;
    if t < n {
      PairsWithHas(x, ys[..n], t);
    }
  }

  lemma {:induction false} PairsWithWitness(x: int, ys: seq<int>, p: Call) returns (t: int)
    requires p in PairsWith(x, ys)
    ensures 0 <= t < |ys| && (p == (x, ys[t]) || p == (ys[t], x))
  {
    var n := |ys| - 1;
    if p in PairsWith(x, ys[..n]) {
      t := PairsWithWitness(x, ys[..n], p);
    } else {
      t := n;
    }
  }

  lemma {:induction false} StencilCallsHas(windows: seq<seq<seq<int>>>, capacity: seq<seq<int>>, nr: int, nc: int,
                                           x: int, nbs: seq<Cell>, k: int, m: int, p: Call)
    requires WellFormed(windows, capacity, nr, nc) && AllInGrid(nbs, nr, nc) && 0 <= m < k <= |nbs|
    requires p in PairsWith(x, Occ(windows, capacity, nr, nc, nbs[m].0, nbs[m].1))
    ensures p in StencilCalls(windows, capacity, nr, nc, x, nbs, k)
  {
    if m < k - 1 {
      StencilCallsHas(windows, capacity, nr, nc, x, nbs, k - 1, m, p);
    }
  }

  lemma {:induction false} StencilCallsWitness(windows: seq<seq<seq<int>>>, capacity: seq<seq<int>>, nr: int, nc: int,
                                               x: int, nbs: seq<Cell>, k: int, p: Call) returns (m: int)
    requires WellFormed(windows, capacity, nr, nc) && AllInGrid(nbs, nr, nc) && 0 <= k <= |nbs|
    requires p in StencilCalls(windows, capacity, nr, nc, x, nbs, k)
    ensures 0 <= m < k && p in PairsWith(x, Occ(windows, capacity, nr, nc, nbs[m].0, nbs[m].1))
  {
    if p in StencilCalls(windows, capacity, nr, nc, x, nbs, k - 1) {
      m := StencilCallsWitness(windows, capacity, nr, nc, x, nbs, k - 1, p);
    } else {
      m := k - 1;
    }
  }

  /** The calls made for member s of cell c. */
  ghost predicate FromMember(windows: seq<seq<seq<int>>>, capacity: seq<seq<int>>, nr: int, nc: int,
                             c: Cell, nbs: seq<Cell>, s: int, p: Call)
    requires WellFormed(windows, capacity, nr, nc) && InGrid(c, nr, nc) && AllInGrid(nbs, nr, nc)
    requires 0 <= s < capacity[c.0][c.1]
  {
    var occ := Occ(windows, capacity, nr, nc, c.0, c.1);
    p in PairsWith(occ[s], occ[s + 1..]) || p in StencilCalls(windows, capacity, nr, nc, occ[s], nbs, |nbs|)
  }

  lemma {:induction false} MemberCallsHas(windows: seq<seq<seq<int>>>, capacity: seq<seq<int>>, nr: int, nc: int,
                                          c: Cell, nbs: seq<Cell>, i: int, s: int, p: Call)
    requires WellFormed(windows, capacity, nr, nc) && InGrid(c, nr, nc) && AllInGrid(nbs, nr, nc)
    requires 0 <= s < i <= capacity[c.0][c.1]
    requires FromMember(windows, capacity, nr, nc, c, nbs, s, p)
    ensures p in MemberCalls(windows, capacity, nr, nc, c, nbs, i)
  {
    if s < i - 1 {
      MemberCallsHas(windows, capacity, nr, nc, c, nbs, i - 1, s, p);
    }
  }

  lemma {:induction false} MemberCallsWitness(windows: seq<seq<seq<int>>>, capacity: seq<seq<int>>, nr: int, nc: int,
                                              c: Cell, nbs: seq<Cell>, i: int, p: Call) returns (s: int)
    requires WellFormed(windows, capacity, nr, nc) && InGrid(c, nr, nc) && AllInGrid(nbs, nr, nc)
    requires 0 <= i <= capacity[c.0][c.1]
    requires p in MemberCalls(windows, capacity, nr, nc, c, nbs, i)
    ensures 0 <= s < i && FromMember(windows, capacity, nr, nc, c, nbs, s, p)
  {
    if p in MemberCalls(windows, capacity, nr, nc, c, nbs, i - 1) {
      s := MemberCallsWitness(windows, capacity, nr, nc, c, nbs, i - 1, p);
    } else {
      s := i - 1;
    }
  }

  /** The calls made for cell number v of the visiting order. */
  ghost predicate FromCell(windows: seq<seq<seq<int>>>, capacity: seq<seq<int>>, nr: int, nc: int,
                           cells: seq<Cell>, neigh: seq<seq<seq<Cell>>>, v: int, p: Call)
    requires WellFormed(windows, capacity, nr, nc) && AllInGrid(cells, nr, nc) && NeighShape(neigh, nr, nc)
    requires 0 <= v < |cells|
  {
    var c := cells[v];
    p in MemberCalls(windows, capacity, nr, nc, c, neigh[c.0][c.1], capacity[c.0][c.1])
  }

  lemma {:induction false} ScanCallsHas(windows: seq<seq<seq<int>>>, capacity: seq<seq<int>>, nr: int, nc: int,
                                        cells: seq<Cell>, neigh: seq<seq<seq<Cell>>>, w: int, v: int, p: Call)
    requires WellFormed(windows, capacity, nr, nc) && AllInGrid(cells, nr, nc) && NeighShape(neigh, nr, nc)
    requires 0 <= v < w <= |cells| && FromCell(windows, capacity, nr, nc, cells, neigh, v, p)
    ensures p in ScanCalls(windows, capacity, nr, nc, cells, neigh, w)
  {
    if v < w - 1 {
      ScanCallsHas(windows, capacity, nr, nc, cells, neigh, w - 1, v, p);
    }
  }

  lemma {:induction false} ScanCallsWitness(windows: seq<seq<seq<int>>>, capacity: seq<seq<int>>, nr: int, nc: int,
                                            cells: seq<Cell>, neigh: seq<seq<seq<Cell>>>, w: int, p: Call) returns (v: int)
    requires WellFormed(windows, capacity, nr, nc) && AllInGrid(cells, nr, nc) && NeighShape(neigh, nr, nc)
    requires 0 <= w <= |cells| && p in ScanCalls(windows, capacity, nr, nc, cells, neigh, w)
    ensures 0 <= v < w && FromCell(windows, capacity, nr, nc, cells, neigh, v, p)
  {
    if p in ScanCalls(windows, capacity, nr, nc, cells, neigh, w - 1) {
      v := ScanCallsWitness(windows, capacity, nr, nc, cells, neigh, w - 1, p);
    } else {
      v := w - 1;
    }
  }

  // ---------------------------------------------------------------------
  // The pairs the scan is meant to check
  // ---------------------------------------------------------------------

  /**
   * Slot i of cell x and slot j of cell y are occupied and either distinct
   * slots of one cell or slots of two touching cells.
   */
  ghost predicate Adjacent(windows: seq<seq<seq<int>>>, capacity: seq<seq<int>>, nr: int, nc: int,
                           x: Cell, i: int, y: Cell, j: int)
    requires WellFormed(windows, capacity, nr, nc)
  {
    InGrid(x, nr, nc) && InGrid(y, nr, nc) &&
    0 <= i < capacity[x.0][x.1] && 0 <= j < capacity[y.0][y.1] &&
    ((x == y && i != j) || MooreNeighbours(x, y, nr, nc))
  }

  /** The layout the manager builds: row-major cells and half-stencil neighbours. */
  ghost predicate StencilLayout(cells: seq<Cell>, neigh: seq<seq<seq<Cell>>>, nr: int, nc: int)
  {
    nr >= 3 && nc >= 3 && cells == RowMajor(nr, nc) && AllInGrid(cells, nr, nc) &&
    NeighShape(neigh, nr, nc) &&
    forall a, b :: 0 <= a < nr && 0 <= b < nc ==> neigh[a][b] == Stencil(a, b, nr, nc)
  }

  /**
   * A member of cell number w paired with a later member of the same cell or
   * with a member of one of its neighbour cells is called in both orders.
   */
  lemma ScannedBoth(windows: seq<seq<seq<int>>>, capacity: seq<seq<int>>, nr: int, nc: int,
                    cells: seq<Cell>, neigh: seq<seq<seq<Cell>>>, w: int, i: int, y: Cell, j: int)
    requires WellFormed(windows, capacity, nr, nc) && AllInGrid(cells, nr, nc) && NeighShape(neigh, nr, nc)
    requires 0 <= w < |cells| && InGrid(y, nr, nc)
    requires var x := cells[w];
             0 <= i < capacity[x.0][x.1] && 0 <= j < capacity[y.0][y.1] &&
             ((y == x && i < j) || y in neigh[x.0][x.1])
    ensures var x := cells[w];
            var a, b := windows[x.0][x.1][i], windows[y.0][y.1][j];
            var calls := ScanCalls(windows, capacity, nr, nc, cells, neigh, |cells|);
            (a, b) in calls && (b, a) in calls
  {
    var x := cells[w];
    assert InGrid(x, nr, nc);
    var nbs := neigh[x.0][x.1];
    var cap := capacity[x.0][x.1];
    var occ := Occ(windows, capacity, nr, nc, x.0, x.1);
    var a, b := windows[x.0][x.1][i], windows[y.0][y.1][j];
    assert occ[i] == a;
    if y == x && i < j {
      assert occ[i + 1..][j - i - 1] == b;
      PairsWithHas(a, occ[i + 1..], j - i - 1);
    } else {
      var m :| 0 <= m < |nbs| && nbs[m] == y;
      assert Occ(windows, capacity, nr, nc, y.0, y.1)[j] == b;
      PairsWithHas(a, Occ(windows, capacity, nr, nc, y.0, y.1), j);
      StencilCallsHas(windows, capacity, nr, nc, a, nbs, |nbs|, m, (a, b));
      StencilCallsHas(windows, capacity, nr, nc, a, nbs, |nbs|, m, (b, a));
    }
    MemberCallsHas(windows, capacity, nr, nc, x, nbs, cap, i, (a, b));
    MemberCallsHas(windows, capacity, nr, nc, x, nbs, cap, i, (b, a));
    ScanCallsHas(windows, capacity, nr, nc, cells, neigh, |cells|, w, (a, b));
    ScanCallsHas(windows, capacity, nr, nc, cells, neigh, |cells|, w, (b, a));
  }

  /** Every pair of occupants of one cell or of touching cells is checked, in both orders. */
  lemma ScanChecksAdjacent(windows: seq<seq<seq<int>>>, capacity: seq<seq<int>>, nr: int, nc: int,
                           cells: seq<Cell>, neigh: seq<seq<seq<Cell>>>, x: Cell, i: int, y: Cell, j: int)
    requires WellFormed(windows, capacity, nr, nc) && StencilLayout(cells, neigh, nr, nc)
    requires Adjacent(windows, capacity, nr, nc, x, i, y, j)
    ensures var calls := ScanCalls(windows, capacity, nr, nc, cells, neigh, |cells|);
            var a, b := windows[x.0][x.1][i], windows[y.0][y.1][j];
            (a, b) in calls && (b, a) in calls
  {
    RowMajorIndexOf(nr, nc, x.0, x.1);
    RowMajorIndexOf(nr, nc, y.0, y.1);
    var wx, wy := x.0 * nc + x.1, y.0 * nc + y.1;
    if x == y {
      if i < j {
        ScannedBoth(windows, capacity, nr, nc, cells, neigh, wx, i, y, j);
      } else {
        ScannedBoth(windows, capacity, nr, nc, cells, neigh, wy, j, x, i);
      }
    } else {
      StencilCoversOnce(x, y, nr, nc);
      if y in Stencil(x.0, x.1, nr, nc) {
        ScannedBoth(windows, capacity, nr, nc, cells, neigh, wx, i, y, j);
      } else {
        ScannedBoth(windows, capacity, nr, nc, cells, neigh, wy, j, x, i);
      }
    }
  }

  /** Every call of the scan is one such pair. */
  lemma ScanCallsAreAdjacent(windows: seq<seq<seq<int>>>, capacity: seq<seq<int>>, nr: int, nc: int,
                             cells: seq<Cell>, neigh: seq<seq<seq<Cell>>>, p: Call)
    requires WellFormed(windows, capacity, nr, nc) && StencilLayout(cells, neigh, nr, nc)
    requires p in ScanCalls(windows, capacity, nr, nc, cells, neigh, |cells|)
    ensures exists x, i, y, j :: Adjacent(windows, capacity, nr, nc, x, i, y, j) &&
                                 p == (windows[x.0][x.1][i], windows[y.0][y.1][j])
  {
    var v := ScanCallsWitness(windows, capacity, nr, nc, cells, neigh, |cells|, p);
    var x := cells[v];
    assert InGrid(x, nr, nc);
    var nbs := neigh[x.0][x.1];
    var occ := Occ(windows, capacity, nr, nc, x.0, x.1);
    var s := MemberCallsWitness(windows, capacity, nr, nc, x, nbs, capacity[x.0][x.1], p);
    var a := occ[s];
    if p in PairsWith(a, occ[s + 1..]) {
      var t := PairsWithWitness(a, occ[s + 1..], p);
      var j := s + 1 + t;
      assert occ[s + 1..][t] == windows[x.0][x.1][j];
      if p == (a, occ[s + 1..][t]) {
        assert Adjacent(windows, capacity, nr, nc, x, s, x, j);
      } else {
        assert Adjacent(windows, capacity, nr, nc, x, j, x, s);
      }
    } else {
      var m := StencilCallsWitness(windows, capacity, nr, nc, a, nbs, |nbs|, p);
      var y := nbs[m];
      assert InGrid(y, nr, nc);
      var occY := Occ(windows, capacity, nr, nc, y.0, y.1);
      var t := PairsWithWitness(a, occY, p);
      assert occY[t] == windows[y.0][y.1][t];
      StencilDistinct(x.0, x.1, nr, nc);
      StencilCoversOnce(x, y, nr, nc);
      assert MooreNeighbours(x, y, nr, nc) && MooreNeighbours(y, x, nr, nc);
      if p == (a, occY[t]) {
        assert Adjacent(windows, capacity, nr, nc, x, s, y, t);
      } else {
        assert Adjacent(windows, capacity, nr, nc, y, t, x, s);
      }
    }
  }

  /**
   * The scan's calls are exactly the ordered pairs of occupants of one cell
   * (distinct slots) or of two touching cells.
   */
  lemma ScanCallsExactlyAdjacent(windows: seq<seq<seq<int>>>, capacity: seq<seq<int>>, nr: int, nc: int,
                                 cells: seq<Cell>, neigh: seq<seq<seq<Cell>>>, p: Call)
    requires WellFormed(windows, capacity, nr, nc) && StencilLayout(cells, neigh, nr, nc)
    ensures p in ScanCalls(windows, capacity, nr, nc, cells, neigh, |cells|) <==>
            exists x, i, y, j :: Adjacent(windows, capacity, nr, nc, x, i, y, j) &&
                                 p == (windows[x.0][x.1][i], windows[y.0][y.1][j])
  {
    if p in ScanCalls(windows, capacity, nr, nc, cells, neigh, |cells|) {
      ScanCallsAreAdjacent(windows, capacity, nr, nc, cells, neigh, p);
    } else if exists x, i, y, j :: Adjacent(windows, capacity, nr, nc, x, i, y, j) &&
                                   p == (windows[x.0][x.1][i], windows[y.0][y.1][j]) {
      var x, i, y, j :| Adjacent(windows, capacity, nr, nc, x, i, y, j) &&
                        p == (windows[x.0][x.1][i], windows[y.0][y.1][j]);
      ScanChecksAdjacent(windows, capacity, nr, nc, cells, neigh, x, i, y, j);
    }
  }

  // ---------------------------------------------------------------------
  // The records a sequence of calls leaves
  // ---------------------------------------------------------------------

  /**
   * A record is left by the calls exactly when its vertex exists and lies
   * inside the other ring of a call made in that order.
   */
  lemma {:induction false} ScanHitsMembers(pols: seq<seq<Point>>, numVerts: int, calls: seq<Call>, c: ColInfo)
    requires PolsFit(pols, numVerts) && CallsIn(calls, |pols|)
    ensures c in ScanHits(pols, numVerts, calls) <==>
              (c.ringId, c.colRingId) in calls &&
              0 <= c.ringId < |pols| && 0 <= c.colRingId < |pols| && 0 <= c.pId < numVerts &&
              Inside(pols[c.colRingId], numVerts, pols[c.ringId][c.pId].0, pols[c.ringId][c.pId].1)
  {
    if calls != [] {
      var n := |calls| - 1;
      var last := calls[n];
      assert calls == calls[..n] + [last];
      assert CallsIn(calls[..n], |pols|) by {
        forall k | 0 <= k < n
          ensures 0 <= calls[..n][k].0 < |pols| && 0 <= calls[..n][k].1 < |pols|
        {
          assert calls[..n][k] == calls[k];
        }
      }
      ScanHitsMembers(pols, numVerts, calls[..n], c);
      VertexHitsMembers(pols, numVerts, last.0, last.1, numVerts, c);
      if (c.ringId, c.colRingId) in calls {
        assert (c.ringId, c.colRingId) in calls[..n] || (c.ringId, c.colRingId) == last;
      }
    }
  }

  /**
   * The log a rebuilding `update` leaves: a record is present exactly when
   * its vertex lies inside the other ring and the two rings occupy one cell
   * (distinct slots) or touching cells.
   */
  lemma ScanLogExactly(pols: seq<seq<Point>>, numVerts: int,
                       windows: seq<seq<seq<int>>>, capacity: seq<seq<int>>, nr: int, nc: int,
                       cells: seq<Cell>, neigh: seq<seq<seq<Cell>>>, log: seq<ColInfo>, c: ColInfo)
    requires WellFormed(windows, capacity, nr, nc) && StencilLayout(cells, neigh, nr, nc)
    requires var calls := ScanCalls(windows, capacity, nr, nc, cells, neigh, |cells|);
             PolsFit(pols, numVerts) && CallsIn(calls, |pols|) && log == ScanHits(pols, numVerts, calls)
    ensures c in log <==>
              (exists x, i, y, j :: Adjacent(windows, capacity, nr, nc, x, i, y, j) &&
                                    (c.ringId, c.colRingId) == (windows[x.0][x.1][i], windows[y.0][y.1][j])) &&
              0 <= c.ringId < |pols| && 0 <= c.colRingId < |pols| && 0 <= c.pId < numVerts &&
              Inside(pols[c.colRingId], numVerts, pols[c.ringId][c.pId].0, pols[c.ringId][c.pId].1)
  {
    var calls := ScanCalls(windows, capacity, nr, nc, cells, neigh, |cells|);
    ScanHitsMembers(pols, numVerts, calls, c);
    ScanCallsExactlyAdjacent(windows, capacity, nr, nc, cells, neigh, (c.ringId, c.colRingId));
  }
}
