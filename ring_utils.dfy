/**
 * The ring utilities: the step count of a time interval, the array-shape
 * helpers of `RetangularGrid`, the per-layer count on the grid widened by the
 * out-of-grid border cells and their removal, the circle masks, the floored
 * `RegularGrid.coords`, and the link/neighbour adjacency builders.
 */
module RingUtils {
  import opened Wrappers
  import opened Numeric
  import opened CellGrids

  // ---------------------------------------------------------------------
  // time_to_num_dt
  // ---------------------------------------------------------------------

  /**
   * `time_to_num_dt`: `time // dt`, plus one when that many steps fall
   * short of `time`. For dt > 0 this is the least n with n*dt >= time; a zero
   * dt raises `ZeroDivisionError`.
   */
  function TimeToNumDt(time: real, dt: real): (r: Result<int>)
    ensures r.Err? <==> dt == 0.0
    ensures r.Err? ==> r.error == ZeroDivisionError
    ensures r.Ok? && dt > 0.0 ==> r.value as real * dt >= time && (r.value - 1) as real * dt < time
  {
    if dt == 0.0 then Err(ZeroDivisionError)
    else
      var n := (time / dt).Floor;
      var steps := if dt * n as real < time then n + 1 else n;
      assert dt > 0.0 ==> steps as real * dt >= time && (steps - 1) as real * dt < time by {
        if dt > 0.0 {
          FloorLocates(time, dt);
        }
      }
      Ok(steps)
  }

  /** No smaller step count covers the interval: the result is the least one. */
  lemma TimeToNumDtLeast(time: real, dt: real, m: int)
    requires dt > 0.0 && m as real * dt >= time
    ensures TimeToNumDt(time, dt).Ok? && TimeToNumDt(time, dt).value <= m
  {
    var n := TimeToNumDt(time, dt).value;
    if m < n {
      MulLeR(m as real, (n - 1) as real, dt);
      assert false;
    }
  }

  // ---------------------------------------------------------------------
  // adjust_shape and simplify_shape
  // ---------------------------------------------------------------------

  /** The number of elements of an array of this shape. */
  function Size(shape: seq<nat>): nat
  {
    if shape == [] then 1 else shape[0] * Size(shape[1..])
  }

  /**
   * `adjust_shape`: an array with `expected` axes gets a leading axis of
   * length 1; one with `expected + 1` is kept; any other rank raises.
   * The elements, and the last `expected` axes, are unchanged.
   */
  function AdjustShape(shape: seq<nat>, expected: nat): (r: Result<seq<nat>>)
    ensures r.Ok? <==> |shape| == expected || |shape| == expected + 1
    ensures r.Err? ==> r.error == Exception
    ensures r.Ok? ==> |r.value| == expected + 1 && Size(r.value) == Size(shape)
    ensures r.Ok? ==> r.value[1..] == shape[|shape| - expected..]
  {
    if |shape| == expected then
      assert ([1] + shape)[1..] == shape;
      Ok([1] + shape)
    else if |shape| != expected + 1 then Err(Exception)
    else Ok(shape)
  }

  /**
   * `simplify_shape`: a leading axis of length 1 is dropped; the elements
   * are unchanged. A zero-rank array has no `shape[0]` and raises
   * IndexError; a one-element vector (shape `[1]`) would be reshaped to no
   * axes at all, which numpy's `reshape()` with no arguments refuses with a
   * TypeError.
   */
  function SimplifyShape(shape: seq<nat>): (r: Result<seq<nat>>)
    ensures r.Err? <==> shape == [] || shape == [1]
    ensures shape == [] ==> r == Err(IndexError)
    ensures shape == [1] ==> r == Err(TypeError)
    ensures r.Ok? ==> Size(r.value) == Size(shape)
    ensures r.Ok? ==> r.value == shape || [1] + r.value == shape
  {
    if shape == [] then Err(IndexError)
    else if shape[0] == 1 then
      if |shape| == 1 then Err(TypeError)
      else
        assert shape == [1] + shape[1..];
        Ok(shape[1..])
    else Ok(shape)
  }

  /**
   * Simplifying an adjusted array gives back the shape it had, except for a
   * zero-rank array, whose adjusted shape `[1]` cannot be simplified.
   */
  lemma SimplifyUndoesAdjust(shape: seq<nat>, expected: nat)
    requires |shape| == expected
    ensures AdjustShape(shape, expected).Ok?
    ensures shape != [] ==> SimplifyShape(AdjustShape(shape, expected).value) == Ok(shape)
    ensures shape == [] ==> SimplifyShape(AdjustShape(shape, expected).value) == Err(TypeError)
  {
    assert ([1] + shape)[1..] == shape;
  }

  // ---------------------------------------------------------------------
  // count on the widened grid, remove_cells_out_of_bounds
  // ---------------------------------------------------------------------

  /**
   * `RetangularGrid.count` for one layer: the grid is widened by two rows
   * and two columns (`shape + 2`), so the markers -1 and shape of `coords`
   * have cells of their own (-1 reaching the last one).
   */
  function CountLayer(coords: seq<Coord>, nc: nat, nr: nat): (r: Result<seq<seq<nat>>>)
    ensures r.Ok? ==> |r.value| == nr + 2 && forall row :: 0 <= row < nr + 2 ==> |r.value[row]| == nc + 2
  {
    CellGrids.Count(coords, nc + 2, nr + 2)
  }

  /** Python's `s[:-2]`. */
  function DropTwo<T>(s: seq<T>): (r: seq<T>)
    ensures |s| >= 2 ==> r == s[..|s| - 2]
    ensures |s| < 2 ==> r == []
  {
    if |s| >= 2 then s[..|s| - 2] else []
  }

  /** `remove_cells_out_of_bounds` on one layer: `data[:-2, :-2]`. */
  function RemoveCellsOutOfBounds<T>(data: seq<seq<T>>): (r: seq<seq<T>>)
    ensures |r| == |DropTwo(data)| && forall i :: 0 <= i < |r| ==> r[i] == DropTwo(data[i])
  {
    seq(|DropTwo(data)|, i requires 0 <= i < |DropTwo(data)| => DropTwo(data[i]))
  }

  /** `remove_cells_out_of_bounds` with `many_layers`: `data[:, :-2, :-2]`. */
  function RemoveCellsOutOfBoundsLayers<T>(data: seq<seq<seq<T>>>): (r: seq<seq<seq<T>>>)
    ensures |r| == |data| && forall k :: 0 <= k < |data| ==> r[k] == RemoveCellsOutOfBounds(data[k])
  {
    seq(|data|, k requires 0 <= k < |data| => RemoveCellsOutOfBounds(data[k]))
  }

  /**
   * For coordinates clamped by `coords`, the widened count never raises;
   * after `remove_cells_out_of_bounds` it is an nr x nc grid holding, in
   * each cell, the number of coordinates naming it; the removed row nr and
   * column nc count the coordinates marked shape, the removed last row and
   * column those marked -1.
   */
  lemma CountLayerSpec(coords: seq<Coord>, nc: nat, nr: nat, col: int, row: int)
    requires forall i :: 0 <= i < |coords| ==> Clamped(coords[i], nc, nr)
    requires -1 <= col <= nc && -1 <= row <= nr
    ensures CountLayer(coords, nc, nr).Ok?
    ensures var g := CountLayer(coords, nc, nr).value;
            var rr := if row == -1 then nr + 1 else row;
            var cc := if col == -1 then nc + 1 else col;
            g[rr][cc] == multiset(coords)[(col, row)]
  {
    var m := multiset(coords);
    forall i | 0 <= i < |coords|
      ensures AxisIndex(coords[i].0, nc + 2).Some? && AxisIndex(coords[i].1, nr + 2).Some?
    {
    }
    var rr := if row == -1 then nr + 1 else row;
    var cc := if col == -1 then nc + 1 else col;
    forall c | c in m
      ensures Clamped(c, nc, nr)
    {
      var i :| 0 <= i < |coords| && coords[i] == c;
    }
    if row == -1 && col == -1 {
      assert (cc, rr) !in m && (cc, rr - (nr + 2)) !in m && (cc - (nc + 2), rr) !in m;
    } else if row == -1 {
      assert (cc, rr) !in m;
    } else if col == -1 {
      assert (cc, rr) !in m && (cc, rr - (nr + 2)) !in m;
    } else {
      assert (cc, rr - (nr + 2)) !in m && (cc - (nc + 2), rr) !in m && (cc - (nc + 2), rr - (nr + 2)) !in m;
    }
  }

  /** The count with the border cells removed: in-grid cells count their own coordinates. */
  lemma RemovedCountSpec(coords: seq<Coord>, nc: nat, nr: nat, col: int, row: int)
    requires forall i :: 0 <= i < |coords| ==> Clamped(coords[i], nc, nr)
    requires 0 <= col < nc && 0 <= row < nr
    ensures CountLayer(coords, nc, nr).Ok?
    ensures var t := RemoveCellsOutOfBounds(CountLayer(coords, nc, nr).value);
            |t| == nr && |t[row]| == nc && t[row][col] == multiset(coords)[(col, row)]
  {
    CountLayerSpec(coords, nc, nr, col, row);
  }

  // ---------------------------------------------------------------------
  // circle_mask
  // ---------------------------------------------------------------------

  /**
   * `circle_mask`: "outside" marks the cells with no corner strictly inside
   * the circle, "inside" those with every corner inside, "intersect" the
   * rest; any other mode raises `ValueError`.
   */
  function CircleMask(xs: seq<real>, ys: seq<real>, radius: real, center: Point, mode: string): (r: Result<seq<seq<bool>>>)
    requires |xs| >= 1 && |ys| >= 1
    ensures r.Err? <==> mode !in {"outside", "inside", "intersect"}
    ensures r.Err? ==> r.error == ValueError
    ensures r.Ok? ==> |r.value| == |ys| - 1 && forall i :: 0 <= i < |ys| - 1 ==> |r.value[i]| == |xs| - 1
  {
    if mode == "outside" then
      Ok(Mask(xs, ys, (i, j) => 0 <= j < |xs| - 1 && 0 <= i < |ys| - 1 && NoCornerInside(xs, ys, i, j, radius, center)))
    else if mode == "inside" then
      Ok(Mask(xs, ys, (i, j) => 0 <= j < |xs| - 1 && 0 <= i < |ys| - 1 && AllCornersInside(xs, ys, i, j, radius, center)))
    else if mode == "intersect" then
      Ok(Mask(xs, ys, (i, j) => 0 <= j < |xs| - 1 && 0 <= i < |ys| - 1 &&
                                !NoCornerInside(xs, ys, i, j, radius, center) &&
                                !AllCornersInside(xs, ys, i, j, radius, center)))
    else Err(ValueError)
  }

  /** The three modes split the cells: every cell is in exactly one of the masks. */
  lemma CircleMaskPartition(xs: seq<real>, ys: seq<real>, radius: real, center: Point, i: int, j: int)
    requires |xs| >= 1 && |ys| >= 1 && 0 <= i < |ys| - 1 && 0 <= j < |xs| - 1
    ensures var o := CircleMask(xs, ys, radius, center, "outside").value[i][j];
            var n := CircleMask(xs, ys, radius, center, "inside").value[i][j];
            var x := CircleMask(xs, ys, radius, center, "intersect").value[i][j];
            (o || n || x) && !(o && n) && !(o && x) && !(n && x)
  {
  }

  /**
   * The "inside" mask is sound: every point of a marked cell is strictly
   * inside the circle.
   */
  lemma InsideMaskSound(xs: seq<real>, ys: seq<real>, radius: real, center: Point, i: int, j: int, p: Point)
    requires |xs| >= 1 && |ys| >= 1 && 0 <= i < |ys| - 1 && 0 <= j < |xs| - 1
    requires CircleMask(xs, ys, radius, center, "inside").value[i][j]
    requires xs[j] <= p.0 <= xs[j + 1] && ys[i] <= p.1 <= ys[i + 1]
    ensures Sq(p.0 - center.0) + Sq(p.1 - center.1) < radius * radius
  {
    AllCornersInsideCell(xs, ys, i, j, radius, center, p);
  }

  /** `intersect_circle_mask` of the grids modules is the "outside" mode. */
  lemma IntersectCircleMaskIsOutside(xs: seq<real>, ys: seq<real>, radius: real, center: Point)
    requires |xs| >= 1 && |ys| >= 1
    ensures IntersectCircleMask(xs, ys, radius, center) == CircleMask(xs, ys, radius, center, "outside").value
  {
  }

  // ---------------------------------------------------------------------
  // RegularGrid.coords
  // ---------------------------------------------------------------------

  /** A points array: shape (N, 2), shape (M, N, 2), or any other rank. */
  datatype PointArray = Flat(points: seq<Point>) | Layered(layers: seq<seq<Point>>) | OtherRank(rank: nat)

  /** A coordinates array: shape (N, 2) or (M, N, 2). */
  datatype CoordArray = FlatCoords(coords: seq<Coord>) | LayeredCoords(coordLayers: seq<seq<Coord>>)

  function CoordsOfLayer(g: RegularGrid, pts: seq<Point>, check: bool): (c: seq<Coord>)
    requires g.Valid()
    ensures |c| == |pts| && forall i :: 0 <= i < |pts| ==> c[i] == CoordFloor(g, pts[i], check)
  {
    seq(|pts|, i requires 0 <= i < |pts| => CoordFloor(g, pts[i], check))
  }

  /**
   * `RegularGrid.coords` of the ring utilities: a rank-2 array is treated as
   * one layer; each point gets its floored (and, with `check_out_of_bounds`,
   * clamped) cell; a single layer is flattened back with `simplify_shape`;
   * any other rank raises.
   */
  function Coords(g: RegularGrid, a: PointArray, checkOutOfBounds: bool, simplify: bool): (r: Result<CoordArray>)
    requires g.Valid()
    ensures r.Err? <==> a.OtherRank?
    ensures r.Err? ==> r.error == Exception
    ensures r.Ok? ==> (r.value.FlatCoords? <==> simplify && (a.Flat? || |a.layers| == 1))
  {
    var layers := if a.Flat? then [a.points] else if a.Layered? then a.layers else [];
    if a.OtherRank? then Err(Exception)
    else
      var cs := seq(|layers|, k requires 0 <= k < |layers| => CoordsOfLayer(g, layers[k], checkOutOfBounds));
      if simplify && |cs| == 1 then Ok(FlatCoords(cs[0])) else Ok(LayeredCoords(cs))
  }

  /** Point i of layer k of the input. */
  function PointAt(a: PointArray, k: int, i: int): Point
    requires !a.OtherRank?
  {
    var layers := if a.Flat? then [a.points] else a.layers;
    if 0 <= k < |layers| && 0 <= i < |layers[k]| then layers[k][i] else (0.0, 0.0)
  }

  /** Coordinate i of layer k of the result (a flat result is layer 0). */
  function CoordAt(c: CoordArray, k: int, i: int): Coord
  {
    var layers := if c.FlatCoords? then [c.coords] else c.coordLayers;
    if 0 <= k < |layers| && 0 <= i < |layers[k]| then layers[k][i] else (0, 0)
  }

  /** Coordinate i of layer k of the result is the floored, clamped cell of point i of layer k. */
  lemma CoordsAt(g: RegularGrid, a: PointArray, simplify: bool, k: int, i: int)
    requires g.Valid() && !a.OtherRank?
    requires 0 <= k && 0 <= i
    requires a.Flat? ==> k == 0 && i < |a.points|
    requires a.Layered? ==> k < |a.layers| && i < |a.layers[k]|
    ensures Coords(g, a, true, simplify).Ok?
    ensures CoordAt(Coords(g, a, true, simplify).value, k, i) == CoordFloor(g, PointAt(a, k, i), true)
  {
    var layers := if a.Flat? then [a.points] else a.layers;
    var cs := seq(|layers|, j requires 0 <= j < |layers| => CoordsOfLayer(g, layers[j], true));
    assert cs[k][i] == CoordFloor(g, layers[k][i], true);
  }

  /**
   * With `check_out_of_bounds`, every coordinate `coords` returns locates
   * its point: it is clamped into [-1, shape] and names the cell holding the
   * point, -1 and shape marking points before and past the grid.
   */
  lemma CoordsSpec(g: RegularGrid, a: PointArray, simplify: bool, k: int, i: int)
    requires g.Valid() && !a.OtherRank?
    requires 0 <= k && 0 <= i
    requires a.Flat? ==> k == 0 && i < |a.points|
    requires a.Layered? ==> k < |a.layers| && i < |a.layers[k]|
    ensures Coords(g, a, true, simplify).Ok?
    ensures Locates(g, PointAt(a, k, i), CoordAt(Coords(g, a, true, simplify).value, k, i))
  {
    CoordsAt(g, a, simplify, k, i);
    CoordFloorSpec(g, PointAt(a, k, i));
  }

  // ---------------------------------------------------------------------
  // neighbors_all, links_ids, neighbors_list
  // ---------------------------------------------------------------------

  type Link = (int, int)

  /** Every endpoint can index a Python list of length n. */
  predicate Endpoints(links: seq<Link>, n: nat)
  {
    forall i :: 0 <= i < |links| ==> AxisIndex(links[i].0, n).Some? && AxisIndex(links[i].1, n).Some?
  }

  /** Every endpoint is a node id in [0, n). */
  predicate NodeIds(links: seq<Link>, n: nat)
  {
    forall i :: 0 <= i < |links| ==> 0 <= links[i].0 < n && 0 <= links[i].1 < n
  }

  /** The list `neighbors_all` builds for node k. */
  function NeighsOf(links: seq<Link>, n: nat, k: int): seq<int>
  {
    if links == [] then []
    else
      var m := |links| - 1;
      NeighsOf(links[..m], n, k)
        + (if AxisIndex(links[m].0, n) == Some(k) then [links[m].1] else [])
        + (if AxisIndex(links[m].1, n) == Some(k) then [links[m].0] else [])
  }

  /** The list `links_ids` builds for node k. */
  function LinksIdsOf(links: seq<Link>, n: nat, k: int): seq<int>
  {
    if links == [] then []
    else
      var m := |links| - 1;
      LinksIdsOf(links[..m], n, k)
        + (if AxisIndex(links[m].0, n) == Some(k) then [m] else [])
        + (if AxisIndex(links[m].1, n) == Some(k) then [m] else [])
  }

  /**
   * `neighbors_all`: for each link (a, b) in order, b is appended to the
   * list of a and a to the list of b. An endpoint the list cannot index
   * raises `IndexError`.
   */
  method NeighborsAll(links: seq<Link>, n: nat) returns (r: Result<seq<seq<int>>>)
    ensures r.Err? <==> !Endpoints(links, n)
    ensures r.Err? ==> r.error == IndexError
    ensures r.Ok? ==> |r.value| == n && forall k :: 0 <= k < n ==> r.value[k] == NeighsOf(links, n, k)
  {
    var neighs: seq<seq<int>> := seq(n, _ => []);
    var i := 0;
    while i < |links|
      invariant 0 <= i <= |links| && Endpoints(links[..i], n)
      invariant |neighs| == n && forall k :: 0 <= k < n ==> neighs[k] == NeighsOf(links[..i], n, k)
    {
      var l := links[i];
      var a := AxisIndex(l.0, n);
      if a.None? {
        return Err(IndexError);
      }
      neighs := neighs[a.value := neighs[a.value] + [l.1]];
      var b := AxisIndex(l.1, n);
      if b.None? {
        return Err(IndexError);
      }
      neighs := neighs[b.value := neighs[b.value] + [l.0]];
      assert links[..i + 1][..i] == links[..i];
      i := i + 1;
    }
    assert links[..i] == links;
    r := Ok(neighs);
  }

  /**
   * `links_ids`: for each link i = (a, b) in order, i is appended to the
   * lists of a and of b. An endpoint the list cannot index raises
   * `IndexError`.
   */
  method LinksIds(links: seq<Link>, n: nat) returns (r: Result<seq<seq<int>>>)
    ensures r.Err? <==> !Endpoints(links, n)
    ensures r.Err? ==> r.error == IndexError
    ensures r.Ok? ==> |r.value| == n && forall k :: 0 <= k < n ==> r.value[k] == LinksIdsOf(links, n, k)
  {
    var ids: seq<seq<int>> := seq(n, _ => []);
    var i := 0;
    while i < |links|
      invariant 0 <= i <= |links| && Endpoints(links[..i], n)
      invariant |ids| == n && forall k :: 0 <= k < n ==> ids[k] == LinksIdsOf(links[..i], n, k)
    {
      var l := links[i];
      var a := AxisIndex(l.0, n);
      if a.None? {
        return Err(IndexError);
      }
      ids := ids[a.value := ids[a.value] + [i]];
      var b := AxisIndex(l.1, n);
      if b.None? {
        return Err(IndexError);
      }
      ids := ids[b.value := ids[b.value] + [i]];
      assert links[..i + 1][..i] == links[..i];
      i := i + 1;
    }
    assert links[..i] == links;
    r := Ok(ids);
  }

  /** The endpoint of link l that is not k (k itself for a self-link). */
  function Other(l: Link, k: int): int
  {
    if l.0 == k then l.1 else l.0
  }

  /**
   * `neighbors_all` and `links_ids` line up: entry m of node k's neighbour
   * list is the other endpoint of the link named by entry m of its link-id
   * list, and that link touches k.
   */
  lemma {:induction false} NeighsMatchLinkIds(links: seq<Link>, n: nat, k: int)
    requires NodeIds(links, n)
    ensures |NeighsOf(links, n, k)| == |LinksIdsOf(links, n, k)|
    ensures forall m :: 0 <= m < |LinksIdsOf(links, n, k)| ==>
              0 <= LinksIdsOf(links, n, k)[m] < |links| &&
              (links[LinksIdsOf(links, n, k)[m]].0 == k || links[LinksIdsOf(links, n, k)[m]].1 == k) &&
              NeighsOf(links, n, k)[m] == Other(links[LinksIdsOf(links, n, k)[m]], k)
  {
    if links != [] {
      var p := |links| - 1;
      var pre := links[..p];
      assert NodeIds(pre, n) by {
        forall i | 0 <= i < |pre| ensures 0 <= pre[i].0 < n && 0 <= pre[i].1 < n {
          assert pre[i] == links[i];
        }
      }
      NeighsMatchLinkIds(pre, n, k);
      var ids := LinksIdsOf(links, n, k);
      var ns := NeighsOf(links, n, k);
      var idsP := LinksIdsOf(pre, n, k);
      forall m | 0 <= m < |ids|
        ensures 0 <= ids[m] < |links| && (links[ids[m]].0 == k || links[ids[m]].1 == k) &&
                ns[m] == Other(links[ids[m]], k)
      {
        if m < |idsP| {
          assert ids[m] == idsP[m];
          assert links[ids[m]] == pre[idsP[m]];
        }
      }
    }
  }

  /** For node ids, membership in the neighbour list is being linked. */
  lemma {:induction false} InNeighs(links: seq<Link>, n: nat, a: int, b: int)
    requires NodeIds(links, n)
    ensures b in NeighsOf(links, n, a) <==>
            exists i :: 0 <= i < |links| && (links[i] == (a, b) || links[i] == (b, a))
  {
    if links != [] {
      var p := |links| - 1;
      assert NodeIds(links[..p], n) by {
        forall i | 0 <= i < p ensures 0 <= links[..p][i].0 < n && 0 <= links[..p][i].1 < n {
          assert links[..p][i] == links[i];
        }
      }
      InNeighs(links[..p], n, a, b);
      if exists i :: 0 <= i < |links| && (links[i] == (a, b) || links[i] == (b, a)) {
        var i :| 0 <= i < |links| && (links[i] == (a, b) || links[i] == (b, a));
        if i < p {
          assert links[..p][i] == links[i];
        }
      }
      if exists i :: 0 <= i < p && (links[..p][i] == (a, b) || links[..p][i] == (b, a)) {
        var i :| 0 <= i < p && (links[..p][i] == (a, b) || links[..p][i] == (b, a));
        assert links[i] == links[..p][i];
      }
    }
  }

  /** `neighbors_all` is symmetric: b is a neighbour of a iff a is one of b. */
  lemma NeighborsSymmetric(links: seq<Link>, n: nat, a: int, b: int)
    requires NodeIds(links, n)
    ensures b in NeighsOf(links, n, a) <==> a in NeighsOf(links, n, b)
  {
    InNeighs(links, n, a, b);
    InNeighs(links, n, b, a);
  }

  /** The per-node list lengths, as a sequence. */
  function Lengths(s: seq<seq<int>>): (r: seq<int>)
    ensures |r| == |s| && forall k :: 0 <= k < |s| ==> r[k] == |s[k]|
  {
    seq(|s|, k requires 0 <= k < |s| => |s[k]|)
  }

  /** The list lengths of `neighbors_all` for the first links. */
  ghost function NeighLengths(links: seq<Link>, n: nat): seq<int>
  {
    seq(n, k => |NeighsOf(links, n, k)|)
  }

  /** Each link adds one entry to the list of each endpoint. */
  lemma NeighLengthsStep(links: seq<Link>, n: nat, a: int, b: int)
    requires |links| > 0
    requires AxisIndex(links[|links| - 1].0, n) == Some(a) && AxisIndex(links[|links| - 1].1, n) == Some(b)
    ensures var s := NeighLengths(links[..|links| - 1], n);
            0 <= a < n && 0 <= b < n &&
            NeighLengths(links, n) == s[a := s[a] + 1][b := s[a := s[a] + 1][b] + 1]
  {
  }

  /**
   * `neighbors_all` lists every link twice, once at each endpoint: the
   * list lengths add up to twice the number of links.
   */
  lemma {:induction false} NeighborsTotal(links: seq<Link>, n: nat)
    requires Endpoints(links, n)
    ensures SumInt(NeighLengths(links, n)) == 2 * |links|
  {
    if links == [] {
      assert NeighLengths(links, n) == seq(n, _ => 0);
      ZeroSum(n);
    } else {
      var p := |links| - 1;
      assert Endpoints(links[..p], n) by {
        forall i | 0 <= i < p ensures AxisIndex(links[..p][i].0, n).Some? && AxisIndex(links[..p][i].1, n).Some? {
          assert links[..p][i] == links[i];
        }
      }
      NeighborsTotal(links[..p], n);
      var a := AxisIndex(links[p].0, n).value;
      var b := AxisIndex(links[p].1, n).value;
      NeighLengthsStep(links, n, a, b);
      var s := NeighLengths(links[..p], n);
      SumIntUpdate(s, a, s[a] + 1);
      SumIntUpdate(s[a := s[a] + 1], b, s[a := s[a] + 1][b] + 1);
    }
  }

  lemma {:induction false} ZeroSum(n: nat)
    ensures SumInt(seq(n, _ => 0)) == 0
  {
    if n > 0 {
      assert seq(n, _ => 0)[..n - 1] == seq(n - 1, _ => 0);
      ZeroSum(n - 1);
    }
  }

  /** The second endpoints of the links whose first endpoint is pid (`links[links[:, 0] == pid][:, 1]`). */
  function Seconds(links: seq<Link>, pid: int): seq<int>
  {
    if links == [] then []
    else
      var m := |links| - 1;
      Seconds(links[..m], pid) + (if links[m].0 == pid then [links[m].1] else [])
  }

  /** The first endpoints of the links whose second endpoint is pid. */
  function Firsts(links: seq<Link>, pid: int): seq<int>
  {
    if links == [] then []
    else
      var m := |links| - 1;
      Firsts(links[..m], pid) + (if links[m].1 == pid then [links[m].0] else [])
  }

  /**
   * `neighbors_list`: for each pid in order, the second endpoints of the
   * links starting at pid followed by the first endpoints of those ending
   * at pid.
   */
  method NeighborsList(links: seq<Link>, posList: seq<int>) returns (neighs: seq<seq<int>>)
    ensures |neighs| == |posList|
    ensures forall i :: 0 <= i < |posList| ==> neighs[i] == Seconds(links, posList[i]) + Firsts(links, posList[i])
  {
    neighs := [];
    var i := 0;
    while i < |posList|
      invariant 0 <= i <= |posList| && |neighs| == i
      invariant forall j :: 0 <= j < i ==> neighs[j] == Seconds(links, posList[j]) + Firsts(links, posList[j])
    {
      var pid := posList[i];
      neighs := neighs + [Seconds(links, pid) + Firsts(links, pid)];
      i := i + 1;
    }
  }

  /**
   * For node ids, `neighbors_list` finds the same neighbours of a node as
   * `neighbors_all`, in a possibly different order.
   */
  lemma {:induction false} NeighborsListAgrees(links: seq<Link>, n: nat, k: int)
    requires NodeIds(links, n) && 0 <= k < n
    ensures multiset(Seconds(links, k) + Firsts(links, k)) == multiset(NeighsOf(links, n, k))
  {
    if links != [] {
      var p := |links| - 1;
      assert NodeIds(links[..p], n) by {
        forall i | 0 <= i < p ensures 0 <= links[..p][i].0 < n && 0 <= links[..p][i].1 < n {
          assert links[..p][i] == links[i];
        }
      }
      NeighborsListAgrees(links[..p], n, k);
    }
  }
}
