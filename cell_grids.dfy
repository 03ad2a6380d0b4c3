/**
 * The Python cell grids (`RetangularGrid`/`RegularGrid` of the data
 * utilities and of the ring quantities): the cell coordinate of a point,
 * the filtering of out-of-grid coordinates, per-cell counts, sums and means,
 * and the masks of cells against a circle.  Grids are indexed [row][col];
 * a coordinate is (col, row).  numpy index semantics (negative indices count
 * from the end, others past the end raise) are written out.
 */
module CellGrids {
  import opened Wrappers
  import opened Numeric
  import DataTypes

  /** A grid coordinate (column, row). */
  type Coord = (int, int)

  /** The element numpy's `a[k]` reaches along an axis of length n, if any. */
  function AxisIndex(k: int, n: nat): Option<int>
  {
    DataTypes.PyIndex(k, n)
  }

  /**
   * `RegularGrid(length, height, num_cols, num_rows, center)`: a
   * length x height rectangle centred at `center` cut into equal cells (the
   * `linspace` edges taken in exact arithmetic).
   */
  datatype RegularGrid = RegularGrid(length: real, height: real, numCols: nat, numRows: nat, center: Point)
  {
    ghost predicate Valid()
    {
      length > 0.0 && height > 0.0 && numCols > 0 && numRows > 0
    }

    /** `cell_size`: the width of a column and the height of a row. */
    function CellSize(): (s: Point)
      requires Valid()
      ensures s.0 > 0.0 && s.1 > 0.0
      ensures numCols as real * s.0 == length && numRows as real * s.1 == height
    {
      (length / numCols as real, height / numRows as real)
    }

    /** The point measured from the grid's lower-left corner. */
    function Offset(p: Point): Point
    {
      (p.0 - center.0 + length / 2.0, p.1 - center.1 + height / 2.0)
    }

    /** The `linspace` edges along x (k = 0 .. num_cols). */
    function EdgesX(): (e: seq<real>)
      requires Valid()
      ensures |e| == numCols + 1
    {
      seq(numCols + 1, k => -length / 2.0 + center.0 + k as real * CellSize().0)
    }

    /** The `linspace` edges along y (k = 0 .. num_rows). */
    function EdgesY(): (e: seq<real>)
      requires Valid()
      ensures |e| == numRows + 1
    {
      seq(numRows + 1, k => -height / 2.0 + center.1 + k as real * CellSize().1)
    }
  }

  // ---------------------------------------------------------------------
  // coords
  // ---------------------------------------------------------------------

  /** The out-of-bounds rule of `coords`: above n becomes n, below 0 becomes -1. */
  function Clamp(k: int, n: nat): (c: int)
    ensures -1 <= c <= n
    ensures 0 <= k <= n ==> c == k
    ensures c == n <==> k >= n
    ensures c == -1 <==> k < 0
  {
    if k > n then n else if k < 0 then -1 else k
  }

  /**
   * `coords` of the data utilities and of the ring quantities: the offset
   * divided by the cell size and truncated toward zero (`astype(int)`), then
   * clamped unless `skip_out_of_bounds`.
   */
  function CoordTrunc(g: RegularGrid, p: Point, skipOutOfBounds: bool): Coord
    requires g.Valid()
  {
    var o := g.Offset(p);
    var s := g.CellSize();
    var col := Trunc(o.0 / s.0);
    var row := Trunc(o.1 / s.1);
    if skipOutOfBounds then (col, row) else (Clamp(col, g.numCols), Clamp(row, g.numRows))
  }

  /**
   * `coords` of the ring utilities: the same offset floored (`np.floor`),
   * then clamped when `check_out_of_bounds`.
   */
  function CoordFloor(g: RegularGrid, p: Point, checkOutOfBounds: bool): Coord
    requires g.Valid()
  {
    var o := g.Offset(p);
    var s := g.CellSize();
    var col := (o.0 / s.0).Floor;
    var row := (o.1 / s.1).Floor;
    if checkOutOfBounds then (Clamp(col, g.numCols), Clamp(row, g.numRows)) else (col, row)
  }

  lemma MulLeR(a: real, b: real, c: real)
    requires a <= b && c >= 0.0
    ensures a * c <= b * c
  {
  }

  lemma MulLtR(a: real, b: real, c: real)
    requires a < b && c > 0.0
    ensures a * c < b * c
  {
  }

  /** Floor division locates an offset: k*size <= off < (k+1)*size for k = floor(off/size). */
  lemma FloorLocates(off: real, size: real)
    requires size > 0.0
    ensures var k := (off / size).Floor;
            k as real * size <= off < (k + 1) as real * size
  {
    var q := off / size;
    var k := q.Floor;
    assert q * size == off;
    assert k as real <= q < (k + 1) as real;
    MulLeR(k as real, q, size);
    MulLtR(q, (k + 1) as real, size);
    assert k as real * size <= off;
    assert off < (k + 1) as real * size;
  }

  /**
   * One axis of the floored, clamped coordinate: -1 exactly before the grid,
   * n exactly from the far border on, and otherwise the cell whose half-open
   * interval holds the offset.
   */
  lemma AxisFloorSpec(off: real, size: real, n: nat, extent: real)
    requires size > 0.0 && n as real * size == extent
    ensures var c := Clamp((off / size).Floor, n);
            (c == -1 <==> off < 0.0) &&
            (c == n <==> off >= extent) &&
            (0 <= c < n ==> c as real * size <= off < (c + 1) as real * size)
  {
    var k := (off / size).Floor;
    FloorLocates(off, size);
    if k < 0 {
      MulLeR((k + 1) as real, 0.0, size);
    } else if k >= n {
      MulLeR(n as real, k as real, size);
    } else {
      MulLeR(0.0, k as real, size);
      MulLeR((k + 1) as real, n as real, size);
    }
  }

  /**
   * Coordinate c locates point p: each component lies in [-1, shape], -1
   * and shape mark exactly the points before and past the grid on that
   * axis, and an in-grid index names the cell whose half-open interval
   * holds the point.
   */
  ghost predicate Locates(g: RegularGrid, p: Point, c: Coord)
    requires g.Valid()
  {
    var o := g.Offset(p);
    var s := g.CellSize();
    Clamped(c, g.numCols, g.numRows) &&
    (c.0 == -1 <==> o.0 < 0.0) && (c.0 == g.numCols <==> o.0 >= g.length) &&
    (c.1 == -1 <==> o.1 < 0.0) && (c.1 == g.numRows <==> o.1 >= g.height) &&
    (0 <= c.0 < g.numCols ==> c.0 as real * s.0 <= o.0 < (c.0 + 1) as real * s.0) &&
    (0 <= c.1 < g.numRows ==> c.1 as real * s.1 <= o.1 < (c.1 + 1) as real * s.1)
  }

  /** `coords` of the ring utilities, with `check_out_of_bounds`, locates every point. */
  lemma CoordFloorSpec(g: RegularGrid, p: Point)
    requires g.Valid()
    ensures Locates(g, p, CoordFloor(g, p, true))
  {
    var o := g.Offset(p);
    var s := g.CellSize();
    AxisFloorSpec(o.0, s.0, g.numCols, g.length);
    AxisFloorSpec(o.1, s.1, g.numRows, g.height);
  }

  /**
   * The truncating `coords` agrees with the floored one for every point
   * that is not before the grid on either axis.
   */
  lemma CoordTruncFromCorner(g: RegularGrid, p: Point)
    requires g.Valid()
    requires g.Offset(p).0 >= 0.0 && g.Offset(p).1 >= 0.0
    ensures CoordTrunc(g, p, false) == CoordFloor(g, p, true)
  {
  }

  /**
   * As written, the truncating `coords` puts a point half a cell left of a
   * 2 x 2 grid into column 0 instead of -1: truncation rounds -0.5 up to 0.
   */
  lemma CoordTruncLeftOfGrid()
    ensures var g := RegularGrid(2.0, 2.0, 2, 2, (0.0, 0.0));
            g.Valid() && g.Offset((-1.5, 0.5)).0 < 0.0 &&
            CoordTrunc(g, (-1.5, 0.5), false) == (0, 1) &&
            CoordFloor(g, (-1.5, 0.5), true) == (-1, 1)
  {
    var g := RegularGrid(2.0, 2.0, 2, 2, (0.0, 0.0));
    assert g.CellSize() == (1.0, 1.0);
    assert g.Offset((-1.5, 0.5)) == (-0.5, 1.5);
    assert (-0.5 / 1.0).Floor == -1;
    assert (1.5 / 1.0).Floor == 1;
  }

  // ---------------------------------------------------------------------
  // filter_coords
  // ---------------------------------------------------------------------

  /** The coordinate names a cell of an nc x nr grid. */
  predicate InGrid(c: Coord, nc: int, nr: int)
  {
    0 <= c.0 < nc && 0 <= c.1 < nr
  }

  /** No component is a border marker (-1 or the shape). */
  predicate OffBorder(c: Coord, nc: int, nr: int)
  {
    c.0 != -1 && c.0 != nc && c.1 != -1 && c.1 != nr
  }

  /** Every component lies in [-1, shape], as `coords` leaves them. */
  predicate Clamped(c: Coord, nc: int, nr: int)
  {
    -1 <= c.0 <= nc && -1 <= c.1 <= nr
  }

  /** numpy boolean-mask selection `coords[mask]`, order kept. */
  function Select(coords: seq<Coord>, keep: Coord -> bool): (r: seq<Coord>)
    ensures |r| <= |coords|
    ensures forall c :: c in r ==> keep(c)
    ensures forall c :: keep(c) ==> multiset(r)[c] == multiset(coords)[c]
  {
    if coords == [] then []
    else
      var n := |coords| - 1;
      assert coords == coords[..n] + [coords[n]];
      Select(coords[..n], keep) + (if keep(coords[n]) then [coords[n]] else [])
  }

  /** `filter_coords` of the data utilities: keep components in [0, shape). */
  function FilterCoords(coords: seq<Coord>, nc: int, nr: int): seq<Coord>
  {
    Select(coords, c => InGrid(c, nc, nr))
  }

  /** `filter_coords` of the ring quantities: drop components equal to -1 or the shape. */
  function FilterBorder(coords: seq<Coord>, nc: int, nr: int): seq<Coord>
  {
    Select(coords, c => OffBorder(c, nc, nr))
  }

  /** The two selections keep exactly the same coordinates. */
  lemma {:induction false} SelectSame(coords: seq<Coord>, k1: Coord -> bool, k2: Coord -> bool)
    requires forall i :: 0 <= i < |coords| ==> (k1(coords[i]) <==> k2(coords[i]))
    ensures Select(coords, k1) == Select(coords, k2)
  {
    if coords != [] {
      SelectSame(coords[..|coords| - 1], k1, k2);
    }
  }

  /**
   * On coordinates that `coords` clamped, the two `filter_coords` versions
   * keep the same coordinates: exactly those inside the grid.
   */
  lemma FiltersAgree(coords: seq<Coord>, nc: nat, nr: nat)
    requires forall i :: 0 <= i < |coords| ==> Clamped(coords[i], nc, nr)
    ensures FilterBorder(coords, nc, nr) == FilterCoords(coords, nc, nr)
    ensures forall c :: c in FilterCoords(coords, nc, nr) ==> InGrid(c, nc, nr)
  {
    SelectSame(coords, c => OffBorder(c, nc, nr), c => InGrid(c, nc, nr));
  }

  // ---------------------------------------------------------------------
  // count
  // ---------------------------------------------------------------------

  /** Every coordinate can index an nc x nr numpy array. */
  predicate Indexable(coords: seq<Coord>, nc: nat, nr: nat)
  {
    forall i :: 0 <= i < |coords| ==> AxisIndex(coords[i].0, nc).Some? && AxisIndex(coords[i].1, nr).Some?
  }

  /**
   * The value `count` leaves in cell (col, row): `np.unique` sorts the
   * distinct coordinates, and the fancy-index assignment lets the last one
   * reaching the cell win, i.e. the multiplicity of the greatest of the four
   * coordinates that wrap onto the cell.
   */
  function CellCount(coords: seq<Coord>, col: int, row: int, nc: nat, nr: nat): nat
  {
    var m := multiset(coords);
    if (col, row) in m then m[(col, row)]
    else if (col, row - nr) in m then m[(col, row - nr)]
    else if (col - nc, row) in m then m[(col - nc, row)]
    else if (col - nc, row - nr) in m then m[(col - nc, row - nr)]
    else 0
  }

  /**
   * `count`: the per-cell counts, transposed to [row][col]; a coordinate
   * numpy cannot index raises `IndexError`.
   */
  function Count(coords: seq<Coord>, nc: nat, nr: nat): (r: Result<seq<seq<nat>>>)
    ensures r.Err? <==> !Indexable(coords, nc, nr)
    ensures r.Err? ==> r.error == IndexError
    ensures r.Ok? ==> |r.value| == nr && forall row :: 0 <= row < nr ==> |r.value[row]| == nc
  {
    if !Indexable(coords, nc, nr) then Err(IndexError)
    else Ok(seq(nr, row => seq(nc, col => CellCount(coords, col, row, nc, nr))))
  }

  /**
   * On in-grid coordinates (what `filter_coords` returns) the count of a
   * cell is the number of coordinates naming it.
   */
  lemma CountInGrid(coords: seq<Coord>, nc: nat, nr: nat, col: int, row: int)
    requires forall i :: 0 <= i < |coords| ==> InGrid(coords[i], nc, nr)
    requires 0 <= col < nc && 0 <= row < nr
    ensures Count(coords, nc, nr).Ok?
    ensures Count(coords, nc, nr).value[row][col] == multiset(coords)[(col, row)]
  {
    assert (col, row - nr) !in multiset(coords);
    assert (col - nc, row) !in multiset(coords);
    assert (col - nc, row - nr) !in multiset(coords);
  }

  /** Counting what `filter_coords` keeps counts each in-grid coordinate of the input. */
  lemma CountFiltered(coords: seq<Coord>, nc: nat, nr: nat, col: int, row: int)
    requires 0 <= col < nc && 0 <= row < nr
    ensures Count(FilterCoords(coords, nc, nr), nc, nr).Ok?
    ensures Count(FilterCoords(coords, nc, nr), nc, nr).value[row][col] == multiset(coords)[(col, row)]
  {
    var f := FilterCoords(coords, nc, nr);
    assert forall i :: 0 <= i < |f| ==> InGrid(f[i], nc, nr) by {
      forall i | 0 <= i < |f| ensures InGrid(f[i], nc, nr) {
        assert f[i] in f;
      }
    }
    CountInGrid(f, nc, nr, col, row);
  }

  // ---------------------------------------------------------------------
  // sum_by_cell and mean_by_cell
  // ---------------------------------------------------------------------

  /** Component-wise sum of two vectors. */
  function VAdd(a: seq<real>, b: seq<real>): (r: seq<real>)
    requires |a| == |b|
    ensures |r| == |a| && forall k :: 0 <= k < |a| ==> r[k] == a[k] + b[k]
  {
    seq(|a|, k requires 0 <= k < |a| => a[k] + b[k])
  }

  /** Row i of `values` has d components (the array's trailing shape). */
  ghost predicate Rows(values: seq<seq<real>>, d: nat)
  {
    forall i :: 0 <= i < |values| ==> |values[i]| == d
  }

  /** Coordinate c reaches cell (col, row) of an nc x nr array. */
  predicate Reaches(c: Coord, col: int, row: int, nc: nat, nr: nat)
  {
    AxisIndex(c.0, nc) == Some(col) && AxisIndex(c.1, nr) == Some(row)
  }

  /** The sum of the values whose coordinate reaches cell (col, row). */
  function CellSum(values: seq<seq<real>>, coords: seq<Coord>, col: int, row: int, nc: nat, nr: nat, d: nat): (s: seq<real>)
    requires Rows(values, d) && |coords| <= |values|
    ensures |s| == d
  {
    if coords == [] then DataTypes.ZeroRow(d)
    else
      var n := |coords| - 1;
      var prev := CellSum(values, coords[..n], col, row, nc, nr, d);
      if Reaches(coords[n], col, row, nc, nr) then VAdd(prev, values[n]) else prev
  }

  /** How many coordinates reach cell (col, row). */
  function Hits(coords: seq<Coord>, col: int, row: int, nc: nat, nr: nat): nat
  {
    if coords == [] then 0
    else
      var n := |coords| - 1;
      Hits(coords[..n], col, row, nc, nr) + (if Reaches(coords[n], col, row, nc, nr) then 1 else 0)
  }

  /** The given coordinates may all be visited by `sum_by_cell` without raising. */
  predicate Summable(values: seq<seq<real>>, coords: seq<Coord>, nc: nat, nr: nat)
  {
    Indexable(coords, nc, nr) && |coords| <= |values|
  }

  /** The nested sequence is an nr x nc grid of d-vectors. */
  ghost predicate VecGrid(g: seq<seq<seq<real>>>, nc: nat, nr: nat, d: nat)
  {
    |g| == nr && forall row :: 0 <= row < nr ==> (|g[row]| == nc &&
      forall col :: 0 <= col < nc ==> |g[row][col]| == d)
  }

  /** The grid of `CellSum`s over a prefix of the coordinates. */
  ghost function SumGrid(values: seq<seq<real>>, coords: seq<Coord>, nc: nat, nr: nat, d: nat): seq<seq<seq<real>>>
    requires Rows(values, d) && |coords| <= |values|
  {
    seq(nr, row => seq(nc, col => CellSum(values, coords, col, row, nc, nr, d)))
  }

  /** Before any value is added, every cell sums to zero. */
  lemma ZeroSumGrid(values: seq<seq<real>>, coords: seq<Coord>, nc: nat, nr: nat, d: nat)
    requires Rows(values, d)
    ensures SumGrid(values, coords[..0], nc, nr, d) == seq(nr, row => seq(nc, col => DataTypes.ZeroRow(d)))
  {
    var z := SumGrid(values, coords[..0], nc, nr, d);
    forall row | 0 <= row < nr
      ensures z[row] == seq(nc, col => DataTypes.ZeroRow(d))
    {
      forall col | 0 <= col < nc
        ensures z[row][col] == DataTypes.ZeroRow(d)
      {
        assert coords[..0] == [];
      }
    }
  }

  /** Adding value `idx` at its cell extends the per-cell sums by one coordinate. */
  lemma SumGridStep(values: seq<seq<real>>, coords: seq<Coord>, idx: int, nc: nat, nr: nat, d: nat,
                    g: seq<seq<seq<real>>>, cc: int, rr: int)
    requires Rows(values, d) && 0 <= idx < |coords| && idx < |values|
    requires g == SumGrid(values, coords[..idx], nc, nr, d)
    requires Reaches(coords[idx], cc, rr, nc, nr)
    ensures 0 <= rr < nr && 0 <= cc < nc
    ensures g[rr := g[rr][cc := VAdd(g[rr][cc], values[idx])]] == SumGrid(values, coords[..idx + 1], nc, nr, d)
  {
    var next := coords[..idx + 1];
    assert next[..idx] == coords[..idx];
    var h := g[rr := g[rr][cc := VAdd(g[rr][cc], values[idx])]];
    var want := SumGrid(values, next, nc, nr, d);
    assert |h| == |want|;
    forall row | 0 <= row < nr
      ensures h[row] == want[row]
    {
      forall col | 0 <= col < nc
        ensures h[row][col] == want[row][col]
      {
        assert want[row][col] == CellSum(values, next, col, row, nc, nr, d);
      }
    }
  }

  /**
   * `sum_by_cell` of the data utilities: each value is added, in order, into
   * the [row][col] cell its coordinate reaches; the result holds, in every
   * cell, the sum of the values whose coordinate reaches that cell. A
   * coordinate numpy cannot index, or a coordinate with no value, raises.
   */
  method SumByCell(values: seq<seq<real>>, coords: seq<Coord>, nc: nat, nr: nat, d: nat)
    returns (r: Result<seq<seq<seq<real>>>>)
    requires Rows(values, d)
    ensures r.Err? <==> !Summable(values, coords, nc, nr)
    ensures r.Err? ==> r.error == IndexError
    ensures r.Ok? ==> VecGrid(r.value, nc, nr, d)
    ensures r.Ok? ==> forall row, col :: 0 <= row < nr && 0 <= col < nc ==>
              r.value[row][col] == CellSum(values, coords, col, row, nc, nr, d)
  {
    var g := seq(nr, row => seq(nc, col => DataTypes.ZeroRow(d)));
    ZeroSumGrid(values, coords, nc, nr, d);
    var idx := 0;
    while idx < |coords|
      invariant 0 <= idx <= |coords|
      invariant idx <= |values| && Indexable(coords[..idx], nc, nr)
      invariant g == SumGrid(values, coords[..idx], nc, nr, d)
    {
      var cc := AxisIndex(coords[idx].0, nc);
      var rr := AxisIndex(coords[idx].1, nr);
      if cc.None? || rr.None? || idx >= |values| {
        return Err(IndexError);
      }
      SumGridStep(values, coords, idx, nc, nr, d, g, cc.value, rr.value);
      g := g[rr.value := g[rr.value][cc.value := VAdd(g[rr.value][cc.value], values[idx])]];
      assert coords[..idx + 1] == coords[..idx] + [coords[idx]];
      idx := idx + 1;
    }
    assert coords[..idx] == coords;
    r := Ok(g);
  }

  /**
   * `sum_by_cell` of the ring quantities: the same sums laid out
   * dimension-first, [d][row][col].
   */
  method SumByCellByDim(values: seq<seq<real>>, coords: seq<Coord>, nc: nat, nr: nat, d: nat)
    returns (r: Result<seq<seq<seq<real>>>>)
    requires Rows(values, d)
    ensures r.Err? <==> !Summable(values, coords, nc, nr)
    ensures r.Err? ==> r.error == IndexError
    ensures r.Ok? ==> |r.value| == d && forall k :: 0 <= k < d ==> (|r.value[k]| == nr &&
              forall row :: 0 <= row < nr ==> |r.value[k][row]| == nc)
    ensures r.Ok? ==> forall k, row, col :: 0 <= k < d && 0 <= row < nr && 0 <= col < nc ==>
              r.value[k][row][col] == CellSum(values, coords, col, row, nc, nr, d)[k]
  {
    var g := seq(d, k => seq(nr, row => seq(nc, col => 0.0)));
    ghost var sums := SumGrid(values, coords[..0], nc, nr, d);
    var idx := 0;
    while idx < |coords|
      invariant 0 <= idx <= |coords|
      invariant idx <= |values| && Indexable(coords[..idx], nc, nr)
      invariant sums == SumGrid(values, coords[..idx], nc, nr, d)
      invariant |g| == d && forall k :: 0 <= k < d ==> (|g[k]| == nr &&
                  forall row :: 0 <= row < nr ==> |g[k][row]| == nc)
      invariant forall k, row, col :: 0 <= k < d && 0 <= row < nr && 0 <= col < nc ==>
                  g[k][row][col] == sums[row][col][k]
    {
      var cc := AxisIndex(coords[idx].0, nc);
      var rr := AxisIndex(coords[idx].1, nr);
      if cc.None? || rr.None? || idx >= |values| {
        return Err(IndexError);
      }
      var c, w := cc.value, rr.value;
      SumGridStep(values, coords, idx, nc, nr, d, sums, c, w);
      sums := sums[w := sums[w][c := VAdd(sums[w][c], values[idx])]];
      g := seq(d, k requires 0 <= k < d => g[k][w := g[k][w][c := g[k][w][c] + values[idx][k]]]);
      assert coords[..idx + 1] == coords[..idx] + [coords[idx]];
      idx := idx + 1;
    }
    assert coords[..idx] == coords;
    assert forall row, col :: 0 <= row < nr && 0 <= col < nc ==>
             sums[row][col] == CellSum(values, coords, col, row, nc, nr, d);
    r := Ok(g);
  }

  /** Division of a cell's sum by its count, done only where the count is positive. */
  function MeanCell(s: seq<real>, count: int): (m: seq<real>)
    ensures |m| == |s|
    ensures count > 0 ==> forall k :: 0 <= k < |s| ==> m[k] * count as real == s[k]
    ensures count <= 0 ==> m == s
  {
    if count > 0 then seq(|s|, k requires 0 <= k < |s| => s[k] / count as real) else s
  }

  /** The counts `mean_by_cell` divides by: the given ones, else `count(coords)`. */
  function CountOf(coords: seq<Coord>, count: Option<seq<seq<nat>>>, col: int, row: int, nc: nat, nr: nat): int
  {
    if count.Some? then
      (if 0 <= row < |count.value| && 0 <= col < |count.value[row]| then count.value[row][col] else 0)
    else CellCount(coords, col, row, nc, nr)
  }

  /** A given count grid has the grid's [row][col] shape, so its mask selects cells of the sums. */
  predicate CountShaped(count: seq<seq<nat>>, nc: nat, nr: nat)
  {
    |count| == nr && forall row :: 0 <= row < nr ==> |count[row]| == nc
  }

  /**
   * `mean_by_cell` of the data utilities: the per-cell sums, divided by the
   * per-cell counts where those are positive and left as they are elsewhere.
   * Besides the errors of `sum_by_cell`, it raises IndexError when there are
   * no values (it reads the shape of the first one) and when a given count
   * grid is not shaped like the grid (its mask cannot index the sums).
   */
  method MeanByCell(values: seq<seq<real>>, coords: seq<Coord>, nc: nat, nr: nat, d: nat,
                    count: Option<seq<seq<nat>>>)
    returns (r: Result<seq<seq<seq<real>>>>)
    requires Rows(values, d)
    ensures r.Err? <==> !Summable(values, coords, nc, nr) || |values| == 0 ||
                        (count.Some? && !CountShaped(count.value, nc, nr))
    ensures r.Err? ==> r.error == IndexError
    ensures r.Ok? ==> VecGrid(r.value, nc, nr, d)
    ensures r.Ok? ==> forall row, col :: 0 <= row < nr && 0 <= col < nc ==>
              r.value[row][col] == MeanCell(CellSum(values, coords, col, row, nc, nr, d), CountOf(coords, count, col, row, nc, nr))
  {
    var sums := SumByCell(values, coords, nc, nr, d);
    if sums.Err? {
      return sums;
    }
    if |values| == 0 || (count.Some? && !CountShaped(count.value, nc, nr)) {
      return Err(IndexError);
    }
    var s := sums.value;
    r := Ok(seq(nr, row requires 0 <= row < nr =>
                 seq(nc, col requires 0 <= col < nc => MeanCell(s[row][col], CountOf(coords, count, col, row, nc, nr)))));
  }

  /**
   * `mean_by_cell` of the ring quantities: the dimension-first sums, each
   * component divided by the cell's given or computed count where that is
   * positive. It reads no value's shape, so no values is not an error here;
   * a given count grid not shaped like the grid raises IndexError.
   */
  method MeanByCellByDim(values: seq<seq<real>>, coords: seq<Coord>, nc: nat, nr: nat, d: nat,
                         count: Option<seq<seq<nat>>>)
    returns (r: Result<seq<seq<seq<real>>>>)
    requires Rows(values, d)
    ensures r.Err? <==> !Summable(values, coords, nc, nr) || (count.Some? && !CountShaped(count.value, nc, nr))
    ensures r.Err? ==> r.error == IndexError
    ensures r.Ok? ==> |r.value| == d && forall k :: 0 <= k < d ==> (|r.value[k]| == nr &&
              forall row :: 0 <= row < nr ==> |r.value[k][row]| == nc)
    ensures r.Ok? ==> forall k, row, col :: 0 <= k < d && 0 <= row < nr && 0 <= col < nc ==>
              r.value[k][row][col] == MeanCell(CellSum(values, coords, col, row, nc, nr, d), CountOf(coords, count, col, row, nc, nr))[k]
  {
    var sums := SumByCellByDim(values, coords, nc, nr, d);
    if sums.Err? {
      return sums;
    }
    if count.Some? && !CountShaped(count.value, nc, nr) {
      return Err(IndexError);
    }
    var s := sums.value;
    r := Ok(seq(d, k requires 0 <= k < d =>
              seq(nr, row requires 0 <= row < nr =>
                seq(nc, col requires 0 <= col < nc =>
                  var n := CountOf(coords, count, col, row, nc, nr);
                  if n > 0 then s[k][row][col] / n as real else s[k][row][col]))));
  }

  /** A cell no coordinate reaches sums to the zero vector. */
  lemma {:induction false} NoHitsZeroSum(values: seq<seq<real>>, coords: seq<Coord>, col: int, row: int, nc: nat, nr: nat, d: nat)
    requires Rows(values, d) && |coords| <= |values|
    requires Hits(coords, col, row, nc, nr) == 0
    ensures CellSum(values, coords, col, row, nc, nr, d) == DataTypes.ZeroRow(d)
  {
    if coords != [] {
      NoHitsZeroSum(values, coords[..|coords| - 1], col, row, nc, nr, d);
    }
  }

  /** Component k of every point, as a one-component vector (`values[:, k]`). */
  function Component(values: seq<seq<real>>, k: nat): (v: seq<seq<real>>)
    requires forall i :: 0 <= i < |values| ==> k < |values[i]|
    ensures |v| == |values| && forall i :: 0 <= i < |v| ==> v[i] == [values[i][k]]
  {
    seq(|values|, i requires 0 <= i < |values| => [values[i][k]])
  }

  /** Summing one component alone gives that component of the joint sum. */
  lemma {:induction false} CellSumComponent(values: seq<seq<real>>, coords: seq<Coord>, col: int, row: int,
                                            nc: nat, nr: nat, d: nat, k: nat)
    requires Rows(values, d) && |coords| <= |values| && k < d
    ensures Rows(Component(values, k), 1)
    ensures CellSum(Component(values, k), coords, col, row, nc, nr, 1)[0] == CellSum(values, coords, col, row, nc, nr, d)[k]
  {
    if coords != [] {
      CellSumComponent(values, coords[..|coords| - 1], col, row, nc, nr, d, k);
    }
  }

  /**
   * The self-test of `mean_by_cell`: the per-cell mean of one component
   * alone equals that component of the joint per-cell mean.
   */
  lemma MeanComponent(values: seq<seq<real>>, coords: seq<Coord>, col: int, row: int,
                      nc: nat, nr: nat, d: nat, k: nat, n: int)
    requires Rows(values, d) && |coords| <= |values| && k < d
    ensures Rows(Component(values, k), 1)
    ensures MeanCell(CellSum(Component(values, k), coords, col, row, nc, nr, 1), n)[0] ==
            MeanCell(CellSum(values, coords, col, row, nc, nr, d), n)[k]
  {
    CellSumComponent(values, coords, col, row, nc, nr, d, k);
  }

  /** On in-grid coordinates, the cells `count` sees empty are those no value is added to. */
  lemma {:induction false} HitsInGrid(coords: seq<Coord>, col: int, row: int, nc: nat, nr: nat)
    requires forall i :: 0 <= i < |coords| ==> InGrid(coords[i], nc, nr)
    requires 0 <= col < nc && 0 <= row < nr
    ensures Hits(coords, col, row, nc, nr) == multiset(coords)[(col, row)]
  {
    if coords != [] {
      var n := |coords| - 1;
      HitsInGrid(coords[..n], col, row, nc, nr);
      assert coords == coords[..n] + [coords[n]];
    }
  }

  /**
   * For in-grid coordinates with no given counts, an empty cell of
   * `mean_by_cell` is the zero vector and a non-empty one is the sum over
   * the count.
   */
  lemma {:induction false} MeanByCellInGrid(values: seq<seq<real>>, coords: seq<Coord>, col: int, row: int, nc: nat, nr: nat, d: nat)
    requires Rows(values, d) && |coords| <= |values|
    requires forall i :: 0 <= i < |coords| ==> InGrid(coords[i], nc, nr)
    requires 0 <= col < nc && 0 <= row < nr
    ensures var n := CountOf(coords, None, col, row, nc, nr);
            var m := MeanCell(CellSum(values, coords, col, row, nc, nr, d), n);
            n == multiset(coords)[(col, row)] &&
            (n == 0 ==> m == DataTypes.ZeroRow(d)) &&
            (n > 0 ==> forall k :: 0 <= k < d ==> m[k] * n as real == CellSum(values, coords, col, row, nc, nr, d)[k])
  {
    CountOfInGrid(coords, col, row, nc, nr);
    var n := CountOf(coords, None, col, row, nc, nr);
    var sum := CellSum(values, coords, col, row, nc, nr, d);
    if n == 0 {
      HitsInGrid(coords, col, row, nc, nr);
      NoHitsZeroSum(values, coords, col, row, nc, nr, d);
    } else {
      var m := MeanCell(sum, n);
      assert forall k :: 0 <= k < d ==> m[k] * n as real == sum[k];
    }
  }

  /** Without a given count, the count `mean_by_cell` divides by is the cell's multiplicity among the coordinates. */
  lemma {:induction false} CountOfInGrid(coords: seq<Coord>, col: int, row: int, nc: nat, nr: nat)
    requires forall i :: 0 <= i < |coords| ==> InGrid(coords[i], nc, nr)
    requires 0 <= col < nc && 0 <= row < nr
    ensures CountOf(coords, None, col, row, nc, nr) == multiset(coords)[(col, row)]
  {
    CountInGrid(coords, nc, nr, col, row);
    assert CountOf(coords, None, col, row, nc, nr) == Count(coords, nc, nr).value[row][col];
  }

  /**
   * The ring-quantities mean, component by component: for in-grid
   * coordinates without given counts, component k of a cell is 0 when the
   * cell is empty and, times the cell's count, gives component k of the
   * dimension-first sum otherwise.
   */
  lemma {:induction false} MeanByCellByDimInGrid(values: seq<seq<real>>, coords: seq<Coord>, col: int, row: int,
                              nc: nat, nr: nat, d: nat, k: nat)
    requires Rows(values, d) && |coords| <= |values|
    requires forall i :: 0 <= i < |coords| ==> InGrid(coords[i], nc, nr)
    requires 0 <= col < nc && 0 <= row < nr && k < d
    ensures var n := CountOf(coords, None, col, row, nc, nr);
            var m := MeanCell(CellSum(values, coords, col, row, nc, nr, d), n);
            n == multiset(coords)[(col, row)] &&
            (n == 0 ==> m[k] == 0.0) &&
            (n > 0 ==> m[k] * n as real == CellSum(values, coords, col, row, nc, nr, d)[k])
  {
    MeanByCellInGrid(values, coords, col, row, nc, nr, d);
  }

  // ---------------------------------------------------------------------
  // circle masks
  // ---------------------------------------------------------------------

  /** `np.sqrt(x) < radius` for x >= 0, without the root. */
  predicate RootBelow(x: real, radius: real)
  {
    radius > 0.0 && x < radius * radius
  }

  function Sq(x: real): real { x * x }

  /** The four corner tests d1..d4 of cell (row i, column j) built from centres and sizes. */
  function Corners(xs: seq<real>, ys: seq<real>, i: int, j: int, radius: real, center: Point): (bool, bool, bool, bool)
    requires 0 <= j < |xs| - 1 && 0 <= i < |ys| - 1
  {
    var xc := (xs[j + 1] + xs[j]) / 2.0;
    var xw := xs[j + 1] - xs[j];
    var yc := (ys[i + 1] + ys[i]) / 2.0;
    var yw := ys[i + 1] - ys[i];
    var xMaxSq := Sq(xc + xw / 2.0 - center.0);
    var xMinSq := Sq(xc - xw / 2.0 - center.0);
    var yMaxSq := Sq(yc + yw / 2.0 - center.1);
    var yMinSq := Sq(yc - yw / 2.0 - center.1);
    (RootBelow(xMaxSq + yMaxSq, radius), RootBelow(xMaxSq + yMinSq, radius),
     RootBelow(xMinSq + yMaxSq, radius), RootBelow(xMinSq + yMinSq, radius))
  }

  /** The cell has no corner strictly inside the circle. */
  predicate NoCornerInside(xs: seq<real>, ys: seq<real>, i: int, j: int, radius: real, center: Point)
    requires 0 <= j < |xs| - 1 && 0 <= i < |ys| - 1
  {
    var d := Corners(xs, ys, i, j, radius, center);
    !(d.0 || d.1 || d.2 || d.3)
  }

  /** Every corner of the cell is strictly inside the circle. */
  predicate AllCornersInside(xs: seq<real>, ys: seq<real>, i: int, j: int, radius: real, center: Point)
    requires 0 <= j < |xs| - 1 && 0 <= i < |ys| - 1
  {
    var d := Corners(xs, ys, i, j, radius, center);
    d.0 && d.1 && d.2 && d.3
  }

  /** A mask over the cells, [row][col]. */
  function Mask(xs: seq<real>, ys: seq<real>, f: (int, int) -> bool): (m: seq<seq<bool>>)
    requires |xs| >= 1 && |ys| >= 1
    ensures |m| == |ys| - 1 && forall i :: 0 <= i < |m| ==> |m[i]| == |xs| - 1
    ensures forall i, j :: 0 <= i < |ys| - 1 && 0 <= j < |xs| - 1 ==> m[i][j] == f(i, j)
  {
    seq(|ys| - 1, i => seq(|xs| - 1, j => f(i, j)))
  }

  /**
   * `intersect_circle_mask`: true for the cells with no corner strictly
   * inside the circle.
   */
  function IntersectCircleMask(xs: seq<real>, ys: seq<real>, radius: real, center: Point): seq<seq<bool>>
    requires |xs| >= 1 && |ys| >= 1
  {
    Mask(xs, ys, (i, j) => 0 <= j < |xs| - 1 && 0 <= i < |ys| - 1 && NoCornerInside(xs, ys, i, j, radius, center))
  }

  /** For a <= x <= b, (x - c)^2 is at most the larger of the end values. */
  lemma SqBetween(a: real, x: real, b: real, c: real)
    requires a <= x <= b
    ensures Sq(x - c) <= Sq(a - c) || Sq(x - c) <= Sq(b - c)
    ensures Sq(x - c) <= (if Sq(a - c) >= Sq(b - c) then Sq(a - c) else Sq(b - c))
  {
    if x >= c {
      MulLeR(x - c, b - c, x - c);
      MulLeR(x - c, b - c, b - c);
      assert Sq(x - c) == (x - c) * (x - c);
      assert Sq(b - c) == (b - c) * (b - c);
      assert Sq(x - c) <= Sq(b - c);
    } else {
      MulLeR(c - x, c - a, c - x);
      MulLeR(c - x, c - a, c - a);
      assert Sq(x - c) == (c - x) * (c - x);
      assert Sq(a - c) == (c - a) * (c - a);
      assert Sq(x - c) <= Sq(a - c);
    }
  }

  /**
   * A cell with every corner strictly inside the circle lies wholly inside
   * it: every point of the cell is strictly closer to the centre than the
   * radius.
   */
  lemma AllCornersInsideCell(xs: seq<real>, ys: seq<real>, i: int, j: int, radius: real, center: Point, p: Point)
    requires 0 <= j < |xs| - 1 && 0 <= i < |ys| - 1
    requires xs[j] <= p.0 <= xs[j + 1] && ys[i] <= p.1 <= ys[i + 1]
    requires AllCornersInside(xs, ys, i, j, radius, center)
    ensures Sq(p.0 - center.0) + Sq(p.1 - center.1) < radius * radius
  {
    var xc := (xs[j + 1] + xs[j]) / 2.0;
    var xw := xs[j + 1] - xs[j];
    var yc := (ys[i + 1] + ys[i]) / 2.0;
    var yw := ys[i + 1] - ys[i];
    assert xc + xw / 2.0 == xs[j + 1] && xc - xw / 2.0 == xs[j];
    assert yc + yw / 2.0 == ys[i + 1] && yc - yw / 2.0 == ys[i];
    SqBetween(xs[j], p.0, xs[j + 1], center.0);
    SqBetween(ys[i], p.1, ys[i + 1], center.1);
  }
}
