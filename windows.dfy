/**
 * The uniform spatial grids of the C++ engine: `WindowsManager` (one id per
 * point) and `WindowsManagerRing` (one (ring, vertex) pair per entry).  The
 * positions, the active-id list and the active count that the C++ classes
 * reach through pointers are passed to each method.
 */
module Windows {
  import opened Numeric
  import opened Grid

  /**
   * y-coordinate of the centre of grid row i, rows counted from the bottom
   * of the space as the cell-index computation counts them.
   */
  function RowCenterY(i: int, height: real, numRows: int, centerY: real): real
    requires numRows > 0
  {
    var h := height / numRows as real;
    h * 0.5 + i as real * h - height * 0.5 + centerY
  }

  /**
   * The row centre as `WindowsManager`'s constructor computes it: rows counted
   * from the top of the space.
   */
  function RowCenterYAsWritten(i: int, height: real, numRows: int, centerY: real): real
    requires numRows > 0
  {
    var h := height / numRows as real;
    height / 2.0 + h * (0.5 - (i + 1) as real) + centerY
  }

  /** x-coordinate of the centre of grid column j. */
  function ColCenterX(j: int, length: real, numCols: int, centerX: real): real
    requires numCols > 0
  {
    var w := length / numCols as real;
    -length / 2.0 + w * (-0.5 + (j + 1) as real) + centerX
  }

  lemma MulDiv(w: real, a: real)
    requires w != 0.0
    ensures (w * a) / w == a
  {
  }

  lemma TruncHalfUp(i: int)
    requires i >= 0
    ensures Trunc(i as real + 0.5) == i
  {
  }

  /** A coordinate half a cell past the start of cell k lies in cell k. */
  lemma CellIndexOfMidpoint(coord: real, center: real, extent: real, n: int, k: int)
    requires n > 0 && extent > 0.0 && 0 <= k < n
    requires coord - center + extent / 2.0 == (extent / n as real) * (k as real + 0.5)
    ensures CellIndex(coord, center, extent, n) == k
  {
    var size := extent / n as real;
    var off := coord - center + extent / 2.0;
    assert size > 0.0;
    MulDiv(size, k as real + 0.5);
    assert off / size == k as real + 0.5;
    var q := off / size;
    TruncHalfUp(k);
    assert Trunc(q) == k;
  }

  /** The centre of column j lies in column j. */
  lemma ColCenterInColumn(j: int, length: real, numCols: int, centerX: real)
    requires numCols > 0 && length > 0.0 && 0 <= j < numCols
    ensures CellIndex(ColCenterX(j, length, numCols, centerX), centerX, length, numCols) == j
  {
    CellIndexOfMidpoint(ColCenterX(j, length, numCols, centerX), centerX, length, numCols, j);
  }

  /** The centre of row i, counted from the bottom, lies in row i. */
  lemma RowCenterInRow(i: int, height: real, numRows: int, centerY: real)
    requires numRows > 0 && height > 0.0 && 0 <= i < numRows
    ensures CellIndex(RowCenterY(i, height, numRows, centerY), centerY, height, numRows) == i
  {
    CellIndexOfMidpoint(RowCenterY(i, height, numRows, centerY), centerY, height, numRows, i);
  }

  /**
   * As written, `WindowsManager` stores for row i the centre of row
   * numRows-1-i: the cell-index computation puts it in the mirrored row.
   */
  lemma RowCenterAsWrittenMirrored(i: int, height: real, numRows: int, centerY: real)
    requires numRows > 0 && height > 0.0 && 0 <= i < numRows
    ensures CellIndex(RowCenterYAsWritten(i, height, numRows, centerY), centerY, height, numRows)
            == numRows - 1 - i
  {
    var h := height / numRows as real;
    var y := RowCenterYAsWritten(i, height, numRows, centerY);
    assert height == numRows as real * h;
    assert y - centerY + height / 2.0 == h * ((numRows - 1 - i) as real + 0.5);
    CellIndexOfMidpoint(y, centerY, height, numRows, numRows - 1 - i);
  }

  /** A concrete case: on a two-row grid of height 2, row 0's stored centre lies in row 1. */
  lemma RowCenterAsWrittenCounterexample()
    ensures CellIndex(RowCenterYAsWritten(0, 2.0, 2, 0.0), 0.0, 2.0, 2) == 1
  {
    RowCenterAsWrittenMirrored(0, 2.0, 2, 0.0);
  }

  /** The constructors' loop listing every cell in row-major order (`windows_ids`). */
  method BuildWindowsIds(numRows: int, numCols: int) returns (ids: seq<Cell>)
    requires numRows >= 0 && numCols >= 0
    ensures ids == RowMajor(numRows, numCols)
  {
    ids := [];
    var i := 0;
    while i < numRows
      invariant 0 <= i <= numRows
      invariant ids == RowMajor(i, numCols)
    {
      var j := 0;
      var rowIds: seq<Cell> := [];
      while j < numCols
        invariant 0 <= j <= numCols
        invariant rowIds == RowCells(i, j)
      {
        rowIds := rowIds + [(i, j)];
        j := j + 1;
      }
      ids := ids + rowIds;
      i := i + 1;
    }
  }

  /** The constructors' loop filling `window_neighbor` with each cell's half-stencil. */
  method BuildStencils(numRows: int, numCols: int) returns (neigh: seq<seq<seq<Cell>>>)
    requires numRows > 0 && numCols > 0
    ensures |neigh| == numRows
    ensures forall i :: 0 <= i < numRows ==> |neigh[i]| == numCols
    ensures forall i, j :: 0 <= i < numRows && 0 <= j < numCols ==>
              neigh[i][j] == Stencil(i, j, numRows, numCols)
  {
    neigh := [];
    var i := 0;
    while i < numRows
      invariant 0 <= i <= numRows
      invariant |neigh| == i
      invariant forall a :: 0 <= a < i ==> |neigh[a]| == numCols
      invariant forall a, b :: 0 <= a < i && 0 <= b < numCols ==> neigh[a][b] == Stencil(a, b, numRows, numCols)
    {
      var row: seq<seq<Cell>> := [];
      var j := 0;
      while j < numCols
        invariant 0 <= j <= numCols
        invariant |row| == j
        invariant forall b :: 0 <= b < j ==> row[b] == Stencil(i, b, numRows, numCols)
      {
        var s := [(i, (j + 1) % numCols), ((i + 1) % numRows, j), ((i + 1) % numRows, (j + 1) % numCols)];
        if j - 1 == -1 {
          s := s + [((i + 1) % numRows, numCols - 1)];
        } else {
          s := s + [((i + 1) % numRows, j - 1)];
        }
        row := row + [s];
        j := j + 1;
      }
      neigh := neigh + [row];
      i := i + 1;
    }
  }

  /** The constructors' loop filling `windows_center`, given the row-centre formula's values. */
  method BuildCenters(numRows: int, numCols: int, length: real, centerX: real, rowY: seq<real>)
    returns (centers: seq<seq<Point>>)
    requires numRows >= 0 && numCols > 0 && |rowY| == numRows
    ensures |centers| == numRows
    ensures forall i :: 0 <= i < numRows ==> |centers[i]| == numCols
    ensures forall i, j :: 0 <= i < numRows && 0 <= j < numCols ==>
              centers[i][j] == (ColCenterX(j, length, numCols, centerX), rowY[i])
  {
    centers := [];
    var i := 0;
    while i < numRows
      invariant 0 <= i <= numRows
      invariant |centers| == i
      invariant forall a :: 0 <= a < i ==> |centers[a]| == numCols
      invariant forall a, b :: 0 <= a < i && 0 <= b < numCols ==>
                  centers[a][b] == (ColCenterX(b, length, numCols, centerX), rowY[a])
    {
      var row: seq<Point> := [];
      var j := 0;
      while j < numCols
        invariant 0 <= j <= numCols
        invariant |row| == j
        invariant forall b :: 0 <= b < j ==> row[b] == (ColCenterX(b, length, numCols, centerX), rowY[i])
      {
        row := row + [(ColCenterX(j, length, numCols, centerX), rowY[i])];
        j := j + 1;
      }
      centers := centers + [row];
      i := i + 1;
    }
  }

  /** Row-centre heights of every row, counted from the bottom. */
  function RowCenters(height: real, numRows: int, centerY: real): (ys: seq<real>)
    requires numRows > 0
    ensures |ys| == numRows
    ensures forall i :: 0 <= i < numRows ==> ys[i] == RowCenterY(i, height, numRows, centerY)
  {
    seq(numRows, i => RowCenterY(i, height, numRows, centerY))
  }

  /**
   * Row-centre heights as `WindowsManager`'s constructor stores them: the
   * entry of row i is the bottom-counted centre of the mirrored row
   * numRows-1-i.
   */
  function RowCentersAsWritten(height: real, numRows: int, centerY: real): (ys: seq<real>)
    requires numRows > 0
    ensures |ys| == numRows
    ensures forall i :: 0 <= i < numRows ==> ys[i] == RowCenterYAsWritten(i, height, numRows, centerY)
    ensures forall i :: 0 <= i < numRows ==> ys[i] == RowCenterY(numRows - 1 - i, height, numRows, centerY)
  {
    var ys := seq(numRows, i => RowCenterYAsWritten(i, height, numRows, centerY));
    assert forall i :: 0 <= i < numRows ==> ys[i] == RowCenterY(numRows - 1 - i, height, numRows, centerY) by {
      var h := height / numRows as real;
      assert height == numRows as real * h;
    }
    ys
  }

  /**
   * The cell (row, column) of a point: each coordinate goes through
   * `CellIndex` on its own axis (rows from y, columns from x).
   */
  function PointCell(p: Point, centerX: real, centerY: real, length: real, height: real,
                     numCols: int, numRows: int): Cell
    requires numCols > 0 && numRows > 0 && length > 0.0 && height > 0.0
  {
    (CellIndex(p.1, centerY, height, numRows), CellIndex(p.0, centerX, length, numCols))
  }

  /** A point inside the space (closed rectangle) has its cell in the grid. */
  lemma InsidePointInGrid(p: Point, centerX: real, centerY: real, length: real, height: real,
                          numCols: int, numRows: int)
    requires numCols > 0 && numRows > 0 && length > 0.0 && height > 0.0
    requires InExtent(p.0, centerX, length) && InExtent(p.1, centerY, height)
    ensures InGrid(PointCell(p, centerX, centerY, length, height, numCols, numRows), numRows, numCols)
  {
    CellIndexSpec(p.0, centerX, length, numCols);
    CellIndexSpec(p.1, centerY, height, numRows);
  }

  /**
   * The cell computation shared by `update_point`, `update_entity` and
   * `get_window_point_elements`: offsets divided by the cell sizes and
   * truncated toward zero, an index at the far border clamped to the last cell.
   */
  method LocateCell(p: Point, centerX: real, centerY: real, length: real, height: real,
                    numCols: int, numRows: int, colSize: real, rowSize: real) returns (row: int, col: int)
    requires numCols > 0 && numRows > 0 && length > 0.0 && height > 0.0
    requires colSize == length / numCols as real && rowSize == height / numRows as real
    ensures (row, col) == PointCell(p, centerX, centerY, length, height, numCols, numRows)
  {
    col := Trunc((p.0 - centerX + length / 2.0) / colSize);
    row := Trunc((p.1 - centerY + height / 2.0) / rowSize);
    if row == numRows {
      row := row - 1;
    }
    if col == numCols {
      col := col - 1;
    }
  }

  /** The first loop of `update_window_members`: every count set to zero, slots kept. */
  method ZeroCounts<T>(windows: seq<seq<seq<T>>>, capacity: seq<seq<int>>, nr: int, nc: int)
    returns (z: seq<seq<int>>)
    requires WellFormed(windows, capacity, nr, nc) && nc >= 0
    ensures WellFormed(windows, z, nr, nc)
    ensures forall i, j :: 0 <= i < nr && 0 <= j < nc ==> z[i][j] == 0
    ensures MatrixSum(z) == 0
  {
    z := capacity;
    var i := 0;
    while i < nr
      invariant 0 <= i <= nr
      invariant WellFormed(windows, z, nr, nc)
      invariant forall a, b :: 0 <= a < i && 0 <= b < nc ==> z[a][b] == 0
    {
      var j := 0;
      while j < nc
        invariant 0 <= j <= nc
        invariant WellFormed(windows, z, nr, nc)
        invariant forall a, b :: 0 <= a < i && 0 <= b < nc ==> z[a][b] == 0
        invariant forall b :: 0 <= b < j ==> z[i][b] == 0
      {
        z := z[i := z[i][j := 0]];
        j := j + 1;
      }
      i := i + 1;
    }
    MatrixSumZeros(z);
  }

  /** The storage a manager starts with: `nr` × `nc` cells of `avg` slots holding `x`, every count zero. */
  function EmptyWindows<T>(nr: nat, nc: nat, avg: nat, x: T): (r: (seq<seq<seq<T>>>, seq<seq<int>>))
    ensures WellFormed(r.0, r.1, nr, nc) && MatrixSum(r.1) == 0
    ensures forall i, j :: 0 <= i < nr && 0 <= j < nc ==> r.1[i][j] == 0 && |r.0[i][j]| == avg
  {
    var w := seq(nr, _ => seq(nc, _ => seq(avg, _ => x)));
    var c := seq(nr, _ => Zeros(nc));
    MatrixSumZeros(c);
    (w, c)
  }

  /**
   * One insertion: x is written at slot `capacity[r][c]` of cell (r, c),
   * overwriting stale storage or appending, and the count grows by one; so
   * cell (r, c) gains x at its end and no other cell changes.
   */
  method InsertSlot<T>(windows: seq<seq<seq<T>>>, capacity: seq<seq<int>>, nr: int, nc: int, r: int, c: int, x: T)
    returns (windows': seq<seq<seq<T>>>, capacity': seq<seq<int>>)
    requires WellFormed(windows, capacity, nr, nc) && InGrid((r, c), nr, nc)
    ensures windows' == windows[r := windows[r][c := WriteSlot(windows[r][c], capacity[r][c], x)]]
    ensures capacity' == capacity[r := capacity[r][c := capacity[r][c] + 1]]
    ensures WellFormed(windows', capacity', nr, nc)
    ensures Extends(windows, capacity, windows', capacity', nr, nc, [x], [(r, c)])
    ensures MatrixSum(capacity') == MatrixSum(capacity) + 1
  {
    var id := capacity[r][c];
    var w := windows[r][c];
    if id < |w| {
      w := w[id := x];
    } else {
      w := w + [x];
    }
    MatrixSumIncr(capacity, r, c);
    windows' := windows[r := windows[r][c := w]];
    capacity' := capacity[r := capacity[r][c := capacity[r][c] + 1]];
    assert [x][..0] == [] && [(r, c)][..0] == [];
  }

  /** `WindowsManager`: a grid of cells, each holding point ids in reusable slots. */
  class WindowsManager {
    const numCols: int
    const numRows: int
    const height: real
    const length: real
    const centerX: real
    const centerY: real
    const colSize: real
    const rowSize: real
    const numPoints: int
    const windowsIds: seq<Cell>
    const windowNeighbor: seq<seq<seq<Cell>>>
    const windowsCenter: seq<seq<Point>>
    var windows: seq<seq<seq<int>>>
    var capacity: seq<seq<int>>
    var counter: int

    predicate Geometry()
    {
      numCols > 0 && numRows > 0 && height > 0.0 && length > 0.0 &&
      colSize == length / numCols as real && rowSize == height / numRows as real
    }

    ghost predicate Valid()
      reads this
    {
      Geometry() && WellFormed(windows, capacity, numRows, numCols)
    }

    /** The current members of cell (i, j): the first `capacity[i][j]` slots. */
    ghost function Occupants(i: int, j: int): seq<int>
      reads this
      requires Valid() && InGrid((i, j), numRows, numCols)
    {
      Occ(windows, capacity, numRows, numCols, i, j)
    }

    function CellOf(p: Point): Cell
      requires Geometry()
    {
      PointCell(p, centerX, centerY, length, height, numCols, numRows)
    }

    /** The cells of the given point ids, in order. */
    function IdCells(pos: seq<Point>, ids: seq<int>): (cs: seq<Cell>)
      requires Geometry()
      requires forall k :: 0 <= k < |ids| ==> 0 <= ids[k] < |pos|
      ensures |cs| == |ids|
    {
      if ids == [] then []
      else IdCells(pos, ids[..|ids| - 1]) + [CellOf(pos[ids[|ids| - 1]])]
    }

    /** The ids can all be placed: each indexes a position whose cell is in the grid. */
    predicate Placeable(pos: seq<Point>, ids: seq<int>)
      requires Geometry()
    {
      forall k :: 0 <= k < |ids| ==> 0 <= ids[k] < |pos| && InGrid(CellOf(pos[ids[k]]), numRows, numCols)
    }

    constructor (pointPos: seq<Point>, numCols: int, numRows: int,
                 height: real, length: real, centerX: real, centerY: real)
      requires numCols > 0 && numRows > 0 && height > 0.0 && length > 0.0
      ensures Valid()
      ensures this.numCols == numCols && this.numRows == numRows
      ensures this.height == height && this.length == length
      ensures this.centerX == centerX && this.centerY == centerY
      ensures numPoints == |pointPos| && counter == 0
      ensures windowsIds == RowMajor(numRows, numCols)
      ensures |windowNeighbor| == numRows && |windowsCenter| == numRows
      ensures forall i :: 0 <= i < numRows ==> |windowNeighbor[i]| == numCols && |windowsCenter[i]| == numCols
      ensures forall i, j :: 0 <= i < numRows && 0 <= j < numCols ==>
                windowNeighbor[i][j] == Stencil(i, j, numRows, numCols) &&
                windowsCenter[i][j] == (ColCenterX(j, length, numCols, centerX),
                                        RowCenterYAsWritten(i, height, numRows, centerY)) &&
                capacity[i][j] == 0 &&
                |windows[i][j]| == |pointPos| / (numCols * numRows)
    {
      var avg := |pointPos| / (numCols * numRows);
      var ids := BuildWindowsIds(numRows, numCols);
      var centers := BuildCenters(numRows, numCols, length, centerX, RowCentersAsWritten(height, numRows, centerY));
      var neigh := BuildStencils(numRows, numCols);
      this.numCols := numCols;
      this.numRows := numRows;
      this.height := height;
      this.length := length;
      this.centerX := centerX;
      this.centerY := centerY;
      colSize := length / numCols as real;
      rowSize := height / numRows as real;
      numPoints := |pointPos|;
      windowsIds := ids;
      windowNeighbor := neigh;
      windowsCenter := centers;
      windows, capacity := EmptyWindows(numRows, numCols, avg, 0).0, EmptyWindows(numRows, numCols, avg, 0).1;
      counter := 0;
    }

    /**
     * `update_point`: the point id is written at slot `capacity` of its cell
     * (reusing storage, else appended) and that cell's count grows by one; no
     * other cell changes.
     */
    method UpdatePoint(pos: seq<Point>, p: int)
      requires Valid() && 0 <= p < |pos| && InGrid(CellOf(pos[p]), numRows, numCols)
      modifies this`windows, this`capacity
      ensures Valid() && counter == old(counter)
      ensures var (r, c) := CellOf(pos[p]);
              windows == old(windows[r := windows[r][c := WriteSlot(windows[r][c], capacity[r][c], p)]]) &&
              capacity == old(capacity[r := capacity[r][c := capacity[r][c] + 1]])
      ensures Extends(old(windows), old(capacity), windows, capacity, numRows, numCols, [p], [CellOf(pos[p])])
      ensures MatrixSum(capacity) == old(MatrixSum(capacity)) + 1
    {
      var row, col := LocateCell(pos[p], centerX, centerY, length, height, numCols, numRows, colSize, rowSize);
      windows, capacity := InsertSlot(windows, capacity, numRows, numCols, row, col, p);
    }

    /**
     * `update_window_members`: zeroes every count, then inserts the active ids
     * `ids[0..numActive)` in order, so that each cell holds exactly the active
     * ids whose point lies in it, in insertion order, and the counts sum to
     * `numActive`.
     */
    method UpdateWindowMembers(pos: seq<Point>, ids: seq<int>, numActive: int)
      requires Valid() && 0 <= numActive <= |ids| && Placeable(pos, ids[..numActive])
      modifies this`windows, this`capacity
      ensures Valid() && counter == old(counter)
      ensures Filled(windows, capacity, numRows, numCols, ids[..numActive], IdCells(pos, ids[..numActive]))
      ensures MatrixSum(capacity) == numActive
    {
      Rebuild(pos, ids[..numActive]);
    }

    /** The body of `update_window_members`: clear, then insert the listed ids in order. */
    method Rebuild(pos: seq<Point>, active: seq<int>)
      requires Valid() && Placeable(pos, active)
      modifies this`windows, this`capacity
      ensures Valid() && counter == old(counter)
      ensures Filled(windows, capacity, numRows, numCols, active, IdCells(pos, active))
      ensures MatrixSum(capacity) == |active|
    {
      capacity := ZeroCounts(windows, capacity, numRows, numCols);
      FilledEmpty(windows, capacity, numRows, numCols);
      assert active[..0] == [];
      var k := 0;
      while k < |active|
        invariant 0 <= k <= |active|
        invariant Valid()
        invariant Filled(windows, capacity, numRows, numCols, active[..k], IdCells(pos, active[..k]))
        invariant MatrixSum(capacity) == k
      {
        InsertMember(pos, active, k);
        k := k + 1;
      }
      assert active[..|active|] == active;
    }

    /** One step of `update_window_members`: id `active[k]` goes in after the first k ids. */
    method InsertMember(pos: seq<Point>, active: seq<int>, k: int)
      requires Valid() && 0 <= k < |active| && Placeable(pos, active)
      requires Filled(windows, capacity, numRows, numCols, active[..k], IdCells(pos, active[..k]))
      requires MatrixSum(capacity) == k
      modifies this`windows, this`capacity
      ensures Valid()
      ensures Filled(windows, capacity, numRows, numCols, active[..k + 1], IdCells(pos, active[..k + 1]))
      ensures MatrixSum(capacity) == k + 1
    {
      ghost var w0, c0 := windows, capacity;
      UpdatePoint(pos, active[k]);
      IdCellsStep(pos, active, k);
      FilledAppend(w0, c0, windows, capacity, numRows, numCols,
                   active[..k], IdCells(pos, active[..k]), [active[k]], [CellOf(pos[active[k]])]);
    }

    /**
     * Once the members are rebuilt, an id is listed in cell (i, j) exactly
     * when it is one of the active ids and its point lies in that cell.
     */
    lemma MembersAreActiveIdsOfCell(pos: seq<Point>, ids: seq<int>, numActive: int, i: int, j: int, x: int)
      requires Valid() && 0 <= numActive <= |ids| && Placeable(pos, ids[..numActive])
      requires Filled(windows, capacity, numRows, numCols, ids[..numActive], IdCells(pos, ids[..numActive]))
      requires InGrid((i, j), numRows, numCols)
      ensures x in Occupants(i, j) <==>
              exists k :: 0 <= k < numActive && ids[k] == x && CellOf(pos[x]) == (i, j)
    {
      var items := ids[..numActive];
      BucketMembership(items, IdCells(pos, items), (i, j), x);
      IdCellsAt(pos, items);
      if x in Occupants(i, j) {
        var k :| 0 <= k < |items| && items[k] == x && IdCells(pos, items)[k] == (i, j);
        assert ids[k] == x && CellOf(pos[x]) == (i, j);
      }
      if exists k :: 0 <= k < numActive && ids[k] == x && CellOf(pos[x]) == (i, j) {
        var k :| 0 <= k < numActive && ids[k] == x && CellOf(pos[x]) == (i, j);
        assert items[k] == x && IdCells(pos, items)[k] == (i, j);
      }
    }

    /** One more id extends the ids and their cells by that id's. */
    lemma IdCellsStep(pos: seq<Point>, ids: seq<int>, k: int)
      requires Geometry() && 0 <= k < |ids| && forall m :: 0 <= m <= k ==> 0 <= ids[m] < |pos|
      ensures ids[..k + 1] == ids[..k] + [ids[k]]
      ensures IdCells(pos, ids[..k + 1]) == IdCells(pos, ids[..k]) + [CellOf(pos[ids[k]])]
    {
      assert ids[..k + 1][..k] == ids[..k];
    }

    /** Entry k of `IdCells` is the cell of the k-th id's point. */
    lemma {:induction false} IdCellsAt(pos: seq<Point>, ids: seq<int>)
      requires Geometry() && forall k :: 0 <= k < |ids| ==> 0 <= ids[k] < |pos|
      ensures forall k :: 0 <= k < |ids| ==> IdCells(pos, ids)[k] == CellOf(pos[ids[k]])
    {
      if ids != [] {
        IdCellsAt(pos, ids[..|ids| - 1]);
      }
    }
  }

  lemma SnocPrefix<T>(s: seq<T>, p: int)
    requires 0 <= p < |s|
    ensures s[..p + 1] == s[..p] + [s[p]]
  {
  }

  /** An entry of the ring grid: (ring id, vertex index). */
  type Entry = (int, int)

  /** Whether `update_window_members` rebuilds when its counter is c. */
  predicate Rebuilds(c: int, updateFreq: int)
    requires updateFreq > 0
  {
    c % updateFreq == 0
  }

  /** The counter after a call to `update_window_members` that found it at c. */
  function GateStep(c: int, updateFreq: int): int
    requires updateFreq > 0
  {
    if Rebuilds(c, updateFreq) then 1 else c + 1
  }

  /** The counter after k calls, starting from the constructor's 0. */
  function CounterAfter(k: nat, updateFreq: int): int
    requires updateFreq > 0
  {
    if k == 0 then 0 else GateStep(CounterAfter(k - 1, updateFreq), updateFreq)
  }

  /** f * x >= f for a positive f and x >= 1. */
  lemma MulAtLeast(f: int, x: int)
    requires f > 0 && x >= 1
    ensures f * x >= f
  {
  }

  /** Euclidean division has a unique remainder. */
  lemma ModUnique(a: int, f: int, q: int, r: int)
    requires f > 0 && 0 <= r < f && a == q * f + r
    ensures a % f == r
  {
    var q', r' := a / f, a % f;
    assert a == q' * f + r';
    assert f * (q - q') == r' - r;
    if q > q' {
      MulAtLeast(f, q - q');
    } else if q < q' {
      MulAtLeast(f, q' - q);
    }
  }

  /** The remainder of a+1 follows the remainder of a, wrapping at f. */
  lemma ModSucc(a: int, f: int)
    requires f > 0
    ensures (a + 1) % f == if a % f == f - 1 then 0 else a % f + 1
  {
    var q, r := a / f, a % f;
    assert a == q * f + r;
    if r == f - 1 {
      ModUnique(a + 1, f, q + 1, 0);
    } else {
      ModUnique(a + 1, f, q, r + 1);
    }
  }

  /**
   * The rebuild schedule: after k >= 1 calls the counter is ((k-1) mod f) + 1,
   * and call k+1 rebuilds exactly when k is a multiple of the update
   * frequency f, so rebuilds happen at calls 1, 1+f, 1+2f, ...
   */
  lemma {:induction false} RebuildSchedule(k: nat, updateFreq: int)
    requires updateFreq > 0
    ensures k >= 1 ==> CounterAfter(k, updateFreq) == (k - 1) % updateFreq + 1
    ensures Rebuilds(CounterAfter(k, updateFreq), updateFreq) <==> k % updateFreq == 0
  {
    var f := updateFreq;
    if k == 0 {
      ModUnique(0, f, 0, 0);
    } else {
      RebuildSchedule(k - 1, f);
      if k == 1 {
        ModUnique(0, f, 0, 0);
      } else {
        ModSucc(k - 2, f);
      }
      var c := CounterAfter(k, f);
      assert c == (k - 1) % f + 1;
      if c < f {
        ModUnique(c, f, 0, c);
      } else {
        ModUnique(c, f, 1, 0);
      }
      ModSucc(k - 1, f);
    }
  }

  /** Entries of one ring: (e, 0), ..., (e, numPoints-1). */
  function EntityItems(e: int, numPoints: nat): (r: seq<Entry>)
    ensures |r| == numPoints && forall p :: 0 <= p < numPoints ==> r[p] == (e, p)
  {
    seq(numPoints, p => (e, p))
  }

  /** Entries of the listed rings, ring after ring. */
  function RingItems(ids: seq<int>, numPoints: nat): (r: seq<Entry>)
    ensures |r| == |ids| * numPoints
  {
    if ids == [] then []
    else
      var n := |ids| - 1;
      RingItems(ids[..n], numPoints) + EntityItems(ids[n], numPoints)
  }

  /**
   * `WindowsManagerRing`: the grid of `WindowsManager` holding (ring,
   * vertex) entries, rebuilt only every `updateFreq` calls.
   */
  class WindowsManagerRing {
    const numCols: int
    const numRows: int
    const height: real
    const length: real
    const centerX: real
    const centerY: real
    const colSize: real
    const rowSize: real
    const numEntities: int
    const numPoints: int
    const updateFreq: int
    const windowsIds: seq<Cell>
    const windowNeighbor: seq<seq<seq<Cell>>>
    const windowsCenter: seq<seq<Point>>
    var windows: seq<seq<seq<Entry>>>
    var capacity: seq<seq<int>>
    var counter: int

    predicate Geometry()
    {
      numCols > 0 && numRows > 0 && height > 0.0 && length > 0.0 && updateFreq > 0 && numPoints >= 0 &&
      colSize == length / numCols as real && rowSize == height / numRows as real &&
      |windowNeighbor| == numRows &&
      (forall i :: 0 <= i < numRows ==> |windowNeighbor[i]| == numCols) &&
      (forall i, j :: 0 <= i < numRows && 0 <= j < numCols ==> windowNeighbor[i][j] == Stencil(i, j, numRows, numCols))
    }

    ghost predicate Valid()
      reads this
    {
      Geometry() && WellFormed(windows, capacity, numRows, numCols) && counter >= 0
    }

    ghost function Occupants(i: int, j: int): seq<Entry>
      reads this
      requires Valid() && InGrid((i, j), numRows, numCols)
    {
      Occ(windows, capacity, numRows, numCols, i, j)
    }

    function CellOf(p: Point): Cell
      requires Geometry()
    {
      PointCell(p, centerX, centerY, length, height, numCols, numRows)
    }

    /** The ring has all `numPoints` vertices and each lies in a grid cell. */
    predicate EntityPlaceable(ring: seq<Point>)
      requires Geometry()
    {
      |ring| >= numPoints && forall p :: 0 <= p < numPoints ==> InGrid(CellOf(ring[p]), numRows, numCols)
    }

    predicate RingsPlaceable(pos: seq<seq<Point>>, ids: seq<int>)
      requires Geometry()
    {
      forall k :: 0 <= k < |ids| ==> 0 <= ids[k] < |pos| && EntityPlaceable(pos[ids[k]])
    }

    /** The cells of one ring's vertices, in vertex order. */
    function EntityCells(ring: seq<Point>): (cs: seq<Cell>)
      requires Geometry() && |ring| >= numPoints
      ensures |cs| == numPoints && forall p :: 0 <= p < numPoints ==> cs[p] == CellOf(ring[p])
    {
      seq(numPoints, p requires 0 <= p < numPoints => CellOf(ring[p]))
    }

    /** The cells of the listed rings' vertices, ring after ring. */
    function RingCells(pos: seq<seq<Point>>, ids: seq<int>): (cs: seq<Cell>)
      requires Geometry() && forall k :: 0 <= k < |ids| ==> 0 <= ids[k] < |pos| && |pos[ids[k]]| >= numPoints
      ensures |cs| == |ids| * numPoints
    {
      if ids == [] then []
      else
        var n := |ids| - 1;
        RingCells(pos, ids[..n]) + EntityCells(pos[ids[n]])
    }

    constructor (pointPos: seq<seq<Point>>, numCols: int, numRows: int,
                 height: real, length: real, centerX: real, centerY: real, updateFreq: int)
      requires |pointPos| > 0 && numCols > 0 && numRows > 0 && height > 0.0 && length > 0.0 && updateFreq > 0
      ensures Valid()
      ensures this.numCols == numCols && this.numRows == numRows && this.updateFreq == updateFreq
      ensures this.height == height && this.length == length
      ensures this.centerX == centerX && this.centerY == centerY
      ensures numEntities == |pointPos| && numPoints == |pointPos[0]| && counter == 0
      ensures windowsIds == RowMajor(numRows, numCols)
      ensures |windowsCenter| == numRows
      ensures forall i :: 0 <= i < numRows ==> |windowsCenter[i]| == numCols
      ensures forall i, j :: 0 <= i < numRows && 0 <= j < numCols ==>
                windowsCenter[i][j] == (ColCenterX(j, length, numCols, centerX),
                                        RowCenterY(i, height, numRows, centerY)) &&
                capacity[i][j] == 0 &&
                |windows[i][j]| == |pointPos[0]| / (numCols * numRows)
    {
      var avg := |pointPos[0]| / (numCols * numRows);
      var ids := BuildWindowsIds(numRows, numCols);
      var neigh := BuildStencils(numRows, numCols);
      var centers := BuildCenters(numRows, numCols, length, centerX, RowCenters(height, numRows, centerY));
      this.numCols := numCols;
      this.numRows := numRows;
      this.height := height;
      this.length := length;
      this.centerX := centerX;
      this.centerY := centerY;
      this.updateFreq := updateFreq;
      colSize := length / numCols as real;
      rowSize := height / numRows as real;
      numEntities := |pointPos|;
      numPoints := |pointPos[0]|;
      windowsIds := ids;
      windowNeighbor := neigh;
      windowsCenter := centers;
      windows, capacity := EmptyWindows(numRows, numCols, avg, (0, 0)).0, EmptyWindows(numRows, numCols, avg, (0, 0)).1;
      counter := 0;
    }

    /**
     * `update_entity`: inserts every vertex (e, p) of ring e into the cell of
     * its position, in vertex order.
     */
    method UpdateEntity(pos: seq<seq<Point>>, e: int)
      requires Valid() && 0 <= e < |pos| && EntityPlaceable(pos[e])
      modifies this`windows, this`capacity
      ensures Valid() && counter == old(counter)
      ensures Extends(old(windows), old(capacity), windows, capacity, numRows, numCols,
                      EntityItems(e, numPoints), EntityCells(pos[e]))
      ensures MatrixSum(capacity) == old(MatrixSum(capacity)) + numPoints
    {
      ghost var items := EntityItems(e, numPoints);
      ghost var cells := EntityCells(pos[e]);
      ghost var w0, c0 := windows, capacity;
      ExtendsRefl(windows, capacity, numRows, numCols);
      assert items[..0] == [] && cells[..0] == [];
      var p := 0;
      while p < numPoints
        invariant 0 <= p <= numPoints
        invariant Valid() && WellFormed(w0, c0, numRows, numCols)
        invariant Extends(w0, c0, windows, capacity, numRows, numCols, items[..p], cells[..p])
        invariant MatrixSum(capacity) == MatrixSum(c0) + p
      {
        InsertVertex(pos, e, p, w0, c0);
        p := p + 1;
      }
      assert items[..numPoints] == items && cells[..numPoints] == cells;
    }

    /** One step of `update_entity`: vertex p of ring e goes into the cell of its position. */
    method InsertVertex(pos: seq<seq<Point>>, e: int, p: int, ghost w0: seq<seq<seq<Entry>>>, ghost c0: seq<seq<int>>)
      requires Valid() && 0 <= e < |pos| && EntityPlaceable(pos[e]) && 0 <= p < numPoints
      requires WellFormed(w0, c0, numRows, numCols)
      requires Extends(w0, c0, windows, capacity, numRows, numCols,
                       EntityItems(e, numPoints)[..p], EntityCells(pos[e])[..p])
      modifies this`windows, this`capacity
      ensures Valid()
      ensures Extends(w0, c0, windows, capacity, numRows, numCols,
                      EntityItems(e, numPoints)[..p + 1], EntityCells(pos[e])[..p + 1])
      ensures MatrixSum(capacity) == old(MatrixSum(capacity)) + 1
    {
      ghost var items := EntityItems(e, numPoints);
      ghost var cells := EntityCells(pos[e]);
      var row, col := LocateCell(pos[e][p], centerX, centerY, length, height, numCols, numRows, colSize, rowSize);
      ghost var w1, c1 := windows, capacity;
      windows, capacity := InsertSlot(windows, capacity, numRows, numCols, row, col, (e, p));
      ExtendsTrans(w0, c0, w1, c1, windows, capacity, numRows, numCols,
                   items[..p], cells[..p], [(e, p)], [(row, col)]);
      SnocPrefix(items, p);
      SnocPrefix(cells, p);
    }

    /**
     * `update_window_members`: on a rebuild call (counter a multiple of
     * `updateFreq`) the counter becomes 1, every count is cleared and the
     * active rings `ids[0..numActive)` are inserted in order, so every cell
     * holds exactly the active entries whose vertex lies in it; on any other
     * call only the counter advances.
     */
    method UpdateWindowMembers(pos: seq<seq<Point>>, ids: seq<int>, numActive: int)
      requires Valid() && 0 <= numActive <= |ids|
      requires Rebuilds(counter, updateFreq) ==> RingsPlaceable(pos, ids[..numActive])
      modifies this
      ensures Valid()
      ensures counter == GateStep(old(counter), updateFreq)
      ensures !Rebuilds(old(counter), updateFreq) ==> windows == old(windows) && capacity == old(capacity)
      ensures Rebuilds(old(counter), updateFreq) ==>
                Filled(windows, capacity, numRows, numCols,
                       RingItems(ids[..numActive], numPoints), RingCells(pos, ids[..numActive])) &&
                MatrixSum(capacity) == numActive * numPoints
    {
      if counter % updateFreq != 0 {
        counter := counter + 1;
        return;
      } else {
        counter := 1;
      }
      Rebuild(pos, ids[..numActive]);
    }

    /** The rebuild part of `update_window_members`: clear, then insert the listed rings in order. */
    method Rebuild(pos: seq<seq<Point>>, active: seq<int>)
      requires Valid() && RingsPlaceable(pos, active)
      modifies this`windows, this`capacity
      ensures Valid() && counter == old(counter)
      ensures Filled(windows, capacity, numRows, numCols, RingItems(active, numPoints), RingCells(pos, active))
      ensures MatrixSum(capacity) == |active| * numPoints
    {
      capacity := ZeroCounts(windows, capacity, numRows, numCols);
      FilledEmpty(windows, capacity, numRows, numCols);
      assert active[..0] == [];
      var k := 0;
      while k < |active|
        invariant 0 <= k <= |active|
        invariant Valid()
        invariant Filled(windows, capacity, numRows, numCols, RingItems(active[..k], numPoints), RingCells(pos, active[..k]))
        invariant MatrixSum(capacity) == k * numPoints
      {
        InsertRing(pos, active, k);
        k := k + 1;
      }
      assert active[..|active|] == active;
    }

    /** One step of the rebuild: ring `active[k]` goes in after the first k rings. */
    method InsertRing(pos: seq<seq<Point>>, active: seq<int>, k: int)
      requires Valid() && RingsPlaceable(pos, active) && 0 <= k < |active|
      requires Filled(windows, capacity, numRows, numCols, RingItems(active[..k], numPoints), RingCells(pos, active[..k]))
      requires MatrixSum(capacity) == k * numPoints
      modifies this`windows, this`capacity
      ensures Valid()
      ensures Filled(windows, capacity, numRows, numCols,
                     RingItems(active[..k + 1], numPoints), RingCells(pos, active[..k + 1]))
      ensures MatrixSum(capacity) == (k + 1) * numPoints
    {
      var e := active[k];
      ghost var w0, c0 := windows, capacity;
      UpdateEntity(pos, e);
      RingStep(pos, active, k);
      FilledAppend(w0, c0, windows, capacity, numRows, numCols,
                   RingItems(active[..k], numPoints), RingCells(pos, active[..k]),
                   EntityItems(e, numPoints), EntityCells(pos[e]));
      assert (k + 1) * numPoints == k * numPoints + numPoints;
    }

    /** One more ring extends the entries and their cells by that ring's. */
    lemma RingStep(pos: seq<seq<Point>>, active: seq<int>, k: int)
      requires Geometry() && RingsPlaceable(pos, active) && 0 <= k < |active|
      ensures RingItems(active[..k + 1], numPoints) == RingItems(active[..k], numPoints) + EntityItems(active[k], numPoints)
      ensures RingCells(pos, active[..k + 1]) == RingCells(pos, active[..k]) + EntityCells(pos[active[k]])
    {
      assert active[..k + 1][..k] == active[..k];
    }

    /** `get_window_elements`: the members of cell (row, col), in slot order. */
    method GetWindowElements(row: int, col: int) returns (elements: seq<Entry>)
      requires Valid() && InGrid((row, col), numRows, numCols)
      ensures elements == Occupants(row, col)
    {
      var cap := capacity[row][col];
      elements := [];
      var i := 0;
      while i < cap
        invariant 0 <= i <= cap
        invariant elements == windows[row][col][..i]
      {
        elements := elements + [windows[row][col][i]];
        i := i + 1;
      }
    }

    /**
     * `get_window_point_elements`: the members of the point's cell followed by
     * the members of each of its four half-stencil cells.
     */
    method GetWindowPointElements(p: Point) returns (elements: seq<Entry>)
      requires Valid() && InGrid(CellOf(p), numRows, numCols)
      ensures elements == Gather(windows, capacity, numRows, numCols,
                                 [CellOf(p)] + Stencil(CellOf(p).0, CellOf(p).1, numRows, numCols))
    {
      var row, col := LocateCell(p, centerX, centerY, length, height, numCols, numRows, colSize, rowSize);
      assert (row, col) == CellOf(p);
      StencilInGrid(row, col, numRows, numCols);
      ghost var cs := [(row, col)] + Stencil(row, col, numRows, numCols);
      assert AllInGrid(cs, numRows, numCols);
      elements := GetWindowElements(row, col);
      assert cs[..1] == [(row, col)] && cs[..1][..0] == [];
      var neighbors := windowNeighbor[row][col];
      var m := 0;
      while m < |neighbors|
        invariant 0 <= m <= |neighbors| == 4
        invariant AllInGrid(cs[..m + 1], numRows, numCols)
        invariant elements == Gather(windows, capacity, numRows, numCols, cs[..m + 1])
      {
        var nb := neighbors[m];
        assert nb == cs[m + 1];
        var more := GetWindowElements(nb.0, nb.1);
        assert cs[..m + 2][..m + 1] == cs[..m + 1];
        elements := elements + more;
        m := m + 1;
      }
      assert cs[..5] == cs;
    }
  }
}
