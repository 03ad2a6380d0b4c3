/**
 * The older `WindowsManager` of the library copy of the engine: a square
 * space of side `spaceSize` centred on the origin, and a rebuild that inserts
 * every point id 0, 1, ..., numPoints-1 in order.
 */
module WindowsLib {
  import opened Numeric
  import opened Grid
  import opened Windows

  class WindowsManager {
    const numCols: int
    const numRows: int
    const spaceSize: real
    const colSize: real
    const rowSize: real
    const numPoints: int
    const windowsIds: seq<Cell>
    const windowNeighbor: seq<seq<seq<Cell>>>
    var windows: seq<seq<seq<int>>>
    var capacity: seq<seq<int>>

    predicate Geometry()
    {
      numCols > 0 && numRows > 0 && spaceSize > 0.0 && numPoints >= 0 &&
      colSize == spaceSize / numCols as real && rowSize == spaceSize / numRows as real
    }

    ghost predicate Valid()
      reads this
    {
      Geometry() && WellFormed(windows, capacity, numRows, numCols)
    }

    ghost function Occupants(i: int, j: int): seq<int>
      reads this
      requires Valid() && InGrid((i, j), numRows, numCols)
    {
      Occ(windows, capacity, numRows, numCols, i, j)
    }

    /** The cell of a point of the square space centred on the origin. */
    function CellOf(p: Point): Cell
      requires Geometry()
    {
      PointCell(p, 0.0, 0.0, spaceSize, spaceSize, numCols, numRows)
    }

    /** The cells of the points 0, 1, ..., n-1, in order. */
    function PointCells(pos: seq<Point>, n: nat): (cs: seq<Cell>)
      requires Geometry() && n <= |pos|
      ensures |cs| == n && forall k :: 0 <= k < n ==> cs[k] == CellOf(pos[k])
    {
      seq(n, k requires 0 <= k < n => CellOf(pos[k]))
    }

    constructor (pointPos: seq<Point>, numCols: int, numRows: int, spaceSize: real)
      requires numCols > 0 && numRows > 0 && spaceSize > 0.0
      ensures Valid()
      ensures this.numCols == numCols && this.numRows == numRows && this.spaceSize == spaceSize
      ensures numPoints == |pointPos|
      ensures windowsIds == RowMajor(numRows, numCols)
      ensures |windowNeighbor| == numRows
      ensures forall i :: 0 <= i < numRows ==> |windowNeighbor[i]| == numCols
      ensures forall i, j :: 0 <= i < numRows && 0 <= j < numCols ==>
                windowNeighbor[i][j] == Stencil(i, j, numRows, numCols) &&
                capacity[i][j] == 0 &&
                |windows[i][j]| == |pointPos| / (numCols * numRows)
    {
      var avg := |pointPos| / (numCols * numRows);
      var ids := BuildWindowsIds(numRows, numCols);
      var neigh := BuildStencils(numRows, numCols);
      this.numCols := numCols;
      this.numRows := numRows;
      this.spaceSize := spaceSize;
      colSize := spaceSize / numCols as real;
      rowSize := spaceSize / numRows as real;
      numPoints := |pointPos|;
      windowsIds := ids;
      windowNeighbor := neigh;
      windows := seq(numRows, _ => seq(numCols, _ => seq(avg, _ => 0)));
      capacity := seq(numRows, _ => Zeros(numCols));
    }

    /**
     * `update_window_members`: every count cleared, then each point id
     * 0, ..., numPoints-1 inserted in order into the cell of its position.
     * Afterwards each cell holds exactly the ids whose point lies in it, and
     * the counts sum to `numPoints`.
     */
    method UpdateWindowMembers(pos: seq<Point>)
      requires Valid() && |pos| >= numPoints
      requires forall k :: 0 <= k < numPoints ==> InGrid(CellOf(pos[k]), numRows, numCols)
      modifies this
      ensures Valid()
      ensures Filled(windows, capacity, numRows, numCols, Range(numPoints), PointCells(pos, numPoints))
      ensures MatrixSum(capacity) == numPoints
    {
      capacity := ZeroCounts(windows, capacity, numRows, numCols);
      FilledEmpty(windows, capacity, numRows, numCols);
      ghost var items := Range(numPoints);
      ghost var cells := PointCells(pos, numPoints);
      assert items[..0] == [] && cells[..0] == [];
      var p := 0;
      while p < numPoints
        invariant 0 <= p <= numPoints
        invariant Valid()
        invariant Filled(windows, capacity, numRows, numCols, items[..p], cells[..p])
        invariant MatrixSum(capacity) == p
      {
        var row, col := LocateCell(pos[p], 0.0, 0.0, spaceSize, spaceSize, numCols, numRows, colSize, rowSize);
        ghost var w0, c0 := windows, capacity;
        windows, capacity := InsertSlot(windows, capacity, numRows, numCols, row, col, p);
        FilledAppend(w0, c0, windows, capacity, numRows, numCols, items[..p], cells[..p], [p], [(row, col)]);
        SnocPrefix(items, p);
        SnocPrefix(cells, p);
        p := p + 1;
      }
      assert items[..numPoints] == items && cells[..numPoints] == cells;
    }

    /**
     * After a rebuild every cell lists its point ids in increasing order, and
     * an id is listed in cell (i, j) exactly when its point lies there.
     */
    lemma RebuiltCellsSorted(pos: seq<Point>, i: int, j: int, x: int)
      requires Valid() && |pos| >= numPoints && InGrid((i, j), numRows, numCols)
      requires Filled(windows, capacity, numRows, numCols, Range(numPoints), PointCells(pos, numPoints))
      ensures StrictlyIncreasing(Occupants(i, j))
      ensures x in Occupants(i, j) <==> 0 <= x < numPoints && CellOf(pos[x]) == (i, j)
    {
      var items := Range(numPoints);
      var cells := PointCells(pos, numPoints);
      BucketOfIncreasing(items, cells, (i, j));
      BucketMembership(items, cells, (i, j), x);
      if 0 <= x < numPoints && CellOf(pos[x]) == (i, j) {
        assert items[x] == x && cells[x] == (i, j);
      }
    }
  }
}
