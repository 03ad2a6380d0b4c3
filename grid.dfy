/**
 * Index arithmetic shared by the uniform spatial grids of the C++ engine
 * (`WindowsManager`, `WindowsManagerRing` and the older square-space
 * `WindowsManager`): the cell of a coordinate, the row-major cell list, the
 * four-cell half-stencil and the per-cell member lists.
 */
module Grid {
  import opened Numeric

  /** A cell as (row, column). */
  type Cell = (int, int)

  /**
   * Cell index along one axis: the coordinate is shifted so that the space
   * starts at 0, divided by the cell size (extent / n) and truncated; an index
   * equal to n (the far border) is moved into the last cell.
   */
  function CellIndex(coord: real, center: real, extent: real, n: int): int
    requires n > 0 && extent > 0.0
  {
    var t := Trunc((coord - center + extent / 2.0) / (extent / n as real));
    if t == n then n - 1 else t
  }

  /** The coordinate lies in the closed interval covered by the axis. */
  predicate InExtent(coord: real, center: real, extent: real)
  {
    center - extent / 2.0 <= coord <= center + extent / 2.0
  }

  /**
   * A coordinate inside the space lands in a cell `k` in [0, n) whose
   * half-open interval [k*size, (k+1)*size) contains its offset, except that
   * the far border itself belongs to the last cell.
   */
  lemma CellIndexSpec(coord: real, center: real, extent: real, n: int)
    requires n > 0 && extent > 0.0
    requires InExtent(coord, center, extent)
    ensures var k := CellIndex(coord, center, extent, n);
            var size := extent / n as real;
            var off := coord - center + extent / 2.0;
            0 <= k < n &&
            ((k as real * size <= off < (k + 1) as real * size) ||
             (k == n - 1 && off == extent))
  {
    var size := extent / n as real;
    var off := coord - center + extent / 2.0;
    var q := off / size;
    assert q * size == off;
    assert 0.0 <= q;
    assert off <= extent;
    assert extent == n as real * size;
    DivAtMost(off, n as real, size);
    var t := Trunc(q);
    assert t as real <= q < t as real + 1.0;
    assert 0 <= t <= n;
    if t < n {
      QuotientBounds(off, size, t as real);
      assert CellIndex(coord, center, extent, n) == t;
    } else {
      assert q == n as real;
    }
  }

  /** A quotient in [k, k + 1) places the dividend in [k s, (k + 1) s). */
  lemma QuotientBounds(x: real, s: real, k: real)
    requires s > 0.0 && k <= x / s < k + 1.0
    ensures k * s <= x < (k + 1.0) * s
  {
    var q := x / s;
    assert q * s == x;
    var lo := q - k;
    var hi := k + 1.0 - q;
    MulNonNeg(lo, s);
    MulPos(hi, s);
    assert lo * s == q * s - k * s;
    assert hi * s == k * s + s - q * s;
    assert (k + 1.0) * s == k * s + s;
    assert hi * s > 0.0;
    assert k * s + s - q * s > 0.0;
    assert k * s + s - x > 0.0;
    assert x < k * s + s;
  }

  lemma MulNonNeg(a: real, b: real)
    requires a >= 0.0 && b >= 0.0
    ensures a * b >= 0.0
  {
  }

  lemma MulPos(a: real, b: real)
    requires a > 0.0 && b > 0.0
    ensures a * b > 0.0
  {
  }

  lemma DivAtMost(a: real, b: real, s: real)
    requires s > 0.0 && a <= b * s
    ensures a / s <= b
  {
  }

  /** `(j + 1) % n` for an index j in [0, n), without the modulus. */
  function Next(j: int, n: int): int
  {
    if j + 1 == n then 0 else j + 1
  }

  /** The column left of j with wrap-around, as the stencil writes it. */
  function Prev(j: int, n: int): int
  {
    if j - 1 == -1 then n - 1 else j - 1
  }

  lemma NextIsMod(j: int, n: int)
    requires 0 <= j < n
    ensures (j + 1) % n == Next(j, n)
  {
  }

  /**
   * The half-stencil of cell (i, j) on an nr x nc grid, in the order the
   * constructors push it: east, south, south-east, south-west (rows grow
   * "south"), each wrapped around the periodic border.
   */
  function Stencil(i: int, j: int, nr: int, nc: int): (s: seq<Cell>)
    requires nr > 0 && nc > 0
    ensures |s| == 4
    ensures InGrid((i, j), nr, nc) ==> forall k :: 0 <= k < 4 ==> InGrid(s[k], nr, nc)
  {
    [(i, (j + 1) % nc),
     ((i + 1) % nr, j),
     ((i + 1) % nr, (j + 1) % nc),
     if j - 1 == -1 then ((i + 1) % nr, nc - 1) else ((i + 1) % nr, j - 1)]
  }

  predicate InGrid(c: Cell, nr: int, nc: int)
  {
    0 <= c.0 < nr && 0 <= c.1 < nc
  }

  /** Every stencil entry is a cell of the grid, wrapped as described. */
  lemma StencilInGrid(i: int, j: int, nr: int, nc: int)
    requires InGrid((i, j), nr, nc)
    ensures var s := Stencil(i, j, nr, nc);
            (forall k :: 0 <= k < 4 ==> InGrid(s[k], nr, nc)) &&
            s[0] == (i, Next(j, nc)) &&
            s[1] == (Next(i, nr), j) &&
            s[2] == (Next(i, nr), Next(j, nc)) &&
            s[3] == (Next(i, nr), Prev(j, nc))
  {
    NextIsMod(i, nr);
    NextIsMod(j, nc);
  }

  /** Two indices of an n-periodic axis are equal or adjacent. */
  predicate Near(a: int, b: int, n: int)
  {
    a == b || a == Next(b, n) || b == Next(a, n)
  }

  /** Distinct cells that touch, sides or corners, across the periodic border. */
  predicate MooreNeighbours(x: Cell, y: Cell, nr: int, nc: int)
  {
    x != y && Near(x.0, y.0, nr) && Near(x.1, y.1, nc)
  }

  /**
   * The covering property the stencil exists for: on a grid with at least
   * three rows and three columns, for two distinct cells x and y, exactly one
   * of "y is in x's stencil" and "x is in y's stencil" holds when they are
   * Moore neighbours, and neither holds otherwise.  So visiting each cell's own
   * pairs plus its stencil cells meets each neighbouring cell pair once.
   */
  lemma StencilCoversOnce(x: Cell, y: Cell, nr: int, nc: int)
    requires nr >= 3 && nc >= 3
    requires InGrid(x, nr, nc) && InGrid(y, nr, nc) && x != y
    ensures MooreNeighbours(x, y, nr, nc) ==>
              ((y in Stencil(x.0, x.1, nr, nc)) != (x in Stencil(y.0, y.1, nr, nc)))
    ensures !MooreNeighbours(x, y, nr, nc) ==>
              y !in Stencil(x.0, x.1, nr, nc) && x !in Stencil(y.0, y.1, nr, nc)
  {
    StencilInGrid(x.0, x.1, nr, nc);
    StencilInGrid(y.0, y.1, nr, nc);
  }

  /** No cell is its own stencil neighbour and the four entries are distinct. */
  lemma StencilDistinct(i: int, j: int, nr: int, nc: int)
    requires nr >= 3 && nc >= 3 && InGrid((i, j), nr, nc)
    ensures var s := Stencil(i, j, nr, nc);
            (i, j) !in s &&
            forall a, b :: 0 <= a < b < 4 ==> s[a] != s[b]
  {
    StencilInGrid(i, j, nr, nc);
  }

  /** The cells of an nr x nc grid in row-major order. */
  function RowMajor(nr: nat, nc: nat): seq<Cell>
  {
    if nr == 0 then [] else RowMajor(nr - 1, nc) + RowCells(nr - 1, nc)
  }

  function RowCells(i: int, nc: nat): seq<Cell>
  {
    if nc == 0 then [] else RowCells(i, nc - 1) + [(i, nc - 1)]
  }

  lemma {:induction false} RowCellsAt(i: int, nc: nat, k: int)
    requires 0 <= k < nc
    ensures |RowCells(i, nc)| == nc && RowCells(i, nc)[k] == (i, k)
  {
    if k < nc - 1 {
      RowCellsAt(i, nc - 1, k);
    } else {
      RowCellsLength(i, nc - 1);
    }
  }

  lemma {:induction false} RowCellsLength(i: int, nc: nat)
    ensures |RowCells(i, nc)| == nc
  {
    if nc > 0 { RowCellsLength(i, nc - 1); }
  }

  /** Entry k of the row-major list is the cell (i, j) with k == i*nc + j. */
  lemma {:induction false} RowMajorAt(nr: nat, nc: nat, k: int)
    requires 0 <= k < nr * nc
    ensures |RowMajor(nr, nc)| == nr * nc
    ensures InGrid(RowMajor(nr, nc)[k], nr, nc)
    ensures k == RowMajor(nr, nc)[k].0 * nc + RowMajor(nr, nc)[k].1
  {
    ProductPositive(nr, nc);
    RowMajorLength(nr, nc);
    RowMajorLength(nr - 1, nc);
    RowCellsLength(nr - 1, nc);
    MulSucc(nr, nc);
    if k < (nr - 1) * nc {
      RowMajorAt(nr - 1, nc, k);
    } else {
      RowCellsAt(nr - 1, nc, k - (nr - 1) * nc);
    }
  }

  lemma ProductPositive(a: nat, b: nat)
    requires a * b > 0
    ensures a > 0 && b > 0
  {
  }

  lemma {:induction false} RowMajorLength(nr: nat, nc: nat)
    ensures |RowMajor(nr, nc)| == nr * nc
  {
    if nr > 0 {
      RowMajorLength(nr - 1, nc);
      RowCellsLength(nr - 1, nc);
      MulSucc(nr, nc);
    }
  }

  /** Every grid cell occurs in the row-major list at index i*nc + j. */
  lemma {:induction false} RowMajorIndexOf(nr: nat, nc: nat, i: int, j: int)
    requires InGrid((i, j), nr, nc)
    ensures |RowMajor(nr, nc)| == nr * nc
    ensures 0 <= i * nc + j < nr * nc
    ensures RowMajor(nr, nc)[i * nc + j] == (i, j)
  {
    RowMajorLength(nr, nc);
    RowMajorLength(nr - 1, nc);
    RowCellsLength(nr - 1, nc);
    MulSucc(nr, nc);
    MulMono(0, i, nc);
    MulMono(i, nr - 1, nc);
    if i < nr - 1 {
      RowMajorIndexOf(nr - 1, nc, i, j);
      assert RowMajor(nr, nc)[i * nc + j] == RowMajor(nr - 1, nc)[i * nc + j];
    } else {
      RowCellsAt(nr - 1, nc, j);
    }
  }

  /**
   * The members of cell `c` after inserting `items` in order, where item k
   * goes to cell `cells[k]`.
   */
  function Bucket<T>(items: seq<T>, cells: seq<Cell>, c: Cell): seq<T>
    requires |items| == |cells|
  {
    if items == [] then []
    else
      var n := |items| - 1;
      Bucket(items[..n], cells[..n], c) + (if cells[n] == c then [items[n]] else [])
  }

  /** One more insertion touches exactly the bucket of its cell. */
  lemma BucketSnoc<T>(items: seq<T>, cells: seq<Cell>, x: T, cx: Cell, c: Cell)
    requires |items| == |cells|
    ensures Bucket(items + [x], cells + [cx], c)
            == Bucket(items, cells, c) + (if cx == c then [x] else [])
  {
    assert (items + [x])[..|items|] == items;
    assert (cells + [cx])[..|cells|] == cells;
  }

  /** Inserting two batches one after the other fills each bucket batch by batch. */
  lemma {:induction false} BucketAppend<T>(a: seq<T>, ca: seq<Cell>, b: seq<T>, cb: seq<Cell>, c: Cell)
    requires |a| == |ca| && |b| == |cb|
    ensures Bucket(a + b, ca + cb, c) == Bucket(a, ca, c) + Bucket(b, cb, c)
  {
    if b == [] {
      assert a + b == a && ca + cb == ca;
    } else {
      var n := |b| - 1;
      assert a + b == (a + b[..n]) + [b[n]];
      assert ca + cb == (ca + cb[..n]) + [cb[n]];
      BucketAppend(a, ca, b[..n], cb[..n], c);
      BucketSnoc(a + b[..n], ca + cb[..n], b[n], cb[n], c);
      BucketSnoc(b[..n], cb[..n], b[n], cb[n], c);
      assert b == b[..n] + [b[n]] && cb == cb[..n] + [cb[n]];
    }
  }

  /** The integers 0, 1, ..., n-1. */
  function Range(n: nat): (r: seq<int>)
    ensures |r| == n && forall k :: 0 <= k < n ==> r[k] == k
  {
    seq(n, k => k)
  }

  predicate StrictlyIncreasing(s: seq<int>)
  {
    forall a, b :: 0 <= a < b < |s| ==> s[a] < s[b]
  }

  /**
   * Items inserted in increasing order end up in increasing order inside every
   * bucket, and every member is one of the inserted items.
   */
  lemma {:induction false} BucketOfIncreasing(items: seq<int>, cells: seq<Cell>, c: Cell)
    requires |items| == |cells| && StrictlyIncreasing(items)
    ensures StrictlyIncreasing(Bucket(items, cells, c))
    ensures forall x :: x in Bucket(items, cells, c) ==> x in items
  {
    if items != [] {
      var n := |items| - 1;
      BucketOfIncreasing(items[..n], cells[..n], c);
      var b := Bucket(items[..n], cells[..n], c);
      forall x | x in b ensures x < items[n] && x in items {
        var k :| 0 <= k < |b| && b[k] == x;
        assert x in items[..n];
        var m :| 0 <= m < n && items[..n][m] == x;
        assert items[m] == x;
      }
      if cells[n] == c {
        var b' := b + [items[n]];
        forall a, d | 0 <= a < d < |b'| ensures b'[a] < b'[d] {
          if d == |b| {
            assert b'[a] in b;
          }
        }
      }
    }
  }

  /** The bucket of c holds exactly the items whose cell is c, each as often as inserted. */
  lemma {:induction false} BucketMembership<T>(items: seq<T>, cells: seq<Cell>, c: Cell, x: T)
    requires |items| == |cells|
    ensures x in Bucket(items, cells, c) <==> exists k :: 0 <= k < |items| && items[k] == x && cells[k] == c
  {
    if items != [] {
      var n := |items| - 1;
      BucketMembership(items[..n], cells[..n], c, x);
      if x in Bucket(items, cells, c) {
        if x in Bucket(items[..n], cells[..n], c) {
          var k :| 0 <= k < n && items[..n][k] == x && cells[..n][k] == c;
          assert items[k] == x && cells[k] == c;
        } else {
          assert items[n] == x && cells[n] == c;
        }
      } else {
        forall k | 0 <= k < |items| && items[k] == x
          ensures cells[k] != c
        {
          if k < n {
            assert items[..n][k] == x;
          }
        }
      }
    }
  }

  /** Number of insertions aimed at cell c. */
  function CountIn(cells: seq<Cell>, c: Cell): nat
  {
    if cells == [] then 0
    else CountIn(cells[..|cells| - 1], c) + (if cells[|cells| - 1] == c then 1 else 0)
  }

  lemma {:induction false} BucketLength<T>(items: seq<T>, cells: seq<Cell>, c: Cell)
    requires |items| == |cells|
    ensures |Bucket(items, cells, c)| == CountIn(cells, c)
  {
    if items != [] {
      var n := |items| - 1;
      BucketLength(items[..n], cells[..n], c);
    }
  }

  /** Sum of an integer matrix, row by row. */
  function MatrixSum(m: seq<seq<int>>): int
  {
    if m == [] then 0 else MatrixSum(m[..|m| - 1]) + SumInt(m[|m| - 1])
  }

  lemma {:induction false} MatrixSumIncr(m: seq<seq<int>>, r: int, c: int)
    requires 0 <= r < |m| && 0 <= c < |m[r]|
    ensures MatrixSum(m[r := m[r][c := m[r][c] + 1]]) == MatrixSum(m) + 1
  {
    var n := |m| - 1;
    var m' := m[r := m[r][c := m[r][c] + 1]];
    SumIntUpdate(m[r], c, m[r][c] + 1);
    if r < n {
      assert m'[..n] == m[..n][r := m[..n][r][c := m[..n][r][c] + 1]];
      MatrixSumIncr(m[..n], r, c);
    } else {
      assert m'[..n] == m[..n];
    }
  }

  function Zeros(n: nat): (z: seq<int>)
    ensures |z| == n && forall k :: 0 <= k < n ==> z[k] == 0
  {
    seq(n, _ => 0)
  }

  lemma {:induction false} SumIntZeros(n: nat)
    ensures SumInt(Zeros(n)) == 0
  {
    if n > 0 {
      assert Zeros(n)[..n - 1] == Zeros(n - 1);
      SumIntZeros(n - 1);
    }
  }

  lemma {:induction false} MatrixSumZeros(m: seq<seq<int>>)
    requires forall r :: 0 <= r < |m| ==> forall c :: 0 <= c < |m[r]| ==> m[r][c] == 0
    ensures MatrixSum(m) == 0
  {
    if m != [] {
      var n := |m| - 1;
      assert m[n] == Zeros(|m[n]|);
      SumIntZeros(|m[n]|);
      MatrixSumZeros(m[..n]);
    }
  }

  /** Slot storage and counts have the grid's shape, and every count fits its storage. */
  ghost predicate WellFormed<T>(windows: seq<seq<seq<T>>>, capacity: seq<seq<int>>, nr: int, nc: int)
  {
    |windows| == nr && |capacity| == nr &&
    (forall i :: 0 <= i < nr ==> |windows[i]| == nc && |capacity[i]| == nc) &&
    (forall i, j :: 0 <= i < nr && 0 <= j < nc ==> 0 <= capacity[i][j] <= |windows[i][j]|)
  }

  /** The members of cell (i, j): its first `capacity[i][j]` slots. */
  ghost function Occ<T>(windows: seq<seq<seq<T>>>, capacity: seq<seq<int>>, nr: int, nc: int, i: int, j: int): seq<T>
    requires WellFormed(windows, capacity, nr, nc) && InGrid((i, j), nr, nc)
  {
    windows[i][j][..capacity[i][j]]
  }

  /** Every cell's members are the bucket of that cell for the given insertions. */
  ghost predicate Filled<T>(windows: seq<seq<seq<T>>>, capacity: seq<seq<int>>, nr: int, nc: int,
                             items: seq<T>, cells: seq<Cell>)
    requires WellFormed(windows, capacity, nr, nc) && |items| == |cells|
  {
    forall i, j :: 0 <= i < nr && 0 <= j < nc ==>
      Occ(windows, capacity, nr, nc, i, j) == Bucket(items, cells, (i, j))
  }

  /**
   * Going from state 0 to state 1 appended to every cell the bucket of that
   * cell for the insertions `more`.
   */
  ghost predicate Extends<T>(w0: seq<seq<seq<T>>>, c0: seq<seq<int>>, w1: seq<seq<seq<T>>>, c1: seq<seq<int>>,
                             nr: int, nc: int, more: seq<T>, moreCells: seq<Cell>)
    requires WellFormed(w0, c0, nr, nc) && WellFormed(w1, c1, nr, nc) && |more| == |moreCells|
  {
    forall i, j :: 0 <= i < nr && 0 <= j < nc ==>
      Occ(w1, c1, nr, nc, i, j) == Occ(w0, c0, nr, nc, i, j) + Bucket(more, moreCells, (i, j))
  }

  lemma ExtendsRefl<T>(w: seq<seq<seq<T>>>, c: seq<seq<int>>, nr: int, nc: int)
    requires WellFormed(w, c, nr, nc)
    ensures Extends(w, c, w, c, nr, nc, [], [])
  {
  }

  /** Two extensions in a row are one extension by both batches. */
  lemma ExtendsTrans<T>(w0: seq<seq<seq<T>>>, c0: seq<seq<int>>, w1: seq<seq<seq<T>>>, c1: seq<seq<int>>,
                        w2: seq<seq<seq<T>>>, c2: seq<seq<int>>, nr: int, nc: int,
                        a: seq<T>, ca: seq<Cell>, b: seq<T>, cb: seq<Cell>)
    requires WellFormed(w0, c0, nr, nc) && WellFormed(w1, c1, nr, nc) && WellFormed(w2, c2, nr, nc)
    requires |a| == |ca| && |b| == |cb|
    requires Extends(w0, c0, w1, c1, nr, nc, a, ca) && Extends(w1, c1, w2, c2, nr, nc, b, cb)
    ensures Extends(w0, c0, w2, c2, nr, nc, a + b, ca + cb)
  {
    forall i, j | 0 <= i < nr && 0 <= j < nc
      ensures Occ(w2, c2, nr, nc, i, j) == Occ(w0, c0, nr, nc, i, j) + Bucket(a + b, ca + cb, (i, j))
    {
      BucketAppend(a, ca, b, cb, (i, j));
    }
  }

  /** Appending a batch to every cell keeps every cell equal to its bucket. */
  lemma FilledAppend<T>(w0: seq<seq<seq<T>>>, c0: seq<seq<int>>, w1: seq<seq<seq<T>>>, c1: seq<seq<int>>,
                        nr: int, nc: int, items: seq<T>, cells: seq<Cell>, more: seq<T>, moreCells: seq<Cell>)
    requires WellFormed(w0, c0, nr, nc) && WellFormed(w1, c1, nr, nc)
    requires |items| == |cells| && |more| == |moreCells|
    requires Filled(w0, c0, nr, nc, items, cells)
    requires Extends(w0, c0, w1, c1, nr, nc, more, moreCells)
    ensures Filled(w1, c1, nr, nc, items + more, cells + moreCells)
  {
    forall i, j | 0 <= i < nr && 0 <= j < nc
      ensures Occ(w1, c1, nr, nc, i, j) == Bucket(items + more, cells + moreCells, (i, j))
    {
      BucketAppend(items, cells, more, moreCells, (i, j));
    }
  }

  predicate AllInGrid(cs: seq<Cell>, nr: int, nc: int)
  {
    forall k :: 0 <= k < |cs| ==> InGrid(cs[k], nr, nc)
  }

  /** The members of the listed cells, cell after cell. */
  ghost function Gather<T>(windows: seq<seq<seq<T>>>, capacity: seq<seq<int>>, nr: int, nc: int, cs: seq<Cell>): seq<T>
    requires WellFormed(windows, capacity, nr, nc) && AllInGrid(cs, nr, nc)
  {
    if cs == [] then []
    else
      var n := |cs| - 1;
      Gather(windows, capacity, nr, nc, cs[..n]) + Occ(windows, capacity, nr, nc, cs[n].0, cs[n].1)
  }

  /**
   * When every cell holds its bucket, gathering the listed cells yields
   * exactly the inserted items whose cell is listed.
   */
  lemma {:induction false} GatherMembership<T>(windows: seq<seq<seq<T>>>, capacity: seq<seq<int>>, nr: int, nc: int,
                                               items: seq<T>, cells: seq<Cell>, cs: seq<Cell>, x: T)
    requires WellFormed(windows, capacity, nr, nc) && AllInGrid(cs, nr, nc) && |items| == |cells|
    requires Filled(windows, capacity, nr, nc, items, cells)
    ensures x in Gather(windows, capacity, nr, nc, cs) <==>
            exists k :: 0 <= k < |items| && items[k] == x && cells[k] in cs
  {
    if cs != [] {
      var n := |cs| - 1;
      assert AllInGrid(cs[..n], nr, nc);
      GatherMembership(windows, capacity, nr, nc, items, cells, cs[..n], x);
      BucketMembership(items, cells, cs[n], x);
      assert cs == cs[..n] + [cs[n]];
      assert forall c :: c in cs <==> c in cs[..n] || c == cs[n];
    }
  }

  /** With every count zero, every cell is the (empty) bucket of no insertions. */
  lemma FilledEmpty<T>(w: seq<seq<seq<T>>>, c: seq<seq<int>>, nr: int, nc: int)
    requires WellFormed(w, c, nr, nc)
    requires forall i, j :: 0 <= i < nr && 0 <= j < nc ==> c[i][j] == 0
    ensures Filled(w, c, nr, nc, [], [])
  {
  }

  /**
   * Storage of one cell after writing x at slot `cap`: an existing slot is
   * overwritten, otherwise the list grows by one (`push_back`).
   */
  function WriteSlot<T>(w: seq<T>, cap: int, x: T): (w': seq<T>)
    requires 0 <= cap <= |w|
    ensures |w'| == if cap < |w| then |w| else |w| + 1
    ensures w'[..cap] == w[..cap] && w'[cap] == x
    ensures forall k :: cap < k < |w| ==> w'[k] == w[k]
  {
    if cap < |w| then w[cap := x] else w + [x]
  }
}
