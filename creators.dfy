/**
 * Initial-configuration creators of the ring system: circular rings around
 * given centres, and a rectangular grid of copies of a base ring centred on
 * the origin. The cosines and sines of the sampling angles and the random
 * polarisations are parameters (`unit`, `draws`).
 */
module Creators {
  import opened Wrappers
  import opened Numeric
  import opened RingConfigs

  /** The double nearest to pi. */
  const Pi: real := 3.141592653589793

  datatype InitData = InitData(pos: seq<seq<Point>>, selfPropAngle: seq<real>)

  datatype CreatorCfg = CreatorCfg(numRings: int, numParticles: Option<int>, r: seq<real>, angle: seq<real>, center: seq<Point>)

  /** `CreatorCfg(...)`: a scalar radius or angle is repeated once per ring, a list is kept. */
  function NewCreatorCfg(numRings: int, numParticles: Option<int>, r: PerRing, angle: PerRing, center: seq<Point>): (c: CreatorCfg)
    ensures c.numRings == numRings && c.numParticles == numParticles && c.center == center
    ensures r.PerRingList? ==> c.r == r.xs
    ensures angle.PerRingList? ==> c.angle == angle.xs
    ensures r.Scalar? ==> |c.r| == (if numRings > 0 then numRings else 0) && forall k :: 0 <= k < |c.r| ==> c.r[k] == r.x
    ensures angle.Scalar? ==> |c.angle| == (if numRings > 0 then numRings else 0) && forall k :: 0 <= k < |c.angle| ==> c.angle[k] == angle.x
  {
    CreatorCfg(numRings, numParticles, ProcessScalarInput(numRings, r), ProcessScalarInput(numRings, angle), center)
  }

  /** `CreatorCfg.empty()`: no rings, no particle count, empty lists. */
  function EmptyCreatorCfg(): (c: CreatorCfg)
    ensures c.numRings == 0 && c.numParticles.None? && c.r == [] && c.angle == [] && c.center == []
  {
    NewCreatorCfg(0, None, PerRingList([]), PerRingList([]), [])
  }

  /**
   * A ring shape scaled and moved: ring `k` of `Creator` (the unit samples, its
   * radius, its centre) and each ring of `RectangularGrid` (the base ring,
   * `ring_radius_k`, the cell's centre).
   */
  function RingAt(unit: seq<Point>, radius: real, center: Point): (ring: seq<Point>)
    ensures |ring| == |unit|
  {
    seq(|unit|, m requires 0 <= m < |unit| => Add(Scale(radius, unit[m]), center))
  }

  /** The rings `Creator.create` builds for the first `n` entries. */
  function Rings(unit: seq<Point>, cfg: CreatorCfg, n: int): (rings: seq<seq<Point>>)
    requires 0 <= n <= |cfg.r| && n <= |cfg.center|
    ensures |rings| == n
  {
    seq(n, k requires 0 <= k < n => RingAt(unit, cfg.r[k], cfg.center[k]))
  }

  /**
   * `Creator.create`: for each ring, the angle grid must have `num_particles`
   * samples (a missing count fails the division with TypeError, a zero one
   * with ZeroDivisionError, a mismatch raises); a radius, centre or angle
   * list shorter than `num_rings` is an IndexError. Otherwise ring `k` is
   * the circle of radius `r[k]` around `center[k]` with angle `angle[k]`.
   */
  method Create(cfg: CreatorCfg, unit: seq<Point>) returns (res: Result<InitData>)
    ensures cfg.numRings > 0 && cfg.numParticles.None? ==> res == Err(TypeError)
    ensures cfg.numRings > 0 && cfg.numParticles == Some(0) ==> res == Err(ZeroDivisionError)
    ensures cfg.numRings > 0 && cfg.numParticles.Some? && cfg.numParticles.value != 0 && |unit| != cfg.numParticles.value ==>
      res == Err(Exception)
    ensures cfg.numRings > 0 && cfg.numParticles == Some(|unit|) && |unit| != 0 ==>
      (res.Err? <==> |cfg.r| < cfg.numRings || |cfg.center| < cfg.numRings || |cfg.angle| < cfg.numRings) &&
      (res.Err? ==> res.error == IndexError)
    ensures res.Ok? ==>
      var n := if cfg.numRings > 0 then cfg.numRings else 0;
      n <= |cfg.r| && n <= |cfg.center| && n <= |cfg.angle| &&
      res.value.pos == Rings(unit, cfg, n) && res.value.selfPropAngle == cfg.angle[..n]
    ensures cfg.numRings <= 0 ==> res == Ok(InitData([], []))
  {
    var pos: seq<seq<Point>> := [];
    var angles: seq<real> := [];
    var k := 0;
    while k < cfg.numRings
      invariant 0 <= k <= if cfg.numRings > 0 then cfg.numRings else 0
      invariant k <= |cfg.r| && k <= |cfg.center| && k <= |cfg.angle|
      invariant k > 0 ==> cfg.numParticles == Some(|unit|) && |unit| != 0
      invariant pos == Rings(unit, cfg, k) && angles == cfg.angle[..k]
    {
      if cfg.numParticles.None? {
        return Err(TypeError);
      }
      if cfg.numParticles.value == 0 {
        return Err(ZeroDivisionError);
      }
      if |unit| != cfg.numParticles.value {
        return Err(Exception);
      }
      if k >= |cfg.r| || k >= |cfg.center| || k >= |cfg.angle| {
        return Err(IndexError);
      }
      pos := pos + [RingAt(unit, cfg.r[k], cfg.center[k])];
      angles := angles + [cfg.angle[k]];
      k := k + 1;
    }
    res := Ok(InitData(pos, angles));
  }

  /** The empty configuration creates no rings. */
  method CreateEmpty(unit: seq<Point>) returns (res: Result<InitData>)
    ensures res == Ok(InitData([], []))
  {
    res := Create(EmptyCreatorCfg(), unit);
  }

  /** Samples of the unit circle give particles at distance `|r|` from the ring's centre. */
  lemma {:induction false} RingOnCircle(unit: seq<Point>, radius: real, center: Point, m: int)
    requires 0 <= m < |unit| && SqNorm(unit[m]) == 1.0
    ensures SqNorm(Sub(RingAt(unit, radius, center)[m], center)) == radius * radius
  {
    var u := unit[m];
    var p := RingAt(unit, radius, center)[m];
    assert p == Add(Scale(radius, u), center);
    var d := Sub(p, center);
    assert d.0 == radius * u.0 && d.1 == radius * u.1;
    var a, b, rr := u.0 * u.0, u.1 * u.1, radius * radius;
    calc {
      SqNorm(d);
      (radius * u.0) * (radius * u.0) + (radius * u.1) * (radius * u.1);
      { SquareOfProduct(radius, u.0); SquareOfProduct(radius, u.1); }
      rr * a + rr * b;
      rr * (a + b);
      rr * 1.0;
    }
  }

  lemma SquareOfProduct(r: real, x: real)
    ensures (r * x) * (r * x) == (r * r) * (x * x)
  {
  }

  /** `RectangularGridCfg`; `ringRadius` is the dynamic configuration's `get_ring_radius()`. */
  datatype RectangularGridCfg = RectangularGridCfg(
    numX: int, numY: int, spaceX: real, spaceY: real, basePos: seq<Point>, ringRadius: real, ringRadiusK: real)

  datatype SpaceCfg = SpaceCfg(height: real, length: real)

  /** `get_space_cfg`: each grid cell is a ring diameter plus the spacing wide. */
  function GetSpaceCfg(cfg: RectangularGridCfg): (s: SpaceCfg)
    ensures s.height == cfg.numY as real * (2.0 * cfg.ringRadius + cfg.spaceY)
    ensures s.length == cfg.numX as real * (2.0 * cfg.ringRadius + cfg.spaceX)
  {
    var d := 2.0 * cfg.ringRadius;
    SpaceCfg(cfg.numY as real * (d + cfg.spaceY), cfg.numX as real * (d + cfg.spaceX))
  }

  /** The uncentred coordinates of column `i` and row `j`: `(i + 1/2)(space_x + d)`, `(j + 1/2)(space_y + d)`. */
  function GridX(cfg: RectangularGridCfg, i: int): real
  {
    (i as real + 0.5) * (cfg.spaceX + 2.0 * cfg.ringRadius)
  }

  function GridY(cfg: RectangularGridCfg, j: int): real
  {
    (j as real + 0.5) * (cfg.spaceY + 2.0 * cfg.ringRadius)
  }

  /** The centre of grid ring `(i, j)`, relative to the centre of the space. */
  function GridCenter(cfg: RectangularGridCfg, i: int, j: int): Point
  {
    (GridX(cfg, i) - GetSpaceCfg(cfg).length / 2.0, GridY(cfg, j) - GetSpaceCfg(cfg).height / 2.0)
  }

  /** One grid row-block: the rings `(i, 0) .. (i, n)` before centring. */
  function Column(cfg: RectangularGridCfg, i: int, n: int): (c: seq<seq<Point>>)
    requires n >= 0
    ensures |c| == n
  {
    seq(n, j => RingAt(cfg.basePos, cfg.ringRadiusK, (GridX(cfg, i), GridY(cfg, j))))
  }

  /** The uncentred rings of the first `i` columns, column by column. */
  function Columns(cfg: RectangularGridCfg, i: int): (c: seq<seq<Point>>)
    requires 0 <= i && cfg.numY >= 0
    ensures |c| == i * cfg.numY
  {
    if i == 0 then [] else Columns(cfg, i - 1) + Column(cfg, i - 1, cfg.numY)
  }

  /** Ring `(i, j)` is at position `i * num_y + j`: the order is i-major. */
  lemma {:induction false} ColumnsAt(cfg: RectangularGridCfg, n: int, i: int, j: int)
    requires cfg.numY >= 0 && 0 <= i < n && 0 <= j < cfg.numY
    ensures 0 <= RingIndex(cfg, i, j) < n * cfg.numY
    ensures Columns(cfg, n)[RingIndex(cfg, i, j)] == Column(cfg, i, cfg.numY)[j]
  {
    MulMono(0, i, cfg.numY);
    MulMono(i + 1, n, cfg.numY);
    MulSucc(i + 1, cfg.numY);
    if i < n - 1 {
      ColumnsAt(cfg, n - 1, i, j);
    } else {
      assert i * cfg.numY == |Columns(cfg, n - 1)|;
    }
  }

  /** The position of ring `(i, j)` in the created list. */
  function RingIndex(cfg: RectangularGridCfg, i: int, j: int): int
  {
    i * cfg.numY + j
  }

  /** The rings `RectangularGridCreator.create` places: ring `(i, j)` at `GridCenter(i, j)`, i-major. */
  predicate GridLayout(cfg: RectangularGridCfg, pos: seq<seq<Point>>)
    requires cfg.numX >= 0 && cfg.numY >= 0
  {
    |pos| == cfg.numX * cfg.numY &&
    forall i, j :: 0 <= i < cfg.numX && 0 <= j < cfg.numY ==>
      0 <= RingIndex(cfg, i, j) < |pos| &&
      pos[RingIndex(cfg, i, j)] == RingAt(cfg.basePos, cfg.ringRadiusK, GridCenter(cfg, i, j))
  }

  /** Every point moved by `-c`. */
  function Shifted(ring: seq<Point>, c: Point): (s: seq<Point>)
    ensures |s| == |ring|
  {
    seq(|ring|, m requires 0 <= m < |ring| => Sub(ring[m], c))
  }

  /**
   * `RectangularGridCreator.create`: the nested loops append ring `(i, j)`
   * at `((i + 1/2)(space_x + d), (j + 1/2)(space_y + d))`, then every ring is
   * moved by minus the centre of the space. The polarisations are the
   * uniform draws times two pi. With no ring in some direction the loops
   * leave an empty list, and subtracting the centre point from the empty
   * array fails to broadcast.
   */
  method CreateGrid(cfg: RectangularGridCfg, draws: seq<real>) returns (res: Result<InitData>)
    requires cfg.numX > 0 && cfg.numY > 0 ==> |draws| == cfg.numX * cfg.numY
    ensures res.Err? <==> cfg.numX <= 0 || cfg.numY <= 0
    ensures res.Err? ==> res.error == ValueError
    ensures res.Ok? ==> GridLayout(cfg, res.value.pos)
    ensures res.Ok? ==> (|res.value.selfPropAngle| == |draws| &&
      forall k :: 0 <= k < |draws| ==> res.value.selfPropAngle[k] == draws[k] * 2.0 * Pi)
  {
    var pos := BuildColumns(cfg);
    var s := GetSpaceCfg(cfg);
    var central := (s.length / 2.0, s.height / 2.0);
    var centred := CenterAll(pos, central);
    if cfg.numX <= 0 || cfg.numY <= 0 {
      return Err(ValueError);
    }
    GridLayoutOf(cfg, pos, centred, central);
    var angles := seq(|draws|, k requires 0 <= k < |draws| => draws[k] * 2.0 * Pi);
    res := Ok(InitData(centred, angles));
  }

  /** The nested loops of `create`; empty when either count is not positive. */
  method BuildColumns(cfg: RectangularGridCfg) returns (pos: seq<seq<Point>>)
    ensures cfg.numX >= 0 && cfg.numY >= 0 ==> pos == Columns(cfg, cfg.numX)
  {
    pos := [];
    var i := 0;
    while i < cfg.numX
      invariant cfg.numX >= 0 && cfg.numY >= 0 ==> 0 <= i <= cfg.numX && pos == Columns(cfg, i)
    {
      var x := GridX(cfg, i);
      var j := 0;
      ghost var before := pos;
      while j < cfg.numY
        invariant cfg.numX >= 0 && cfg.numY >= 0 ==> 0 <= j <= cfg.numY && pos == before + Column(cfg, i, j)
      {
        var y := GridY(cfg, j);
        pos := pos + [RingAt(cfg.basePos, cfg.ringRadiusK, (x, y))];
        if cfg.numX >= 0 && cfg.numY >= 0 {
          assert Column(cfg, i, j + 1) == Column(cfg, i, j) + [RingAt(cfg.basePos, cfg.ringRadiusK, (x, y))];
        }
        j := j + 1;
      }
      i := i + 1;
    }
  }

  /** `pos - central_point`, ring by ring. */
  method CenterAll(pos: seq<seq<Point>>, central: Point) returns (centred: seq<seq<Point>>)
    ensures |centred| == |pos|
    ensures forall k :: 0 <= k < |pos| ==> centred[k] == Shifted(pos[k], central)
  {
    centred := [];
    var k := 0;
    while k < |pos|
      invariant 0 <= k <= |pos| && |centred| == k
      invariant forall q :: 0 <= q < k ==> centred[q] == Shifted(pos[q], central)
    {
      centred := centred + [Shifted(pos[k], central)];
      k := k + 1;
    }
  }

  lemma GridLayoutOf(cfg: RectangularGridCfg, pos: seq<seq<Point>>, centred: seq<seq<Point>>, central: Point)
    requires cfg.numX >= 0 && cfg.numY >= 0 && pos == Columns(cfg, cfg.numX)
    requires central == (GetSpaceCfg(cfg).length / 2.0, GetSpaceCfg(cfg).height / 2.0)
    requires |centred| == |pos| && forall k :: 0 <= k < |pos| ==> centred[k] == Shifted(pos[k], central)
    ensures GridLayout(cfg, centred)
  {
    forall i, j | 0 <= i < cfg.numX && 0 <= j < cfg.numY
      ensures 0 <= RingIndex(cfg, i, j) < |centred|
      ensures centred[RingIndex(cfg, i, j)] == RingAt(cfg.basePos, cfg.ringRadiusK, GridCenter(cfg, i, j))
    {
      GridRingAt(cfg, pos, centred, central, i, j);
    }
    assert |centred| == cfg.numX * cfg.numY;
  }

  lemma GridRingAt(cfg: RectangularGridCfg, pos: seq<seq<Point>>, centred: seq<seq<Point>>, central: Point, i: int, j: int)
    requires cfg.numX >= 0 && cfg.numY >= 0 && pos == Columns(cfg, cfg.numX)
    requires central == (GetSpaceCfg(cfg).length / 2.0, GetSpaceCfg(cfg).height / 2.0)
    requires |centred| == |pos| && forall k :: 0 <= k < |pos| ==> centred[k] == Shifted(pos[k], central)
    requires 0 <= i < cfg.numX && 0 <= j < cfg.numY
    ensures 0 <= RingIndex(cfg, i, j) < |centred|
    ensures centred[RingIndex(cfg, i, j)] == RingAt(cfg.basePos, cfg.ringRadiusK, GridCenter(cfg, i, j))
  {
    ColumnsAt(cfg, cfg.numX, i, j);
    var k := RingIndex(cfg, i, j);
    assert centred[k] == Shifted(pos[k], central);
    CenteredRing(cfg, i, j, central);
  }

  /** Moving the uncentred ring `(i, j)` by minus the centre of the space places it at `GridCenter(i, j)`. */
  lemma CenteredRing(cfg: RectangularGridCfg, i: int, j: int, central: Point)
    requires 0 <= j < cfg.numY
    requires central == (GetSpaceCfg(cfg).length / 2.0, GetSpaceCfg(cfg).height / 2.0)
    ensures Shifted(Column(cfg, i, cfg.numY)[j], central) == RingAt(cfg.basePos, cfg.ringRadiusK, GridCenter(cfg, i, j))
  {
    var off := (GridX(cfg, i), GridY(cfg, j));
    var c := GridCenter(cfg, i, j);
    assert c == Sub(off, central);
    var a := Shifted(Column(cfg, i, cfg.numY)[j], central);
    var b := RingAt(cfg.basePos, cfg.ringRadiusK, c);
    assert Column(cfg, i, cfg.numY)[j] == RingAt(cfg.basePos, cfg.ringRadiusK, off);
    forall m | 0 <= m < |a|
      ensures a[m] == b[m]
    {
      assert a[m] == Sub(Add(Scale(cfg.ringRadiusK, cfg.basePos[m]), off), central);
    }
  }

  /**
   * Every grid ring's centre lies strictly inside the space of
   * `get_space_cfg`, when a ring diameter plus the spacing is positive.
   */
  lemma {:induction false} GridCentersInside(cfg: RectangularGridCfg, i: int, j: int)
    requires 0 <= i < cfg.numX && 0 <= j < cfg.numY
    requires 2.0 * cfg.ringRadius + cfg.spaceX > 0.0 && 2.0 * cfg.ringRadius + cfg.spaceY > 0.0
    ensures -(GetSpaceCfg(cfg).length / 2.0) < GridCenter(cfg, i, j).0 < GetSpaceCfg(cfg).length / 2.0
    ensures -(GetSpaceCfg(cfg).height / 2.0) < GridCenter(cfg, i, j).1 < GetSpaceCfg(cfg).height / 2.0
  {
    var wx, wy := 2.0 * cfg.ringRadius + cfg.spaceX, 2.0 * cfg.ringRadius + cfg.spaceY;
    assert GridX(cfg, i) == (i as real + 0.5) * wx && GridY(cfg, j) == (j as real + 0.5) * wy;
    assert GetSpaceCfg(cfg).length == cfg.numX as real * wx && GetSpaceCfg(cfg).height == cfg.numY as real * wy;
    CellInside(i, cfg.numX, wx, GridX(cfg, i), GetSpaceCfg(cfg).length);
    CellInside(j, cfg.numY, wy, GridY(cfg, j), GetSpaceCfg(cfg).height);
  }

  /** The centre of cell `i` of `n` cells of width `w` lies strictly inside `(-n w / 2, n w / 2)`. */
  lemma CellInside(i: int, n: int, w: real, x: real, size: real)
    requires 0 <= i < n && w > 0.0 && x == (i as real + 0.5) * w && size == n as real * w
    ensures -(size / 2.0) < x - size / 2.0 < size / 2.0
  {
    var c := x - size / 2.0;
    var t := i as real + 0.5 - n as real / 2.0;
    assert c == t * w;
    assert -(n as real / 2.0) < t < n as real / 2.0;
    assert (t + n as real / 2.0) * w > 0.0;
    assert (n as real / 2.0 - t) * w > 0.0;
  }

  /** The configuration types and the creator each one selects. */
  datatype CfgType = CreatorCfgType | RectangularGridCfgType | InvaginationCreatorCfgType
  datatype CreatorType = Creator | RectangularGridCreator | InvaginationCreator

  /** `config_to_creator`. */
  function ConfigToCreator(c: CfgType): CreatorType
  {
    match c
    case CreatorCfgType => Creator
    case RectangularGridCfgType => RectangularGridCreator
    case InvaginationCreatorCfgType => InvaginationCreator
  }

  /** The configuration type each creator is registered for. */
  function CreatorConfig(k: CreatorType): CfgType
  {
    match k
    case Creator => CreatorCfgType
    case RectangularGridCreator => RectangularGridCfgType
    case InvaginationCreator => InvaginationCreatorCfgType
  }

  /** Each configuration type selects its own creator, and every creator is selected by one. */
  lemma ConfigToCreatorBijective(c: CfgType, k: CreatorType)
    ensures CreatorConfig(ConfigToCreator(c)) == c
    ensures ConfigToCreator(CreatorConfig(k)) == k
  {
  }
}
