/**
 * The ring system's dynamic configuration (`RingCfg`), in its two Python
 * versions, with what they share with the dynamic configuration of
 * `configs/dynamic_cfgs.py`: the area-potential names and the validation of
 * the area parameters with its sentinel `-1` values, the two derivations
 * between `p0` and `area0` along a perimeter, `process_scalar_input` and the
 * dictionary passed to the C++ constructor. Square roots are a parameter
 * `root`; `IsSqrt(root)` says when it is the real square root.
 */
module RingConfigs {
  import opened Wrappers
  import RingPool
  import opened Numeric

  /** The four area potentials. */
  datatype Potential = TargetArea | TargetAreaAndFormat | Format | TargetPerimeter

  function PotentialName(p: Potential): string
  {
    match p
    case TargetArea => "target_area"
    case TargetAreaAndFormat => "target_area_and_format"
    case Format => "format"
    case TargetPerimeter => "target_perimeter"
  }

  /** The membership test in the list of valid potentials: any other name is a ValueError. */
  function ParsePotential(s: string): (r: Result<Potential>)
    ensures r.Ok? ==> PotentialName(r.value) == s
    ensures r.Err? ==> r.error == ValueError
    ensures r.Err? <==> forall p :: PotentialName(p) != s
  {
    if s == "target_area" then Ok(TargetArea)
    else if s == "target_area_and_format" then Ok(TargetAreaAndFormat)
    else if s == "format" then Ok(Format)
    else if s == "target_perimeter" then Ok(TargetPerimeter)
    else Err(ValueError)
  }

  /** Every potential's name parses back to it, so the names are distinct. */
  lemma PotentialRoundTrip(p: Potential)
    ensures ParsePotential(PotentialName(p)) == Ok(p)
  {
  }

  predicate HasFormat(p: Potential) { p == Format || p == TargetAreaAndFormat }

  predicate HasTargetArea(p: Potential) { p == TargetArea || p == TargetAreaAndFormat }

  /** The area parameters after validation; `None` stands for an argument left out. */
  datatype AreaPars = AreaPars(
    potential: Potential, p0: Option<real>, area0: Option<real>,
    kArea: Option<real>, kFormat: Option<real>, p0Format: Option<real>)

  /** The constants each potential needs: format ones need `k_format` and `p0_format`, target-area ones `k_area`. */
  predicate Supplied(p: Potential, kArea: Option<real>, kFormat: Option<real>, p0Format: Option<real>)
  {
    (HasFormat(p) ==> kFormat.Some? && p0Format.Some?) && (HasTargetArea(p) ==> kArea.Some?)
  }

  /**
   * The validation at the head of both `RingCfg` constructors with area
   * potentials: an unknown potential is a ValueError, leaving out both `p0`
   * and `area0` an Exception, a missing constant a ValueError. Unused
   * parameters become `-1`: all of `p0`, `area0`, `k_area` for "format", and
   * `k_format`, `p0_format` for the potentials without format.
   */
  function CheckArea(name: string, p0: Option<real>, area0: Option<real>,
                     kArea: Option<real>, kFormat: Option<real>, p0Format: Option<real>): (r: Result<AreaPars>)
    ensures ParsePotential(name).Err? ==> r == Err(ValueError)
    ensures ParsePotential(name).Ok? && p0.None? && area0.None? ==> r == Err(Exception)
    ensures r.Ok? <==>
      ParsePotential(name).Ok? && (p0.Some? || area0.Some?) &&
      Supplied(ParsePotential(name).value, kArea, kFormat, p0Format)
    ensures r.Err? && (p0.Some? || area0.Some?) ==> r.error == ValueError
    ensures r.Ok? ==>
      var v := r.value;
      v.potential == ParsePotential(name).value && (v.p0.Some? || v.area0.Some?) &&
      (v.potential == Format ==> v.p0 == Some(-1.0) && v.area0 == Some(-1.0) && v.kArea == Some(-1.0)) &&
      (v.potential != Format ==> v.p0 == p0 && v.area0 == area0 && v.kArea == kArea) &&
      (HasFormat(v.potential) ==> v.kFormat == kFormat && v.p0Format == p0Format) &&
      (!HasFormat(v.potential) ==> v.kFormat == Some(-1.0) && v.p0Format == Some(-1.0))
  {
    match ParsePotential(name)
    case Err(e) => Err(e)
    case Ok(pot) =>
      if p0.None? && area0.None? then Err(Exception)
      else if HasFormat(pot) && kFormat.None? then Err(ValueError)
      else if HasFormat(pot) && p0Format.None? then Err(ValueError)
      else if HasTargetArea(pot) && kArea.None? then Err(ValueError)
      else
        var (p0', area0', kArea') := if pot == Format then (Some(-1.0), Some(-1.0), Some(-1.0)) else (p0, area0, kArea);
        var (kFormat', p0Format') := if !HasFormat(pot) then (Some(-1.0), Some(-1.0)) else (kFormat, p0Format);
        Ok(AreaPars(pot, p0', area0', kArea', kFormat', p0Format'))
  }

  /** With a known potential, one of `p0`/`area0` and the constants it needs, validation succeeds. */
  lemma CheckAreaComplete(p: Potential, p0: Option<real>, area0: Option<real>,
                          kArea: Option<real>, kFormat: Option<real>, p0Format: Option<real>)
    requires p0.Some? || area0.Some?
    requires Supplied(p, kArea, kFormat, p0Format)
    ensures CheckArea(PotentialName(p), p0, area0, kArea, kFormat, p0Format).Ok?
    ensures CheckArea(PotentialName(p), p0, area0, kArea, kFormat, p0Format).value.potential == p
  {
    PotentialRoundTrip(p);
  }

  /** A square root on the non-negative reals. */
  ghost predicate IsSqrt(root: real -> real)
  {
    forall x :: x >= 0.0 ==> root(x) >= 0.0 && root(x) * root(x) == x
  }

  /** `(perimeter / p0)**2`: a zero `p0` raises ZeroDivisionError. */
  function AreaFromP0(perimeter: real, p0: real): (r: Result<real>)
    ensures r.Err? <==> p0 == 0.0
    ensures r.Err? ==> r.error == ZeroDivisionError
    ensures r.Ok? ==> r.value >= 0.0
  {
    if p0 == 0.0 then Err(ZeroDivisionError)
    else
      var q := perimeter / p0;
      Ok(q * q)
  }

  /** `perimeter / area0**.5`: a zero square root raises ZeroDivisionError. */
  function P0FromArea(perimeter: real, area0: real, root: real -> real): (r: Result<real>)
    ensures r.Err? <==> root(area0) == 0.0
    ensures r.Err? ==> r.error == ZeroDivisionError
  {
    if root(area0) == 0.0 then Err(ZeroDivisionError) else Ok(perimeter / root(area0))
  }

  /** With a true square root and a non-negative `area0`, only a zero `area0` raises. */
  lemma P0FromAreaDefined(perimeter: real, area0: real, root: real -> real)
    requires IsSqrt(root) && area0 >= 0.0
    ensures P0FromArea(perimeter, area0, root).Err? <==> area0 == 0.0
  {
    var s := root(area0);
    assert s >= 0.0 && s * s == area0;
    if s > 0.0 {
      calc {
        area0;
     == s * s;
     > { MulLeft(s, 0.0, s); } s * 0.0;
     == 0.0;
      }
    }
  }

  /** Multiplying by a non-negative factor keeps the order. */
  lemma MulLeft(x: real, y: real, z: real)
    requires 0.0 <= x && y <= z
    ensures x * y <= x * z
    ensures x > 0.0 && y < z ==> x * y < x * z
  {
    assert x * z - x * y == x * (z - y);
  }

  /** The pair `(p0, area0)` is consistent along `perimeter`: `p0**2 * area0 == perimeter**2`. */
  predicate Consistent(perimeter: real, p0: real, area0: real)
  {
    p0 * p0 * area0 == perimeter * perimeter
  }

  lemma QuotientSquare(x: real, d: real)
    requires d != 0.0
    ensures d * d * ((x / d) * (x / d)) == x * x
  {
    var q := x / d;
    assert q * d == x;
    calc {
      d * d * (q * q);
      (q * d) * (q * d);
      x * x;
    }
  }

  /** Deriving `area0` from `p0` gives a consistent pair. */
  lemma AreaFromP0Consistent(perimeter: real, p0: real)
    requires p0 != 0.0
    ensures Consistent(perimeter, p0, AreaFromP0(perimeter, p0).value)
  {
    QuotientSquare(perimeter, p0);
  }

  /** Deriving `p0` from a non-negative `area0` gives a consistent pair. */
  lemma P0FromAreaConsistent(perimeter: real, area0: real, root: real -> real)
    requires IsSqrt(root) && area0 > 0.0
    ensures P0FromArea(perimeter, area0, root).Ok?
    ensures Consistent(perimeter, P0FromArea(perimeter, area0, root).value, area0)
  {
    var s := root(area0);
    assert s * s == area0;
    QuotientSquare(perimeter, s);
    var p := perimeter / s;
    assert p * p * area0 == s * s * (p * p);
  }

  /** The square root of a square is the absolute value. */
  lemma RootOfSquare(q: real, root: real -> real)
    requires IsSqrt(root)
    ensures root(q * q) == AbsR(q)
  {
    var s := root(q * q);
    var a := AbsR(q);
    assert s >= 0.0 && s * s == q * q;
    assert a >= 0.0 && a * a == q * q;
    if s > a {
      calc {
        q * q;
     == s * s;
     > { MulLeft(s, a, s); } s * a;
     == a * s;
     >= { MulLeft(a, a, s); } a * a;
     == q * q;
      }
      assert false;
    } else if s < a {
      calc {
        q * q;
     == a * a;
     > { MulLeft(a, s, a); } a * s;
     == s * a;
     >= { MulLeft(s, s, a); } s * s;
     == q * q;
      }
      assert false;
    }
  }

  /**
   * `p0` → `area0` → `p0` returns `p0` when `perimeter / p0` is positive, and
   * `-p0` when it is negative: the square root forgets the sign.
   */
  lemma {:induction false} P0RoundTrip(perimeter: real, p0: real, root: real -> real)
    requires IsSqrt(root) && p0 != 0.0 && perimeter != 0.0
    ensures var a := AreaFromP0(perimeter, p0).value;
      P0FromArea(perimeter, a, root) == Ok(if perimeter / p0 > 0.0 then p0 else -p0)
  {
    var q := perimeter / p0;
    assert q * p0 == perimeter;
    assert q != 0.0;
    RootOfSquare(q, root);
    var a := AreaFromP0(perimeter, p0).value;
    assert a == q * q;
    assert root(a) == AbsR(q);
    if q > 0.0 {
      assert perimeter / q == p0;
    } else {
      assert (-q) * (-p0) == perimeter;
      assert perimeter / (-q) == -p0;
    }
  }

  /** `area0` → `p0` → `area0` returns a positive `area0`. */
  lemma {:induction false} AreaRoundTrip(perimeter: real, area0: real, root: real -> real)
    requires IsSqrt(root) && area0 > 0.0 && perimeter != 0.0
    ensures P0FromArea(perimeter, area0, root).Ok?
    ensures var p := P0FromArea(perimeter, area0, root).value;
      p != 0.0 && AreaFromP0(perimeter, p) == Ok(area0)
  {
    var s := root(area0);
    assert s * s == area0 && s > 0.0;
    var p := perimeter / s;
    assert p * s == perimeter;
    assert p != 0.0;
    assert s * p == perimeter;
    assert perimeter / p == s;
    AreaOfQuotient(perimeter, p, s);
  }

  lemma AreaOfQuotient(perimeter: real, p0: real, q: real)
    requires p0 != 0.0 && perimeter / p0 == q
    ensures AreaFromP0(perimeter, p0) == Ok(q * q)
  {
    var r := AreaFromP0(perimeter, p0);
    assert r.Ok?;
    assert r.value == (perimeter / p0) * (perimeter / p0);
    assert r.value == q * q;
  }

  /** The other constants of a ring configuration, stored as given. */
  datatype Dynamics = Dynamics(
    mobility: real, relaxTime: real, vo: real, transDiff: real, rotDiff: real,
    diameter: real, maxDist: real, repForce: real, adhForce: real)

  /**
   * The arguments handed to the C++ ring configuration by
   * `cpp_constructor_args`, one field per dictionary entry; a missing
   * `p0`/`area0`/`k_area` travels as `None`.
   */
  datatype CppRingArgs = CppRingArgs(
    springK: real, springR: real, kArea: Option<real>, kFormat: Option<real>,
    areaPotencial: string, p0: Option<real>, p0Format: Option<real>, area0: Option<real>,
    kInvasion: real, dynamics: Dynamics)

  /** `cpp_constructor_args` of both configurations with area potentials: every entry holds the field of its name. */
  function CppArgs(springK: real, springR: real, pars: AreaPars, kInvasion: real, d: Dynamics): (a: CppRingArgs)
    ensures ParsePotential(a.areaPotencial) == Ok(pars.potential)
    ensures a.p0 == pars.p0 && a.area0 == pars.area0 && a.kArea == pars.kArea
    ensures a.kFormat == pars.kFormat && a.p0Format == pars.p0Format
    ensures a.springK == springK && a.springR == springR && a.kInvasion == kInvasion && a.dynamics == d
  {
    PotentialRoundTrip(pars.potential);
    CppRingArgs(springK, springR, pars.kArea, pars.kFormat, PotentialName(pars.potential),
                pars.p0, pars.p0Format, pars.area0, kInvasion, d)
  }

  /**
   * The ring configuration of `systems/ring/configs.py`: validated area
   * parameters, with `p0` and `area0` possibly still missing until
   * `adjust_area_pars` derives one from the other.
   */
  class RingCfg {
    const springK: real
    const springR: real
    const potential: Potential
    const kArea: Option<real>
    const kFormat: Option<real>
    const p0Format: Option<real>
    const kInvasion: real
    const dynamics: Dynamics
    var p0: Option<real>
    var area0: Option<real>

    /** At least one of `p0` and `area0` is known. */
    predicate Valid()
      reads this
    {
      p0.Some? || area0.Some?
    }

    /** The constructor after a successful `CheckArea`: the validated values, stored. */
    constructor (springK: real, springR: real, pars: AreaPars, kInvasion: real, dynamics: Dynamics)
      requires pars.p0.Some? || pars.area0.Some?
      ensures Valid()
      ensures this.springK == springK && this.springR == springR && this.kInvasion == kInvasion && this.dynamics == dynamics
      ensures potential == pars.potential && p0 == pars.p0 && area0 == pars.area0
      ensures kArea == pars.kArea && kFormat == pars.kFormat && p0Format == pars.p0Format
    {
      this.springK, this.springR, this.kInvasion, this.dynamics := springK, springR, kInvasion, dynamics;
      potential, kArea, kFormat, p0Format := pars.potential, pars.kArea, pars.kFormat, pars.p0Format;
      p0, area0 := pars.p0, pars.area0;
    }

    /**
     * `adjust_area_pars`: only for the target-area potentials, with perimeter
     * `num_particles * diameter`, derives `area0` from `p0` when `area0` is
     * missing, and otherwise rederives `p0` from `area0`.
     */
    method AdjustAreaPars(numParticles: int, root: real -> real) returns (r: Result<()>)
      requires Valid()
      modifies this`p0, this`area0
      ensures Valid()
      ensures var perimeter := numParticles as real * dynamics.diameter;
        if !HasTargetArea(potential) then r.Ok? && p0 == old(p0) && area0 == old(area0)
        else if old(area0).None? then
          var a := AreaFromP0(perimeter, old(p0).value);
          p0 == old(p0) && (r.Err? <==> a.Err?) &&
          (a.Err? ==> r.error == ZeroDivisionError && area0 == old(area0)) &&
          (a.Ok? ==> area0 == Some(a.value))
        else
          var p := P0FromArea(perimeter, old(area0).value, root);
          area0 == old(area0) && (r.Err? <==> p.Err?) &&
          (p.Err? ==> r.error == ZeroDivisionError && p0 == old(p0)) &&
          (p.Ok? ==> p0 == Some(p.value))
      ensures r.Ok? && HasTargetArea(potential) ==> p0.Some? && area0.Some?
    {
      if !HasTargetArea(potential) {
        return Ok(());
      }
      var perimeter := numParticles as real * dynamics.diameter;
      if area0.None? {
        var a := AreaFromP0(perimeter, p0.value);
        if a.Err? {
          return Err(a.error);
        }
        area0 := Some(a.value);
      } else {
        var p := P0FromArea(perimeter, area0.value, root);
        if p.Err? {
          return Err(p.error);
        }
        p0 := Some(p.value);
      }
      r := Ok(());
    }

    /** `set` raises before copying anything. */
    method Set(other: RingCfg) returns (r: Result<()>)
      ensures r == Err(Exception)
    {
      r := Err(Exception);
    }

    /** The stored area parameters reach the C++ side unchanged. */
    function CppConstructorArgs(): (a: CppRingArgs)
      reads this
      ensures a.p0 == p0 && a.area0 == area0 && ParsePotential(a.areaPotencial) == Ok(potential)
    {
      CppArgs(springK, springR, AreaPars(potential, p0, area0, kArea, kFormat, p0Format), kInvasion, dynamics)
    }
  }

  /**
   * After a successful adjustment of a target-area configuration the pair is
   * consistent along the perimeter, given a true square root and a positive
   * `area0` when one was supplied.
   */
  lemma AdjustedConsistent(perimeter: real, p0: Option<real>, area0: Option<real>, root: real -> real)
    requires IsSqrt(root) && (p0.Some? || area0.Some?)
    requires area0.Some? ==> area0.value > 0.0
    requires area0.None? ==> p0.value != 0.0
    ensures area0.None? ==> Consistent(perimeter, p0.value, AreaFromP0(perimeter, p0.value).value)
    ensures area0.Some? ==> Consistent(perimeter, P0FromArea(perimeter, area0.value, root).value, area0.value)
  {
    if area0.None? {
      AreaFromP0Consistent(perimeter, p0.value);
    } else {
      P0FromAreaConsistent(perimeter, area0.value, root);
    }
  }

  /**
   * The older ring configuration of `lib/.../configs.py`: the potential is a
   * free string, the constructor only refuses a missing `p0` together with a
   * missing `area0`, and only the exact name "target_area" is adjusted.
   */
  class LegacyRingCfg {
    const potentialName: string
    const diameter: real
    var p0: Option<real>
    var area0: Option<real>

    predicate Valid()
      reads this
    {
      p0.Some? || area0.Some?
    }

    constructor (potentialName: string, diameter: real, p0: Option<real>, area0: Option<real>)
      requires p0.Some? || area0.Some?
      ensures Valid() && this.potentialName == potentialName && this.diameter == diameter
      ensures this.p0 == p0 && this.area0 == area0
    {
      this.potentialName, this.diameter, this.p0, this.area0 := potentialName, diameter, p0, area0;
    }

    /** `adjust_area_pars`, acting only for the potential named exactly "target_area". */
    method AdjustAreaPars(numParticles: int, root: real -> real) returns (r: Result<()>)
      requires Valid()
      modifies this`p0, this`area0
      ensures Valid()
      ensures var perimeter := numParticles as real * diameter;
        if potentialName != "target_area" then r.Ok? && p0 == old(p0) && area0 == old(area0)
        else if old(area0).None? then
          var a := AreaFromP0(perimeter, old(p0).value);
          p0 == old(p0) && (r.Err? <==> a.Err?) &&
          (a.Err? ==> r.error == ZeroDivisionError && area0 == old(area0)) &&
          (a.Ok? ==> area0 == Some(a.value))
        else
          var p := P0FromArea(perimeter, old(area0).value, root);
          area0 == old(area0) && (r.Err? <==> p.Err?) &&
          (p.Err? ==> r.error == ZeroDivisionError && p0 == old(p0)) &&
          (p.Ok? ==> p0 == Some(p.value))
    {
      if potentialName != "target_area" {
        return Ok(());
      }
      var perimeter := numParticles as real * diameter;
      if area0.None? {
        var a := AreaFromP0(perimeter, p0.value);
        if a.Err? {
          return Err(a.error);
        }
        area0 := Some(a.value);
      } else {
        var p := P0FromArea(perimeter, area0.value, root);
        if p.Err? {
          return Err(p.error);
        }
        p0 := Some(p.value);
      }
      r := Ok(());
    }

    /** `set` raises before copying anything. */
    method Set(other: LegacyRingCfg) returns (r: Result<()>)
      ensures r == Err(Exception)
    {
      r := Err(Exception);
    }
  }

  /** The legacy constructor: a ring configuration exists exactly when `p0` or `area0` is given. */
  method NewLegacyRingCfg(potentialName: string, diameter: real, p0: Option<real>, area0: Option<real>)
    returns (r: Result<LegacyRingCfg>)
    ensures r.Err? <==> p0.None? && area0.None?
    ensures r.Err? ==> r.error == Exception
    ensures r.Ok? ==> fresh(r.value) && r.value.Valid() && r.value.p0 == p0 && r.value.area0 == area0
  {
    if p0.None? && area0.None? {
      return Err(Exception);
    }
    var c := new LegacyRingCfg(potentialName, diameter, p0, area0);
    r := Ok(c);
  }

  /** The constructor of `configs.py`: the validation, then the stored fields. */
  method NewRingCfg(springK: real, springR: real, name: string, kInvasion: real, dynamics: Dynamics,
                    p0: Option<real>, area0: Option<real>, kArea: Option<real>, kFormat: Option<real>, p0Format: Option<real>)
    returns (r: Result<RingCfg>)
    ensures r.Err? <==> CheckArea(name, p0, area0, kArea, kFormat, p0Format).Err?
    ensures r.Err? ==> r.error == CheckArea(name, p0, area0, kArea, kFormat, p0Format).error
    ensures r.Ok? ==>
      var pars := CheckArea(name, p0, area0, kArea, kFormat, p0Format).value;
      fresh(r.value) && r.value.Valid() && r.value.potential == pars.potential &&
      r.value.p0 == pars.p0 && r.value.area0 == pars.area0 && r.value.kArea == pars.kArea &&
      r.value.kFormat == pars.kFormat && r.value.p0Format == pars.p0Format
  {
    var pars := CheckArea(name, p0, area0, kArea, kFormat, p0Format);
    if pars.Err? {
      return Err(pars.error);
    }
    var c := new RingCfg(springK, springR, pars.value, kInvasion, dynamics);
    r := Ok(c);
  }

  /** A per-ring argument given either as one number or as a list. */
  datatype PerRing = Scalar(x: real) | PerRingList(xs: seq<real>)

  /**
   * `process_scalar_input`: a number is repeated once per ring (a non-positive
   * count gives the empty list), a list is returned as it is.
   */
  function ProcessScalarInput(numRings: int, input: PerRing): (r: seq<real>)
    ensures input.PerRingList? ==> r == input.xs
    ensures input.Scalar? ==>
      |r| == (if numRings > 0 then numRings else 0) && forall k :: 0 <= k < |r| ==> r[k] == input.x
  {
    match input
    case Scalar(x) => seq(if numRings > 0 then numRings else 0, _ => x)
    case PerRingList(xs) => xs
  }

  /** Processing is idempotent: a processed list passes through unchanged. */
  lemma ProcessScalarInputIdempotent(numRings: int, input: PerRing)
    ensures var once := ProcessScalarInput(numRings, input);
      ProcessScalarInput(numRings, PerRingList(once)) == once
  {
  }

  /** The Stokes parameters passed to the C++ solver. */
  datatype StokesCfg = StokesCfg(
    obstacleR: real, obstacleX: real, obstacleY: real, createLength: real,
    removeLength: real, fluxForce: real, obsForce: real, numMaxRings: int)

  /** `get_null_cpp_cfg`: every parameter zero and no ring capacity given (`-1`). */
  function NullStokesCfg(): (c: StokesCfg)
    ensures c.numMaxRings == -1
    ensures c.obstacleR == 0.0 && c.obstacleX == 0.0 && c.obstacleY == 0.0
    ensures c.createLength == 0.0 && c.removeLength == 0.0
    ensures c.fluxForce == 0.0 && c.obsForce == 0.0
  {
    StokesCfg(0.0, 0.0, 0.0, 0.0, 0.0, 0.0, 0.0, -1)
  }

  /**
   * A pool built with the null Stokes configuration has exactly as many slots
   * as initial rings, all of them occupied.
   */
  method PoolWithNullStokes(pos0: seq<seq<Point>>, selfPropAngle0: seq<real>, numParticles: int,
                            stokesInitPos: seq<seq<Point>>, stokesInitSelfAngle: real)
    returns (pool: RingPool.RingPool)
    requires |selfPropAngle0| >= |pos0| && numParticles >= 0
    ensures fresh(pool) && pool.Valid()
    ensures pool.numMaxRings == |pos0| && pool.numActiveRings == pool.numMaxRings
    ensures forall i :: 0 <= i < pool.numMaxRings ==> pool.mask[i]
  {
    pool := new RingPool.RingPool(pos0, selfPropAngle0, numParticles, NullStokesCfg().numMaxRings,
                                  stokesInitPos, stokesInitSelfAngle);
  }
}
