/**
 * The dynamic ring configuration of `configs/dynamic_cfgs.py`: the same
 * validation as the other ring configurations, but `p0` and `area0` are
 * properties whose setters rederive the other one from the perimeter
 * `num_particles * spring_r`, and the particle count can be changed keeping
 * either of them fixed.
 */
module DynamicCfgs {
  import opened Wrappers
  import opened RingConfigs

  /** `k_invasion`: "auto" (the minimal anti-invasion force) or a given value. */
  datatype KInvasion = Auto | Given(k: real)

  class DynamicRingCfg {
    const springK: real
    const springR: real
    const potential: Potential
    const kArea: Option<real>
    const kFormat: Option<real>
    const p0Format: Option<real>
    const kInvasion: real
    const dynamics: Dynamics
    var numParticles: int
    var p0: real
    var area0: real

    function Perimeter(): real
      reads this`numParticles
    {
      numParticles as real * springR
    }

    /** The relation every successful setter leaves behind: `p0**2 * area0 == (num_particles * spring_r)**2`. */
    predicate Related()
      reads this
    {
      Consistent(Perimeter(), p0, area0)
    }

    /**
     * The assignments before the first setter runs; `p0` and `area0` start at
     * zero here, where the Python object has no value for them yet.
     */
    constructor Raw(springK: real, springR: real, pars: AreaPars, kInvasion: real, dynamics: Dynamics, numParticles: int)
      ensures this.springK == springK && this.springR == springR && this.kInvasion == kInvasion
      ensures this.dynamics == dynamics && this.numParticles == numParticles
      ensures potential == pars.potential && kArea == pars.kArea && kFormat == pars.kFormat && p0Format == pars.p0Format
      ensures p0 == 0.0 && area0 == 0.0
    {
      this.springK, this.springR, this.kInvasion, this.dynamics := springK, springR, kInvasion, dynamics;
      this.numParticles := numParticles;
      potential, kArea, kFormat, p0Format := pars.potential, pars.kArea, pars.kFormat, pars.p0Format;
      p0, area0 := 0.0, 0.0;
    }

    /**
     * The `p0` setter: stores `p0`, then derives `area0` from it; a zero `p0`
     * raises after `p0` is stored, leaving `area0` as it was.
     */
    method SetP0(value: real) returns (r: Result<()>)
      modifies this`p0, this`area0
      ensures p0 == value
      ensures var a := AreaFromP0(Perimeter(), value);
        (r.Err? <==> a.Err?) &&
        (a.Err? ==> r.error == ZeroDivisionError && area0 == old(area0)) &&
        (a.Ok? ==> area0 == a.value)
      ensures r.Ok? ==> Related()
    {
      p0 := value;
      var a := AreaFromP0(Perimeter(), value);
      if a.Err? {
        return Err(a.error);
      }
      area0 := a.value;
      AreaFromP0Consistent(Perimeter(), value);
      r := Ok(());
    }

    /**
     * The `area0` setter: stores `area0`, then derives `p0` from its square
     * root; a zero root raises after `area0` is stored, leaving `p0` as it was.
     */
    method SetArea0(value: real, root: real -> real) returns (r: Result<()>)
      modifies this`p0, this`area0
      ensures area0 == value
      ensures var p := P0FromArea(Perimeter(), value, root);
        (r.Err? <==> p.Err?) &&
        (p.Err? ==> r.error == ZeroDivisionError && p0 == old(p0)) &&
        (p.Ok? ==> p0 == p.value)
      ensures r.Ok? && IsSqrt(root) && value >= 0.0 ==> Related()
    {
      area0 := value;
      var p := P0FromArea(Perimeter(), value, root);
      if p.Err? {
        return Err(p.error);
      }
      p0 := p.value;
      if IsSqrt(root) && value >= 0.0 {
        P0FromAreaDefined(Perimeter(), value, root);
        P0FromAreaConsistent(Perimeter(), value, root);
      }
      r := Ok(());
    }

    /**
     * `change_num_particles`: refuses any `fix` other than "p0" and "area0";
     * otherwise stores the new count and assigns the derived value of the
     * other parameter through its setter, which rederives the fixed one.
     * Fixing `p0` keeps it, up to the sign of `perimeter / p0`; fixing a
     * positive `area0` keeps it exactly.
     */
    method ChangeNumParticles(value: int, fix: string, root: real -> real) returns (r: Result<()>)
      modifies this`numParticles, this`p0, this`area0
      ensures fix != "p0" && fix != "area0" ==>
        r == Err(ValueError) && numParticles == old(numParticles) && p0 == old(p0) && area0 == old(area0)
      ensures fix == "p0" || fix == "area0" ==> numParticles == value
      ensures fix == "p0" ==>
        var a := AreaFromP0(Perimeter(), old(p0));
        (a.Err? ==> r == Err(ZeroDivisionError) && p0 == old(p0) && area0 == old(area0)) &&
        (a.Ok? ==>
          var p := P0FromArea(Perimeter(), a.value, root);
          area0 == a.value && (r.Err? <==> p.Err?) &&
          (p.Err? ==> r.error == ZeroDivisionError && p0 == old(p0)) && (p.Ok? ==> p0 == p.value))
      ensures fix == "area0" ==>
        var p := P0FromArea(Perimeter(), old(area0), root);
        (p.Err? ==> r == Err(ZeroDivisionError) && p0 == old(p0) && area0 == old(area0)) &&
        (p.Ok? ==>
          var a := AreaFromP0(Perimeter(), p.value);
          p0 == p.value && (r.Err? <==> a.Err?) &&
          (a.Err? ==> r.error == ZeroDivisionError && area0 == old(area0)) && (a.Ok? ==> area0 == a.value))
      ensures fix == "p0" && IsSqrt(root) && old(p0) != 0.0 && Perimeter() != 0.0 ==>
        r.Ok? && Related() && p0 == (if Perimeter() / old(p0) > 0.0 then old(p0) else -old(p0))
      ensures fix == "area0" && IsSqrt(root) && old(area0) > 0.0 && Perimeter() != 0.0 ==>
        r.Ok? && Related() && area0 == old(area0)
    {
      if fix != "p0" && fix != "area0" {
        return Err(ValueError);
      }
      numParticles := value;
      if fix == "p0" {
        r := KeepP0(root);
      } else {
        r := KeepArea0(root);
      }
    }

    /** The branch of `change_num_particles` that fixes `p0`: `self.area0 = self.get_area0(n)`. */
    method KeepP0(root: real -> real) returns (r: Result<()>)
      modifies this`p0, this`area0
      ensures var a := AreaFromP0(Perimeter(), old(p0));
        (a.Err? ==> r == Err(ZeroDivisionError) && p0 == old(p0) && area0 == old(area0)) &&
        (a.Ok? ==>
          var p := P0FromArea(Perimeter(), a.value, root);
          area0 == a.value && (r.Err? <==> p.Err?) &&
          (p.Err? ==> r.error == ZeroDivisionError && p0 == old(p0)) && (p.Ok? ==> p0 == p.value))
      ensures IsSqrt(root) && old(p0) != 0.0 && Perimeter() != 0.0 ==>
        r.Ok? && Related() && p0 == (if Perimeter() / old(p0) > 0.0 then old(p0) else -old(p0))
    {
      var per := Perimeter();
      var a := AreaFromP0(per, p0);
      if a.Err? {
        return Err(a.error);
      }
      if IsSqrt(root) && per != 0.0 {
        P0RoundTrip(per, p0, root);
      }
      r := SetArea0(a.value, root);
      assert Perimeter() == per;
    }

    /** The branch of `change_num_particles` that fixes `area0`: `self.p0 = self.get_p0(n)`. */
    method KeepArea0(root: real -> real) returns (r: Result<()>)
      modifies this`p0, this`area0
      ensures var p := P0FromArea(Perimeter(), old(area0), root);
        (p.Err? ==> r == Err(ZeroDivisionError) && p0 == old(p0) && area0 == old(area0)) &&
        (p.Ok? ==>
          var a := AreaFromP0(Perimeter(), p.value);
          p0 == p.value && (r.Err? <==> a.Err?) &&
          (a.Err? ==> r.error == ZeroDivisionError && area0 == old(area0)) && (a.Ok? ==> area0 == a.value))
      ensures IsSqrt(root) && old(area0) > 0.0 && Perimeter() != 0.0 ==>
        r.Ok? && Related() && area0 == old(area0)
    {
      var per := Perimeter();
      var p := P0FromArea(per, area0, root);
      if p.Err? {
        return Err(p.error);
      }
      if IsSqrt(root) && area0 > 0.0 && per != 0.0 {
        AreaRoundTrip(per, area0, root);
      }
      r := SetP0(p.value);
      assert Perimeter() == per;
    }

    /** `cpp_constructor_args`: the current `p0` and `area0` are what the C++ solver receives. */
    function CppConstructorArgs(): (a: CppRingArgs)
      reads this
      ensures a.p0 == Some(p0) && a.area0 == Some(area0) && ParsePotential(a.areaPotencial) == Ok(potential)
    {
      CppArgs(springK, springR, AreaPars(potential, Some(p0), Some(area0), kArea, kFormat, p0Format), kInvasion, dynamics)
    }
  }

  /**
   * The constructor: the validation, then the stores, with `p0` assigned
   * through its setter when given and `area0` through its own otherwise, so a
   * given `p0` wins over a given `area0`. "auto" takes `minInvForce`, the
   * value of `get_min_inv_force`.
   */
  method NewDynamicRingCfg(springK: real, springR: real, numParticles: int, kInvasion: KInvasion, minInvForce: real,
                           name: string, p0: Option<real>, area0: Option<real>,
                           kArea: Option<real>, kFormat: Option<real>, p0Format: Option<real>,
                           dynamics: Dynamics, root: real -> real)
    returns (r: Result<DynamicRingCfg>)
    ensures var check := CheckArea(name, p0, area0, kArea, kFormat, p0Format);
      check.Err? ==> r == Err(check.error)
    ensures var check := CheckArea(name, p0, area0, kArea, kFormat, p0Format);
      var perimeter := numParticles as real * springR;
      check.Ok? ==>
        var pars := check.value;
        (pars.p0.Some? ==>
          var a := AreaFromP0(perimeter, pars.p0.value);
          (r.Err? <==> a.Err?) && (r.Err? ==> r.error == ZeroDivisionError) &&
          (r.Ok? ==> r.value.p0 == pars.p0.value && r.value.area0 == a.value && r.value.Related())) &&
        (pars.p0.None? ==>
          var p := P0FromArea(perimeter, pars.area0.value, root);
          (r.Err? <==> p.Err?) && (r.Err? ==> r.error == ZeroDivisionError) &&
          (r.Ok? ==> r.value.area0 == pars.area0.value && r.value.p0 == p.value))
    ensures r.Ok? ==>
      var pars := CheckArea(name, p0, area0, kArea, kFormat, p0Format).value;
      fresh(r.value) && r.value.numParticles == numParticles && r.value.springR == springR &&
      r.value.potential == pars.potential && r.value.kArea == pars.kArea &&
      r.value.kFormat == pars.kFormat && r.value.p0Format == pars.p0Format &&
      r.value.kInvasion == (if kInvasion.Auto? then minInvForce else kInvasion.k)
  {
    var check := CheckArea(name, p0, area0, kArea, kFormat, p0Format);
    if check.Err? {
      return Err(check.error);
    }
    var pars := check.value;
    var k := if kInvasion.Auto? then minInvForce else kInvasion.k;
    var c := new DynamicRingCfg.Raw(springK, springR, pars, k, dynamics, numParticles);
    ghost var perimeter := c.Perimeter();
    assert perimeter == numParticles as real * springR;
    var s: Result<()>;
    if pars.p0.Some? {
      s := c.SetP0(pars.p0.value);
      assert c.Perimeter() == perimeter;
    } else {
      s := c.SetArea0(pars.area0.value, root);
      assert c.Perimeter() == perimeter;
    }
    if s.Err? {
      return Err(s.error);
    }
    r := Ok(c);
  }

  /**
   * Under "format" the sentinel `p0 = -1` goes through the `p0` setter, so the
   * stored `area0` is the squared perimeter rather than the sentinel.
   */
  lemma FormatArea0(perimeter: real)
    ensures AreaFromP0(perimeter, -1.0) == Ok(perimeter * perimeter)
  {
    var m := -perimeter;
    assert perimeter / -1.0 == m;
    AreaOfQuotient(perimeter, -1.0, m);
    assert m * m == perimeter * perimeter;
  }
}
