/**
 * The extreme-parameter generator of the ring examples: for each of the
 * eight combinations of low (0) and high (1) alignment, density and force it
 * builds a dynamic configuration (a copy of the base one with overrides) and
 * a Stokes configuration, merging the overrides of the three extremes in
 * that order and the combination's extras after each of them.
 */
module ExtremePars {
  import opened Wrappers

  /** A configuration as attribute names and values. */
  type Params = map<string, real>

  /** A dynamic and a Stokes configuration, or their overrides. */
  datatype Pair = Pair(dynamic: Params, stokes: Params)

  /** `get_key(align, den, force)`. */
  datatype Key = Key(align: int, den: int, force: int)

  /** The extremes in the order of the `extremes` dictionary. */
  const ExtremeNames: seq<string> := ["align", "den", "force"]

  /** `product([0, 1], repeat=3)`: the last component varies fastest. */
  const AllKeys: seq<Key> := [Key(0, 0, 0), Key(0, 0, 1), Key(0, 1, 0), Key(0, 1, 1),
                              Key(1, 0, 0), Key(1, 0, 1), Key(1, 1, 0), Key(1, 1, 1)]

  lemma AllKeysAreTheCombinations(k: Key)
    ensures k in AllKeys <==> k.align in {0, 1} && k.den in {0, 1} && k.force in {0, 1}
  {
  }

  /** `is_extreme_high[name]`: the component of the key that selects the extreme `name`. */
  function Level(key: Key, name: string): int
  {
    if name == "align" then key.align else if name == "den" then key.den else key.force
  }

  /** `dict.get(name, {})`. */
  function GetOr(m: map<string, Params>, name: string): (p: Params)
    ensures name in m ==> p == m[name]
    ensures name !in m ==> p == map[]
  {
    if name in m then m[name] else map[]
  }

  /**
   * The merge of `generate` after the first `n` extremes: each one's
   * overrides for the key's level, then the key's extras; an extreme without
   * overrides for that level is a KeyError.
   */
  function MergeUpTo(extremes: map<string, map<int, Pair>>, extra: Pair, key: Key, n: nat): (r: Result<Pair>)
    requires n <= |ExtremeNames|
    ensures r.Err? ==> r.error == KeyError
  {
    if n == 0 then Ok(Pair(map[], map[]))
    else
      var prev := MergeUpTo(extremes, extra, key, n - 1);
      var name := ExtremeNames[n - 1];
      if prev.Err? then prev
      else if name !in extremes || Level(key, name) !in extremes[name] then Err(KeyError)
      else
        var cur := extremes[name][Level(key, name)];
        Ok(Pair(prev.value.dynamic + cur.dynamic + extra.dynamic, prev.value.stokes + cur.stokes + extra.stokes))
  }

  /** Once all three extremes have both levels, every combination merges without error. */
  lemma {:induction false} MergeDefined(extremes: map<string, map<int, Pair>>, extra: Pair, key: Key, n: nat)
    requires n <= 3 && key in AllKeys
    requires forall name :: name in ExtremeNames ==> name in extremes && 0 in extremes[name] && 1 in extremes[name]
    ensures MergeUpTo(extremes, extra, key, n).Ok?
  {
    if n > 0 {
      MergeDefined(extremes, extra, key, n - 1);
      var name := ExtremeNames[n - 1];
      assert name in ExtremeNames;
      assert Level(key, name) in {0, 1};
    }
  }

  /** The extras win: each of the key's extras is in the merge with its own value. */
  lemma ExtrasWin(extremes: map<string, map<int, Pair>>, extra: Pair, key: Key, name: string)
    requires MergeUpTo(extremes, extra, key, 3).Ok?
    ensures name in extra.dynamic ==> MergeUpTo(extremes, extra, key, 3).value.dynamic[name] == extra.dynamic[name]
    ensures name in extra.stokes ==> MergeUpTo(extremes, extra, key, 3).value.stokes[name] == extra.stokes[name]
  {
  }

  /**
   * Without an extra for it, an attribute takes the value of the last extreme
   * in the order align, den, force that overrides it.
   */
  lemma {:induction false} LaterExtremeWins(extremes: map<string, map<int, Pair>>, extra: Pair, key: Key, n: nat, name: string)
    requires 1 <= n <= 3 && MergeUpTo(extremes, extra, key, n).Ok?
    requires name !in extra.dynamic
    requires name in extremes[ExtremeNames[n - 1]][Level(key, ExtremeNames[n - 1])].dynamic
    ensures name in MergeUpTo(extremes, extra, key, n).value.dynamic
    ensures MergeUpTo(extremes, extra, key, n).value.dynamic[name] ==
            extremes[ExtremeNames[n - 1]][Level(key, ExtremeNames[n - 1])].dynamic[name]
  {
    var prev := MergeUpTo(extremes, extra, key, n - 1);
    assert prev.Ok?;
  }

  /** Each merged attribute comes from an extreme or from the extras. */
  lemma {:induction false} MergeKeys(extremes: map<string, map<int, Pair>>, extra: Pair, key: Key, n: nat, name: string)
    requires n <= 3 && MergeUpTo(extremes, extra, key, n).Ok?
    requires name in MergeUpTo(extremes, extra, key, n).value.dynamic
    ensures name in extra.dynamic ||
            exists q :: 0 <= q < n && ExtremeNames[q] in extremes && Level(key, ExtremeNames[q]) in extremes[ExtremeNames[q]] &&
                        name in extremes[ExtremeNames[q]][Level(key, ExtremeNames[q])].dynamic
  {
    var prev := MergeUpTo(extremes, extra, key, n - 1);
    var cur := extremes[ExtremeNames[n - 1]][Level(key, ExtremeNames[n - 1])];
    if name !in extra.dynamic && name !in cur.dynamic {
      MergeKeys(extremes, extra, key, n - 1, name);
    }
  }

  class ExtremeConfigs {
    const baseDynamic: Params
    var configs: map<Key, Pair>
    var extremes: map<string, map<int, Pair>>
    var extras: map<Key, Pair>

    /** The extremes dictionary always has exactly the three names. */
    predicate Valid()
      reads this
    {
      extremes.Keys == {"align", "den", "force"}
    }

    constructor (baseDynamic: Params)
      ensures Valid()
      ensures this.baseDynamic == baseDynamic && configs == map[] && extras == map[]
      ensures extremes == map["align" := map[], "den" := map[], "force" := map[]]
    {
      this.baseDynamic := baseDynamic;
      configs := map[];
      extremes := map["align" := map[], "den" := map[], "force" := map[]];
      extras := map[];
    }

    /**
     * `add_extreme`: the "high" overrides at level 1 and the "low" ones at
     * level 0, a missing dictionary or entry counting as empty; a name other
     * than the three is a KeyError.
     */
    method AddExtreme(name: string, dynamicCfg: Option<map<string, Params>>, stokesCfg: Option<map<string, Params>>)
      returns (r: Result<()>)
      requires Valid()
      modifies this`extremes
      ensures Valid()
      ensures r.Err? <==> name !in old(extremes)
      ensures r.Err? ==> r.error == KeyError && extremes == old(extremes)
      ensures r.Ok? ==>
        var d := if dynamicCfg.Some? then dynamicCfg.value else map[];
        var s := if stokesCfg.Some? then stokesCfg.value else map[];
        extremes == old(extremes)[name := old(extremes)[name][1 := Pair(GetOr(d, "high"), GetOr(s, "high"))]
                                                            [0 := Pair(GetOr(d, "low"), GetOr(s, "low"))]]
    {
      var d := if dynamicCfg.Some? then dynamicCfg.value else map[];
      var s := if stokesCfg.Some? then stokesCfg.value else map[];
      if name !in extremes {
        return Err(KeyError);
      }
      extremes := extremes[name := extremes[name][1 := Pair(GetOr(d, "high"), GetOr(s, "high"))]];
      extremes := extremes[name := extremes[name][0 := Pair(GetOr(d, "low"), GetOr(s, "low"))]];
      r := Ok(());
    }

    /** `add_extra`: the key's extra overrides, a missing dictionary counting as empty. */
    method AddExtra(align: int, den: int, force: int, dynamicCfg: Option<Params>, stokesCfg: Option<Params>)
      modifies this`extras
      ensures extras == old(extras)[Key(align, den, force) :=
        Pair(if dynamicCfg.Some? then dynamicCfg.value else map[], if stokesCfg.Some? then stokesCfg.value else map[])]
    {
      var d := if dynamicCfg.Some? then dynamicCfg.value else map[];
      var s := if stokesCfg.Some? then stokesCfg.value else map[];
      extras := extras[Key(align, den, force) := Pair(d, s)];
    }

    /** `get`: the stored configurations of the key; an absent key is a KeyError. */
    function Get(align: int, den: int, force: int): (r: Result<Pair>)
      reads this
      ensures r.Ok? <==> Key(align, den, force) in configs
      ensures r.Ok? ==> r.value == configs[Key(align, den, force)]
      ensures r.Err? ==> r.error == KeyError
    {
      var key := Key(align, den, force);
      if key in configs then Ok(configs[key]) else Err(KeyError)
    }

    /**
     * `add`: a copy of the base dynamic configuration with the overrides set
     * on it, stored with the Stokes configuration; the base is not changed.
     */
    method Add(align: int, den: int, force: int, dynamicCfg: Params, stokesCfg: Params)
      modifies this`configs
      ensures configs == old(configs)[Key(align, den, force) := Pair(baseDynamic + dynamicCfg, stokesCfg)]
      ensures forall name :: name in dynamicCfg ==> configs[Key(align, den, force)].dynamic[name] == dynamicCfg[name]
      ensures forall name :: name in baseDynamic && name !in dynamicCfg ==>
        configs[Key(align, den, force)].dynamic[name] == baseDynamic[name]
    {
      var copy := baseDynamic;
      var names := dynamicCfg.Keys;
      while names != {}
        invariant names <= dynamicCfg.Keys
        invariant copy.Keys == baseDynamic.Keys + (dynamicCfg.Keys - names)
        invariant forall n :: n in copy ==> copy[n] == if n in dynamicCfg && n !in names then dynamicCfg[n] else baseDynamic[n]
        decreases names
      {
        var name :| name in names;
        copy := copy[name := dynamicCfg[name]];
        names := names - {name};
      }
      assert copy == baseDynamic + dynamicCfg;
      configs := configs[Key(align, den, force) := Pair(copy, stokesCfg)];
    }

    /** The merge loop of `generate` for one key. */
    method Merge(key: Key) returns (r: Result<Pair>)
      ensures r == MergeUpTo(extremes, ExtraOf(extras, key), key, |ExtremeNames|)
    {
      var extra := ExtraOf(extras, key);
      var dynamicCfg: Params := map[];
      var stokesCfg: Params := map[];
      var n := 0;
      while n < |ExtremeNames|
        invariant 0 <= n <= |ExtremeNames|
        invariant MergeUpTo(extremes, extra, key, n) == Ok(Pair(dynamicCfg, stokesCfg))
      {
        var name := ExtremeNames[n];
        var level := Level(key, name);
        if name !in extremes || level !in extremes[name] {
          MergeStopped(extremes, extra, key, n + 1);
          return Err(KeyError);
        }
        var cur := extremes[name][level];
        dynamicCfg := dynamicCfg + cur.dynamic;
        dynamicCfg := dynamicCfg + extra.dynamic;
        stokesCfg := stokesCfg + cur.stokes;
        stokesCfg := stokesCfg + extra.stokes;
        n := n + 1;
      }
      r := Ok(Pair(dynamicCfg, stokesCfg));
    }

    /** One iteration of `generate`: the key at position `i` is generated unless it is configured already. */
    method GenerateKey(i: int, ghost c0: map<Key, Pair>) returns (ok: bool)
      requires 0 <= i < |AllKeys| && GeneratedUpTo(configs, c0, i, extremes, extras, baseDynamic)
      modifies this`configs
      ensures ok ==> GeneratedUpTo(configs, c0, i + 1, extremes, extras, baseDynamic)
      ensures !ok ==> configs == old(configs) && AllKeys[i] !in c0 && MergeUpTo(extremes, ExtraOf(extras, AllKeys[i]), AllKeys[i], |ExtremeNames|).Err?
    {
      var key := AllKeys[i];
      if key in configs {
        SkipKeeps(configs, c0, i, extremes, extras, baseDynamic);
        return true;
      }
      assert key !in c0;
      var merged := Merge(key);
      if merged.Err? {
        return false;
      }
      ghost var before := configs;
      Add(key.align, key.den, key.force, merged.value.dynamic, merged.value.stokes);
      StoreKeeps(before, c0, i, configs[key], extremes, extras, baseDynamic);
      return true;
    }

    /**
     * `generate`: every combination not configured yet gets the base dynamic
     * configuration with the merged overrides; configured ones are left as
     * they were. A missing extreme level raises KeyError at the first key
     * that needs it, keeping what was stored before.
     */
    method Generate() returns (r: Result<()>)
      modifies this`configs
      ensures forall k :: k in old(configs) ==> k in configs && configs[k] == old(configs)[k]
      ensures forall k :: k in configs ==> k in old(configs) || k in AllKeys
      ensures r.Ok? <==> forall k :: k in AllKeys && k !in old(configs) ==> MergeUpTo(extremes, ExtraOf(extras, k), k, |ExtremeNames|).Ok?
      ensures r.Err? ==> r.error == KeyError
      ensures r.Err? ==> exists i :: 0 <= i < |AllKeys| && FailedAt(configs, old(configs), i, extremes, extras, baseDynamic)
      ensures r.Ok? ==> forall k :: k in AllKeys ==> Generated(configs, old(configs), k, extremes, extras, baseDynamic)
    {
      var i := 0;
      while i < |AllKeys|
        invariant 0 <= i <= |AllKeys|
        invariant GeneratedUpTo(configs, old(configs), i, extremes, extras, baseDynamic)
      {
        var ok := GenerateKey(i, old(configs));
        if !ok {
          assert AllKeys[i] in AllKeys;
          assert FailedAt(configs, old(configs), i, extremes, extras, baseDynamic);
          return Err(KeyError);
        }
        i := i + 1;
      }
      forall k | k in AllKeys
        ensures Generated(configs, old(configs), k, extremes, extras, baseDynamic)
      {
        var q :| 0 <= q < |AllKeys| && AllKeys[q] == k;
      }
      r := Ok(());
    }
  }

  /** `extras.get(key, {})`. */
  function ExtraOf(extras: map<Key, Pair>, key: Key): Pair
  {
    if key in extras then extras[key] else Pair(map[], map[])
  }

  /** What `generate` stores for a key: the old entry if there was one, else the base with the merged overrides. */
  ghost predicate Generated(configs: map<Key, Pair>, old_configs: map<Key, Pair>, key: Key,
                            extremes: map<string, map<int, Pair>>, extras: map<Key, Pair>, base: Params)
  {
    key in configs &&
    (key in old_configs ==> configs[key] == old_configs[key]) &&
    (key !in old_configs ==>
      var m := MergeUpTo(extremes, ExtraOf(extras, key), key, |ExtremeNames|);
      m.Ok? && configs[key] == Pair(base + m.value.dynamic, m.value.stokes))
  }

  /** The loop state of `generate` after the first i keys. */
  ghost predicate GeneratedUpTo(configs: map<Key, Pair>, c0: map<Key, Pair>, i: int,
                                extremes: map<string, map<int, Pair>>, extras: map<Key, Pair>, base: Params)
    requires 0 <= i <= |AllKeys|
  {
    KeepsOld(configs, c0) && AddedBefore(configs, c0, i) && AllGenerated(configs, c0, i, extremes, extras, base)
  }

  /**
   * `generate` stopped at combination `i`: the combinations before it are
   * generated and nothing else was added, while `i` itself is unconfigured
   * and its merge raises.
   */
  ghost predicate FailedAt(configs: map<Key, Pair>, c0: map<Key, Pair>, i: int,
                           extremes: map<string, map<int, Pair>>, extras: map<Key, Pair>, base: Params)
  {
    0 <= i < |AllKeys| && GeneratedUpTo(configs, c0, i, extremes, extras, base) &&
    AllKeys[i] !in c0 && MergeUpTo(extremes, ExtraOf(extras, AllKeys[i]), AllKeys[i], |ExtremeNames|).Err?
  }

  /** Every configured key keeps its configuration. */
  ghost predicate KeepsOld(configs: map<Key, Pair>, c0: map<Key, Pair>)
  {
    forall k :: k in c0 ==> k in configs && configs[k] == c0[k]
  }

  /** Every added key is one of the first `i` combinations. */
  ghost predicate AddedBefore(configs: map<Key, Pair>, c0: map<Key, Pair>, i: int)
  {
    forall k :: k in configs && k !in c0 ==> k in AllKeys && KeyIndex(k) < i
  }

  /** Each of the first `i` combinations is generated. */
  ghost predicate AllGenerated(configs: map<Key, Pair>, c0: map<Key, Pair>, i: int,
                               extremes: map<string, map<int, Pair>>, extras: map<Key, Pair>, base: Params)
    requires 0 <= i <= |AllKeys|
  {
    forall q :: 0 <= q < i ==> Generated(configs, c0, AllKeys[q], extremes, extras, base)
  }

  /** The position of a key among the combinations, reading its components as binary digits. */
  function KeyIndex(k: Key): int
  {
    4 * k.align + 2 * k.den + k.force
  }

  lemma KeyIndexOf(q: int)
    requires 0 <= q < |AllKeys|
    ensures KeyIndex(AllKeys[q]) == q
  {
  }

  /** Storing the key at position `i` keeps what was generated for the keys before it. */
  lemma StoreKeeps(c: map<Key, Pair>, c0: map<Key, Pair>, i: int, v: Pair,
                   extremes: map<string, map<int, Pair>>, extras: map<Key, Pair>, base: Params)
    requires 0 <= i < |AllKeys| && GeneratedUpTo(c, c0, i, extremes, extras, base)
    requires AllKeys[i] !in c0
    requires var m := MergeUpTo(extremes, ExtraOf(extras, AllKeys[i]), AllKeys[i], |ExtremeNames|);
      m.Ok? && v == Pair(base + m.value.dynamic, m.value.stokes)
    ensures GeneratedUpTo(c[AllKeys[i] := v], c0, i + 1, extremes, extras, base)
  {
    var key := AllKeys[i];
    var c' := c[key := v];
    KeyIndexOf(i);
    StoreKeepsOld(c, c0, key, v);
    StoreAddedBefore(c, c0, i, v);
    StoreGenerated(c, c0, i, v, extremes, extras, base);
  }

  lemma StoreKeepsOld(c: map<Key, Pair>, c0: map<Key, Pair>, key: Key, v: Pair)
    requires KeepsOld(c, c0) && key !in c0
    ensures KeepsOld(c[key := v], c0)
  {
    forall k | k in c0
      ensures k in c[key := v] && c[key := v][k] == c0[k]
    {
      assert k != key;
    }
  }

  lemma StoreAddedBefore(c: map<Key, Pair>, c0: map<Key, Pair>, i: int, v: Pair)
    requires 0 <= i < |AllKeys| && AddedBefore(c, c0, i)
    ensures AddedBefore(c[AllKeys[i] := v], c0, i + 1)
  {
    var key := AllKeys[i];
    KeyIndexOf(i);
    forall k | k in c[key := v] && k !in c0
      ensures k in AllKeys && KeyIndex(k) < i + 1
    {
      if k == key {
        assert AllKeys[i] in AllKeys;
      }
    }
  }

  lemma StoreGenerated(c: map<Key, Pair>, c0: map<Key, Pair>, i: int, v: Pair,
                       extremes: map<string, map<int, Pair>>, extras: map<Key, Pair>, base: Params)
    requires 0 <= i < |AllKeys| && AllGenerated(c, c0, i, extremes, extras, base)
    requires AllKeys[i] !in c0
    requires var m := MergeUpTo(extremes, ExtraOf(extras, AllKeys[i]), AllKeys[i], |ExtremeNames|);
      m.Ok? && v == Pair(base + m.value.dynamic, m.value.stokes)
    ensures AllGenerated(c[AllKeys[i] := v], c0, i + 1, extremes, extras, base)
  {
    var key := AllKeys[i];
    var c' := c[key := v];
    KeyIndexOf(i);
    forall q | 0 <= q < i
      ensures Generated(c', c0, AllKeys[q], extremes, extras, base)
    {
      KeyIndexOf(q);
      GeneratedElsewhere(c, c0, AllKeys[q], key, v, extremes, extras, base);
    }
    assert Generated(c', c0, key, extremes, extras, base);
  }

  /** Storing another key leaves what was generated for `k` in place. */
  lemma GeneratedElsewhere(c: map<Key, Pair>, c0: map<Key, Pair>, k: Key, key: Key, v: Pair,
                           extremes: map<string, map<int, Pair>>, extras: map<Key, Pair>, base: Params)
    requires k != key && Generated(c, c0, k, extremes, extras, base)
    ensures Generated(c[key := v], c0, k, extremes, extras, base)
  {
    assert c[key := v][k] == c[k];
  }

  /** A key configured already: it is in the old configurations and stays as it was. */
  lemma SkipKeeps(c: map<Key, Pair>, c0: map<Key, Pair>, i: int,
                  extremes: map<string, map<int, Pair>>, extras: map<Key, Pair>, base: Params)
    requires 0 <= i < |AllKeys| && GeneratedUpTo(c, c0, i, extremes, extras, base)
    requires AllKeys[i] in c
    ensures GeneratedUpTo(c, c0, i + 1, extremes, extras, base)
  {
    KeyIndexOf(i);
  }

  /** A merge that fails at extreme `n` fails for every later count too. */
  lemma {:induction false} MergeStopped(extremes: map<string, map<int, Pair>>, extra: Pair, key: Key, n: nat)
    requires 1 <= n <= 3
    requires MergeUpTo(extremes, extra, key, n - 1).Ok?
    requires ExtremeNames[n - 1] !in extremes || Level(key, ExtremeNames[n - 1]) !in extremes[ExtremeNames[n - 1]]
    ensures MergeUpTo(extremes, extra, key, 3).Err?
  {
    if n < 3 {
      MergeErrStays(extremes, extra, key, n);
    }
  }

  lemma {:induction false} MergeErrStays(extremes: map<string, map<int, Pair>>, extra: Pair, key: Key, n: nat)
    requires 1 <= n <= 3 && MergeUpTo(extremes, extra, key, n).Err?
    ensures MergeUpTo(extremes, extra, key, 3).Err?
    decreases 3 - n
  {
    if n < 3 {
      MergeErrStays(extremes, extra, key, n + 1);
    }
  }
}
