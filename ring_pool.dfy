/**
 * The ring pool of the C++ `Ring` solver: a fixed number of slots, a mask of
 * the slots in use, the compacted list `rings_ids` of used slots, the active
 * count and a flag saying that the list is stale; plus the unique-id counter
 * and the stokes-regime creation and removal of rings.  Only the pool fields
 * of `Ring` are held here; positions are stored per slot but not integrated.
 */
module RingPool {
  import opened Wrappers
  import opened Numeric
  import opened Grid
  import opened Windows

  /** `UniqueId`: a counter handing out 1, 2, 3, ... */
  class UniqueId {
    var maxId: int

    constructor ()
      ensures maxId == 0
    {
      maxId := 0;
    }

    /** `new_id`: increments the stored maximum and returns it. */
    method NewId() returns (id: int)
      modifies this
      ensures maxId == old(maxId) + 1 && id == maxId
    {
      maxId := maxId + 1;
      id := maxId;
    }
  }

  /** The used slots of a mask, in increasing order. */
  function ActiveSlots(mask: seq<bool>): seq<int>
  {
    if mask == [] then []
    else
      var n := |mask| - 1;
      ActiveSlots(mask[..n]) + (if mask[n] then [n] else [])
  }

  lemma {:induction false} ActiveSlotsSpec(mask: seq<bool>)
    ensures |ActiveSlots(mask)| == CountTrue(mask) <= |mask|
    ensures forall j :: j in ActiveSlots(mask) <==> 0 <= j < |mask| && mask[j]
    ensures StrictlyIncreasing(ActiveSlots(mask))
  {
    ActiveSlotsLength(mask);
    ActiveSlotsMembers(mask);
    ActiveSlotsIncreasing(mask);
  }

  lemma {:induction false} ActiveSlotsLength(mask: seq<bool>)
    ensures |ActiveSlots(mask)| == CountTrue(mask) <= |mask|
  {
    if mask != [] {
      ActiveSlotsLength(mask[..|mask| - 1]);
    }
  }

  lemma {:induction false} ActiveSlotsMembers(mask: seq<bool>)
    ensures forall j :: j in ActiveSlots(mask) <==> 0 <= j < |mask| && mask[j]
  {
    if mask != [] {
      var n := |mask| - 1;
      var init := mask[..n];
      ActiveSlotsMembers(init);
      assert forall j :: 0 <= j < n ==> init[j] == mask[j];
    }
  }

  lemma {:induction false} ActiveSlotsIncreasing(mask: seq<bool>)
    ensures StrictlyIncreasing(ActiveSlots(mask))
  {
    if mask != [] {
      var n := |mask| - 1;
      ActiveSlotsIncreasing(mask[..n]);
      ActiveSlotsMembers(mask[..n]);
      var a := ActiveSlots(mask[..n]);
      forall k | 0 <= k < |a|
        ensures a[k] < n
      {
        assert a[k] in a;
      }
    }
  }

  /** Setting one slot changes the count of used slots by one at most. */
  lemma {:induction false} CountTrueUpdate(mask: seq<bool>, i: int, b: bool)
    requires 0 <= i < |mask|
    ensures CountTrue(mask[i := b]) == CountTrue(mask) - (if mask[i] then 1 else 0) + (if b then 1 else 0)
  {
    var n := |mask| - 1;
    if i < n {
      assert mask[i := b][..n] == mask[..n][i := b];
      CountTrueUpdate(mask[..n], i, b);
    } else {
      assert mask[i := b][..n] == mask[..n];
    }
  }

  /** The lowest unused slot, if any (the slot `add_ring` fills). */
  function FirstFree(mask: seq<bool>): (r: Option<int>)
    ensures r.Some? ==> 0 <= r.value < |mask| && !mask[r.value] && forall j :: 0 <= j < r.value ==> mask[j]
    ensures r.None? ==> forall j :: 0 <= j < |mask| ==> mask[j]
  {
    if mask == [] then None
    else if !mask[0] then Some(0)
    else
      match FirstFree(mask[1..])
      case None => None
      case Some(k) => Some(k + 1)
  }

  /** A full mask has a used slot everywhere; otherwise a free slot exists. */
  lemma FirstFreeCount(mask: seq<bool>)
    ensures FirstFree(mask).None? <==> CountTrue(mask) == |mask|
  {
    ActiveSlotsSpec(mask);
    if FirstFree(mask).None? {
      AllTrueCount(mask);
    } else {
      var i := FirstFree(mask).value;
      CountTrueUpdate(mask, i, true);
      ActiveSlotsSpec(mask[i := true]);
    }
  }

  lemma {:induction false} AllTrueCount(mask: seq<bool>)
    requires forall j :: 0 <= j < |mask| ==> mask[j]
    ensures CountTrue(mask) == |mask|
  {
    if mask != [] {
      AllTrueCount(mask[..|mask| - 1]);
    }
  }

  /** `base` with `base[idx[k]] := vals[k]` applied for k = 0, 1, ... in turn. */
  function Scatter<A>(base: seq<A>, idx: seq<int>, vals: seq<A>): (r: seq<A>)
    requires |idx| <= |vals| && forall k :: 0 <= k < |idx| ==> 0 <= idx[k] < |base|
    ensures |r| == |base|
  {
    if idx == [] then base
    else
      var n := |idx| - 1;
      Scatter(base, idx[..n], vals)[idx[n] := vals[n]]
  }

  lemma ScatterSnoc<A>(base: seq<A>, idx: seq<int>, vals: seq<A>, i: int)
    requires 0 <= i < |idx| <= |vals| && forall k :: 0 <= k < |idx| ==> 0 <= idx[k] < |base|
    ensures Scatter(base, idx[..i + 1], vals) == Scatter(base, idx[..i], vals)[idx[i] := vals[i]]
  {
    assert idx[..i + 1][..i] == idx[..i];
  }

  /** Slots never written keep their value. */
  lemma {:induction false} ScatterOutside<A>(base: seq<A>, idx: seq<int>, vals: seq<A>)
    requires |idx| <= |vals| && forall k :: 0 <= k < |idx| ==> 0 <= idx[k] < |base|
    ensures forall j :: 0 <= j < |base| && j !in idx ==> Scatter(base, idx, vals)[j] == base[j]
  {
    if idx != [] {
      var n := |idx| - 1;
      ScatterOutside(base, idx[..n], vals);
      assert forall j :: j in idx[..n] ==> j in idx;
    }
  }

  /** A written slot holds the value of its last write. */
  lemma {:induction false} ScatterLast<A>(base: seq<A>, idx: seq<int>, vals: seq<A>)
    requires |idx| <= |vals| && forall k :: 0 <= k < |idx| ==> 0 <= idx[k] < |base|
    ensures forall k :: 0 <= k < |idx| && (forall k' :: k < k' < |idx| ==> idx[k'] != idx[k]) ==>
              Scatter(base, idx, vals)[idx[k]] == vals[k]
  {
    if idx != [] {
      var n := |idx| - 1;
      ScatterLast(base, idx[..n], vals);
      forall k | 0 <= k < n && (forall k' :: k < k' < |idx| ==> idx[k'] != idx[k])
        ensures Scatter(base, idx, vals)[idx[k]] == vals[k]
      {
        assert forall k' :: k < k' < n ==> idx[..n][k'] != idx[..n][k];
      }
    }
  }

  /** Marking the listed slots of an all-false mask makes exactly them true. */
  lemma LoadedMask(n: nat, idx: seq<int>)
    requires forall k :: 0 <= k < |idx| ==> 0 <= idx[k] < n
    ensures forall j :: 0 <= j < n ==> (Scatter(seq(n, _ => false), idx, seq(|idx|, _ => true))[j] <==> j in idx)
  {
    var trues := seq(|idx|, _ => true);
    ScatterOutside(seq(n, _ => false), idx, trues);
    ScatterFrom(seq(n, _ => false), idx, trues);
  }

  /** A written slot holds one of the written values. */
  lemma {:induction false} ScatterFrom<A>(base: seq<A>, idx: seq<int>, vals: seq<A>)
    requires |idx| <= |vals| && forall k :: 0 <= k < |idx| ==> 0 <= idx[k] < |base|
    ensures forall j :: j in idx ==> Scatter(base, idx, vals)[j] in vals
  {
    if idx != [] {
      var n := |idx| - 1;
      ScatterFrom(base, idx[..n], vals);
      forall j | j in idx ensures Scatter(base, idx, vals)[j] in vals {
        if j != idx[n] {
          var k :| 0 <= k < |idx| && idx[k] == j;
          assert idx[..n][k] == j;
        }
      }
    }
  }

  /** The copy loop of `load_checkpoint`, on the per-slot arrays as values. */
  method WriteCheckpoint<P>(pos: seq<P>, angle: seq<real>, uids: seq<int>, mask: seq<bool>, ringsIds: seq<int>,
                            posCp: seq<P>, angleCp: seq<real>, idsCp: seq<int>, uidsCp: seq<int>)
    returns (pos': seq<P>, angle': seq<real>, uids': seq<int>, mask': seq<bool>, ringsIds': seq<int>)
    requires |idsCp| <= |posCp| && |idsCp| <= |angleCp| && |idsCp| <= |uidsCp| && |idsCp| <= |ringsIds|
    requires |pos| == |angle| == |uids| == |mask|
    requires forall k :: 0 <= k < |idsCp| ==> 0 <= idsCp[k] < |mask|
    ensures pos' == Scatter(pos, idsCp, posCp) && angle' == Scatter(angle, idsCp, angleCp)
    ensures uids' == Scatter(uids, idsCp, uidsCp) && mask' == Scatter(mask, idsCp, seq(|idsCp|, _ => true))
    ensures |ringsIds'| == |ringsIds| && ringsIds'[..|idsCp|] == idsCp && ringsIds'[|idsCp|..] == ringsIds[|idsCp|..]
  {
    pos', angle', uids', mask', ringsIds' := pos, angle, uids, mask, ringsIds;
    var i := 0;
    while i < |idsCp|
      invariant 0 <= i <= |idsCp| && |ringsIds'| == |ringsIds|
      invariant pos' == Scatter(pos, idsCp[..i], posCp)
      invariant angle' == Scatter(angle, idsCp[..i], angleCp)
      invariant uids' == Scatter(uids, idsCp[..i], uidsCp)
      invariant mask' == Scatter(mask, idsCp[..i], seq(|idsCp|, _ => true))
      invariant ringsIds'[..i] == idsCp[..i] && ringsIds'[i..] == ringsIds[i..]
    {
      var id := idsCp[i];
      ScatterSnoc(pos, idsCp, posCp, i);
      ScatterSnoc(angle, idsCp, angleCp, i);
      ScatterSnoc(uids, idsCp, uidsCp, i);
      ScatterSnoc(mask, idsCp, seq(|idsCp|, _ => true), i);
      pos' := pos'[id := posCp[i]];
      angle' := angle'[id := angleCp[i]];
      uids' := uids'[id := uidsCp[i]];
      mask' := mask'[id := true];
      ringsIds' := ringsIds'[i := id];
      i := i + 1;
    }
    assert idsCp[..|idsCp|] == idsCp;
  }

  /**
   * The removal loop of `advance_time_stokes` over the first `n` entries of
   * the active list (the count at entry): each listed slot whose centre x
   * exceeds `border` is cleared; `removed` counts the clearings.
   */
  method RemovalSweep(mask: seq<bool>, ids: seq<int>, n: int, centerMass: seq<Point>, border: real)
    returns (mask': seq<bool>, removed: nat)
    requires 0 <= n <= |ids| && StrictlyIncreasing(ids[..n])
    requires forall k :: 0 <= k < n ==> 0 <= ids[k] < |mask| && ids[k] < |centerMass| && mask[ids[k]]
    ensures |mask'| == |mask|
    ensures forall j :: 0 <= j < |mask| ==> mask'[j] == (mask[j] && !(j in ids[..n] && centerMass[j].0 > border))
    ensures CountTrue(mask') == CountTrue(mask) - removed
    ensures removed == 0 ==> mask' == mask
  {
    mask' := mask;
    removed := 0;
    var i := 0;
    while i < n
      invariant 0 <= i <= n && |mask'| == |mask|
      invariant forall j :: 0 <= j < |mask| ==> mask'[j] == (mask[j] && !(j in ids[..i] && centerMass[j].0 > border))
      invariant CountTrue(mask') == CountTrue(mask) - removed
      invariant removed == 0 ==> mask' == mask
    {
      var ringId := ids[i];
      assert ids[..i + 1] == ids[..i] + [ringId];
      assert ids[..n][i] == ringId;
      assert forall k :: 0 <= k < i ==> ids[..i][k] == ids[..n][k] < ringId;
      if centerMass[ringId].0 > border {
        CountTrueUpdate(mask', ringId, false);
        mask' := mask'[ringId := false];
        removed := removed + 1;
      }
      i := i + 1;
    }
  }

  /**
   * The removal loop of `advance_time_stokes` read sequentially, the bound
   * `num_active_rings` being re-read after every removal: the ring ids it
   * removes, scanning the list from position i with bound n.
   */
  function SweepRereadBound(ids: seq<int>, i: nat, n: int, centerMass: seq<Point>, border: real): seq<int>
    requires forall k :: 0 <= k < |ids| ==> 0 <= ids[k] < |centerMass|
    decreases n - i
  {
    if i >= n || i >= |ids| then []
    else if centerMass[ids[i]].0 > border then [ids[i]] + SweepRereadBound(ids, i + 1, n - 1, centerMass, border)
    else SweepRereadBound(ids, i + 1, n, centerMass, border)
  }

  /**
   * Read that way, when every listed ring is past the border only the first
   * half of the list (rounded up) is removed: each removal shortens the bound.
   */
  lemma {:induction false} SweepRereadBoundHalf(ids: seq<int>, i: nat, n: int, centerMass: seq<Point>, border: real)
    requires forall k :: 0 <= k < |ids| ==> 0 <= ids[k] < |centerMass| && centerMass[ids[k]].0 > border
    requires i <= n <= |ids|
    ensures SweepRereadBound(ids, i, n, centerMass, border) == ids[i..(n + i + 1) / 2]
    decreases n - i
  {
    if i + 1 < n {
      SweepRereadBoundHalf(ids, i + 1, n - 1, centerMass, border);
      assert (n - 1 + i + 1 + 1) / 2 == (n + i + 1) / 2;
      assert ids[i..(n + i + 1) / 2] == [ids[i]] + ids[i + 1..(n + i + 1) / 2];
    } else if i + 1 == n {
      assert ids[i..(n + i + 1) / 2] == [ids[i]];
    }
  }

  /** Two rings both past the border: the re-read bound removes only the first. */
  lemma SweepRereadBoundMissesRing()
    ensures SweepRereadBound([0, 1], 0, 2, [(2.0, 0.0), (2.0, 0.0)], 1.0) == [0]
  {
    SweepRereadBoundHalf([0, 1], 0, 2, [(2.0, 0.0), (2.0, 0.0)], 1.0);
  }

  /** The per-slot state `add_ring` writes: mask, positions, angles, unique ids and the id counter. */
  datatype Slots = Slots(mask: seq<bool>, pos: seq<seq<Point>>, angle: seq<real>, uids: seq<int>, maxId: int)

  predicate SlotsShaped(s: Slots)
  {
    |s.pos| == |s.mask| && |s.angle| == |s.mask| && |s.uids| == |s.mask|
  }

  /**
   * One `add_ring` on slot state: the lowest free slot becomes used and takes
   * the template ring, the creation angle and the next unique id; with no
   * free slot nothing changes.
   */
  function AddStep(s: Slots, template: seq<Point>, angle: real): (r: Slots)
    requires SlotsShaped(s)
    ensures SlotsShaped(r) && |r.mask| == |s.mask|
  {
    match FirstFree(s.mask)
    case None => s
    case Some(i) =>
      Slots(s.mask[i := true], s.pos[i := template], s.angle[i := angle], s.uids[i := s.maxId + 1], s.maxId + 1)
  }

  /**
   * The slot state after the creation loop of `update_stokes`: one `add_ring`
   * with template i for every requested candidate i, in order.
   */
  function CreatedSlots(s: Slots, toCreate: seq<bool>, templates: seq<seq<Point>>, angle: real): (r: Slots)
    requires SlotsShaped(s) && |toCreate| <= |templates|
    ensures SlotsShaped(r) && |r.mask| == |s.mask|
    decreases |toCreate|
  {
    if toCreate == [] then s
    else
      var n := |toCreate| - 1;
      var prev := CreatedSlots(s, toCreate[..n], templates, angle);
      if toCreate[n] then AddStep(prev, templates[n], angle) else prev
  }

  /** One more round of the creation loop: request i, if set, applies one `AddStep`. */
  lemma CreatedSlotsStep(s: Slots, toCreate: seq<bool>, templates: seq<seq<Point>>, angle: real, i: int)
    requires SlotsShaped(s) && 0 <= i < |toCreate| <= |templates|
    ensures CountTrue(toCreate[..i + 1]) == CountTrue(toCreate[..i]) + (if toCreate[i] then 1 else 0)
    ensures var prev := CreatedSlots(s, toCreate[..i], templates, angle);
            CreatedSlots(s, toCreate[..i + 1], templates, angle) ==
              if toCreate[i] then AddStep(prev, templates[i], angle) else prev
  {
    assert toCreate[..i + 1] == toCreate[..i] + [toCreate[i]];
    assert toCreate[..i + 1][..i] == toCreate[..i];
    CountTrueSnoc(toCreate[..i], toCreate[i]);
  }

  /** Creation never touches a slot already in use: it stays used with its ring, angle and unique id. */
  lemma {:induction false} CreatedKeepsUsed(s: Slots, toCreate: seq<bool>, templates: seq<seq<Point>>, angle: real, j: int)
    requires SlotsShaped(s) && |toCreate| <= |templates| && 0 <= j < |s.mask| && s.mask[j]
    ensures var r := CreatedSlots(s, toCreate, templates, angle);
            r.mask[j] && r.pos[j] == s.pos[j] && r.angle[j] == s.angle[j] && r.uids[j] == s.uids[j]
  {
    if toCreate != [] {
      CreatedKeepsUsed(s, toCreate[..|toCreate| - 1], templates, angle, j);
    }
  }

  /** The used-slot count after creation: one more per request, capped by the slots that were free. */
  lemma {:induction false} CreatedCount(s: Slots, toCreate: seq<bool>, templates: seq<seq<Point>>, angle: real)
    requires SlotsShaped(s) && |toCreate| <= |templates|
    ensures CountTrue(s.mask) <= |s.mask|
    ensures CountTrue(CreatedSlots(s, toCreate, templates, angle).mask) ==
            CountTrue(s.mask) + Min(CountTrue(toCreate), |s.mask| - CountTrue(s.mask))
  {
    ActiveSlotsLength(s.mask);
    if toCreate != [] {
      var n := |toCreate| - 1;
      CreatedCount(s, toCreate[..n], templates, angle);
      var prev := CreatedSlots(s, toCreate[..n], templates, angle);
      assert toCreate == toCreate[..n] + [toCreate[n]];
      CountTrueSnoc(toCreate[..n], toCreate[n]);
      if toCreate[n] {
        FirstFreeCount(prev.mask);
        if FirstFree(prev.mask).Some? {
          CountTrueUpdate(prev.mask, FirstFree(prev.mask).value, true);
        }
      }
    }
  }

  /** Creation never frees a slot, and the id counter grows by one per slot filled. */
  lemma {:induction false} CreatedCounter(s: Slots, toCreate: seq<bool>, templates: seq<seq<Point>>, angle: real)
    requires SlotsShaped(s) && |toCreate| <= |templates|
    ensures var r := CreatedSlots(s, toCreate, templates, angle);
            r.maxId == s.maxId + CountTrue(r.mask) - CountTrue(s.mask) &&
            forall j :: 0 <= j < |s.mask| && s.mask[j] ==> r.mask[j]
  {
    if toCreate != [] {
      var n := |toCreate| - 1;
      CreatedCounter(s, toCreate[..n], templates, angle);
      var prev := CreatedSlots(s, toCreate[..n], templates, angle);
      if toCreate[n] && FirstFree(prev.mask).Some? {
        CountTrueUpdate(prev.mask, FirstFree(prev.mask).value, true);
      }
    }
  }

  /**
   * The pool of `Ring`: per-slot positions, self-propulsion angles and unique
   * ids, the mask of used slots, the compacted id list and the active count.
   */
  class RingPool {
    const numMaxRings: int
    const numParticles: int
    const uniqueIdMng: UniqueId
    /** Template positions of the rings the stokes regime creates. */
    const stokesInitPos: seq<seq<Point>>
    const stokesInitSelfAngle: real
    var pos: seq<seq<Point>>
    var selfPropAngle: seq<real>
    var mask: seq<bool>
    var ringsIds: seq<int>
    var uniqueRingsIds: seq<int>
    var numActiveRings: int
    var toRecalculateIds: bool
    var numCreatedRings: int

    /** All per-slot arrays have one entry per slot. */
    ghost predicate Valid()
      reads this
    {
      numMaxRings >= 0 &&
      |pos| == numMaxRings && |selfPropAngle| == numMaxRings && |mask| == numMaxRings &&
      |ringsIds| == numMaxRings && |uniqueRingsIds| == numMaxRings
    }

    /** The slot state `add_ring` writes. */
    ghost function SlotState(): Slots
      reads this, uniqueIdMng
    {
      Slots(mask, pos, selfPropAngle, uniqueRingsIds, uniqueIdMng.maxId)
    }

    /** The active count equals the number of used slots. */
    ghost predicate Counted()
      reads this
      requires Valid()
    {
      numActiveRings == CountTrue(mask)
    }

    /** The id list is up to date: its first `numActiveRings` entries are the used slots, ascending. */
    ghost predicate Compact()
      reads this
      requires Valid()
    {
      !toRecalculateIds && Counted() && 0 <= numActiveRings <= numMaxRings &&
      ringsIds[..numActiveRings] == ActiveSlots(mask)
    }

    /** No used slot has a unique id above the counter's maximum, so new ids are fresh. */
    ghost predicate UidsBelowMax()
      reads this, uniqueIdMng
      requires Valid()
    {
      forall i :: 0 <= i < numMaxRings && mask[i] ==> uniqueRingsIds[i] <= uniqueIdMng.maxId
    }

    /** Used slots carry pairwise different unique ids. */
    ghost predicate UidsDistinct()
      reads this
      requires Valid()
    {
      forall i, j :: 0 <= i < numMaxRings && 0 <= j < numMaxRings && i != j && mask[i] && mask[j] ==>
        uniqueRingsIds[i] != uniqueRingsIds[j]
    }

    /**
     * The constructor's seating: the pool has `numMaxRingsCfg` slots when that
     * is positive, else one per initial ring; the first rings are seated in
     * slots 0, 1, ... with unique ids 1, 2, ...; the active count is the
     * number of initial rings.
     */
    constructor (pos0: seq<seq<Point>>, selfPropAngle0: seq<real>, numParticles: int, numMaxRingsCfg: int,
                 stokesInitPos: seq<seq<Point>>, stokesInitSelfAngle: real)
      requires |selfPropAngle0| >= |pos0| && numParticles >= 0
      ensures Valid() && fresh(uniqueIdMng)
      ensures numMaxRings == (if numMaxRingsCfg > 0 then numMaxRingsCfg else |pos0|)
      ensures numActiveRings == |pos0| && !toRecalculateIds
      ensures this.stokesInitPos == stokesInitPos && this.stokesInitSelfAngle == stokesInitSelfAngle
      ensures uniqueIdMng.maxId == Min(|pos0|, numMaxRings)
      ensures forall i :: 0 <= i < numMaxRings ==>
                (mask[i] <==> i < |pos0|) &&
                (i < |pos0| ==> pos[i] == pos0[i] && selfPropAngle[i] == selfPropAngle0[i] &&
                                ringsIds[i] == i && uniqueRingsIds[i] == i + 1)
      ensures |pos0| <= numMaxRings ==> Compact() && UidsBelowMax() && UidsDistinct()
    {
      var n := if numMaxRingsCfg > 0 then numMaxRingsCfg else |pos0|;
      var u := new UniqueId();
      var p: seq<seq<Point>> := seq(n, _ => seq(numParticles, _ => (0.0, 0.0)));
      var ang: seq<real> := seq(n, _ => 0.0);
      var m: seq<bool> := seq(n, _ => false);
      var ids: seq<int> := seq(n, _ => 0);
      var uids: seq<int> := seq(n, _ => 0);
      var i := 0;
      while i < n
        invariant 0 <= i <= n
        invariant |p| == n && |ang| == n && |m| == n && |ids| == n && |uids| == n
        invariant u.maxId == Min(i, |pos0|)
        invariant forall k :: 0 <= k < n ==> (m[k] <==> k < i && k < |pos0|)
        invariant forall k :: 0 <= k < i && k < |pos0| ==> p[k] == pos0[k]
        invariant forall k :: 0 <= k < i && k < |pos0| ==> ang[k] == selfPropAngle0[k]
        invariant forall k :: 0 <= k < i && k < |pos0| ==> ids[k] == k && uids[k] == k + 1
      {
        if i < |pos0| {
          p := p[i := pos0[i]];
          ang := ang[i := selfPropAngle0[i]];
          m := m[i := true];
          ids := ids[i := i];
          var id := u.NewId();
          uids := uids[i := id];
        } else {
          m := m[i := false];
        }
        i := i + 1;
      }
      if |pos0| <= n {
        PrefixMask(m, |pos0|);
        ActiveSlotsSpec(m);
        assert ids[..|pos0|] == Range(|pos0|);
      }
      this.numMaxRings := n;
      this.numParticles := numParticles;
      this.stokesInitPos := stokesInitPos;
      this.stokesInitSelfAngle := stokesInitSelfAngle;
      uniqueIdMng := u;
      numActiveRings := |pos0|;
      toRecalculateIds := false;
      numCreatedRings := 0;
      pos := p;
      selfPropAngle := ang;
      mask := m;
      ringsIds := ids;
      uniqueRingsIds := uids;
    }

    /** A mask true exactly on [0, k) has count k and used slots 0, ..., k-1. */
    static lemma {:induction false} PrefixMask(mask: seq<bool>, k: int)
      requires 0 <= k <= |mask| && forall j :: 0 <= j < |mask| ==> (mask[j] <==> j < k)
      ensures CountTrue(mask) == k && ActiveSlots(mask) == Range(k)
    {
      if |mask| > 0 {
        var n := |mask| - 1;
        if k == |mask| {
          PrefixMask(mask[..n], n);
          assert Range(n) + [n] == Range(k);
        } else {
          PrefixMask(mask[..n], k);
        }
      }
    }

    /**
     * `recalculate_rings_ids`: the used slots are listed, ascending, at the
     * front of `ringsIds`; the active count becomes their number and the
     * flag is cleared; the rest of the list and every other field stay.
     */
    method RecalculateRingsIds()
      requires Valid()
      modifies this
      ensures Valid() && Compact()
      ensures mask == old(mask) && pos == old(pos) && selfPropAngle == old(selfPropAngle)
      ensures uniqueRingsIds == old(uniqueRingsIds) && numCreatedRings == old(numCreatedRings)
      ensures ringsIds[numActiveRings..] == old(ringsIds)[numActiveRings..]
    {
      ghost var r0 := ringsIds;
      var m := mask;
      var ids := ringsIds;
      var nextId := 0;
      var i := 0;
      while i < |m|
        invariant 0 <= i <= |m| && |ids| == |m| && unchanged(this) && m == mask
        invariant nextId == CountTrue(m[..i]) <= i
        invariant ids[..nextId] == ActiveSlots(m[..i])
        invariant ids[nextId..] == r0[nextId..]
      {
        ActiveSlotsLength(m[..i]);
        assert m[..i + 1][..i] == m[..i];
        if m[i] {
          ids := ids[nextId := i];
          nextId := nextId + 1;
        }
        i := i + 1;
      }
      assert m[..|m|] == m;
      toRecalculateIds := false;
      ringsIds := ids;
      numActiveRings := nextId;
    }

    /**
     * `add_ring`: the lowest free slot receives the template ring
     * `stokesInitPos[addRingId]`, the creation angle and a fresh unique id;
     * it becomes used, the active count grows and the flag is raised.  With
     * no free slot nothing changes.
     */
    method AddRing(addRingId: int)
      requires Valid() && 0 <= addRingId < |stokesInitPos|
      modifies this, uniqueIdMng
      ensures Valid() && ringsIds == old(ringsIds) && numCreatedRings == old(numCreatedRings)
      ensures match FirstFree(old(mask))
              case None =>
                mask == old(mask) && pos == old(pos) && selfPropAngle == old(selfPropAngle) &&
                uniqueRingsIds == old(uniqueRingsIds) && numActiveRings == old(numActiveRings) &&
                toRecalculateIds == old(toRecalculateIds) && uniqueIdMng.maxId == old(uniqueIdMng.maxId)
              case Some(i) =>
                mask == old(mask)[i := true] && pos == old(pos)[i := stokesInitPos[addRingId]] &&
                selfPropAngle == old(selfPropAngle)[i := stokesInitSelfAngle] &&
                uniqueIdMng.maxId == old(uniqueIdMng.maxId) + 1 &&
                uniqueRingsIds == old(uniqueRingsIds)[i := uniqueIdMng.maxId] &&
                numActiveRings == old(numActiveRings) + 1 && toRecalculateIds
      ensures CountTrue(mask) == Min(old(CountTrue(mask)) + 1, numMaxRings)
      ensures old(Counted()) ==> Counted()
      ensures old(UidsBelowMax()) ==> UidsBelowMax()
      ensures old(UidsBelowMax() && UidsDistinct()) ==> UidsDistinct()
    {
      FirstFreeCount(mask);
      ActiveSlotsLength(mask);
      var i := 0;
      while i < |mask|
        invariant 0 <= i <= |mask|
        invariant forall j :: 0 <= j < i ==> mask[j]
        invariant FirstFree(mask).None? || i <= FirstFree(mask).value
      {
        if !mask[i] {
          FillSlot(i, addRingId);
          return;
        }
        i := i + 1;
      }
    }

    /** The body of `add_ring` once the free slot i is found. */
    method FillSlot(i: int, addRingId: int)
      requires Valid() && 0 <= addRingId < |stokesInitPos| && 0 <= i < |mask| && !mask[i]
      modifies this, uniqueIdMng
      ensures Valid() && ringsIds == old(ringsIds) && numCreatedRings == old(numCreatedRings)
      ensures mask == old(mask)[i := true] && pos == old(pos)[i := stokesInitPos[addRingId]] &&
              selfPropAngle == old(selfPropAngle)[i := stokesInitSelfAngle] &&
              uniqueIdMng.maxId == old(uniqueIdMng.maxId) + 1 &&
              uniqueRingsIds == old(uniqueRingsIds)[i := uniqueIdMng.maxId] &&
              numActiveRings == old(numActiveRings) + 1 && toRecalculateIds
      ensures CountTrue(mask) == old(CountTrue(mask)) + 1
      ensures old(Counted()) ==> Counted()
      ensures old(UidsBelowMax()) ==> UidsBelowMax()
      ensures old(UidsBelowMax() && UidsDistinct()) ==> UidsDistinct()
    {
      CountTrueUpdate(mask, i, true);
      var id := uniqueIdMng.NewId();
      uniqueRingsIds := uniqueRingsIds[i := id];
      pos := pos[i := stokesInitPos[addRingId]];
      selfPropAngle := selfPropAngle[i := stokesInitSelfAngle];
      mask := mask[i := true];
      numActiveRings := numActiveRings + 1;
      toRecalculateIds := true;
    }

    /** `remove_ring`: the slot is freed, the active count drops and the flag is raised. */
    method RemoveRing(ringId: int)
      requires Valid() && 0 <= ringId < numMaxRings
      modifies this
      ensures Valid() && mask == old(mask)[ringId := false]
      ensures numActiveRings == old(numActiveRings) - 1 && toRecalculateIds
      ensures pos == old(pos) && selfPropAngle == old(selfPropAngle) && ringsIds == old(ringsIds)
      ensures uniqueRingsIds == old(uniqueRingsIds) && numCreatedRings == old(numCreatedRings)
      ensures old(mask[ringId]) && old(Counted()) ==> Counted()
      ensures old(UidsBelowMax()) ==> UidsBelowMax()
      ensures old(UidsDistinct()) ==> UidsDistinct()
    {
      CountTrueUpdate(mask, ringId, false);
      mask := mask[ringId := false];
      numActiveRings := numActiveRings - 1;
      toRecalculateIds := true;
    }

    /**
     * `load_checkpoint`: afterwards exactly the slots listed in `idsCp` are
     * used and the id list starts with `idsCp` in the given order; each listed
     * slot takes the saved position, angle and unique id of its entry (the
     * last one when a slot is listed twice); the counter's maximum becomes the
     * largest saved unique id, so ids handed out later exceed every saved one.
     * The active count is left as it was.
     */
    method LoadCheckpoint(posCp: seq<seq<Point>>, angleCp: seq<real>, idsCp: seq<int>, uidsCp: seq<int>)
      requires Valid() && |uidsCp| > 0
      requires |idsCp| <= |posCp| && |idsCp| <= |angleCp| && |idsCp| <= |uidsCp| && |idsCp| <= numMaxRings
      requires forall k :: 0 <= k < |idsCp| ==> 0 <= idsCp[k] < numMaxRings
      modifies this, uniqueIdMng
      ensures Valid()
      ensures mask == Scatter(seq(numMaxRings, _ => false), idsCp, seq(|idsCp|, _ => true))
      ensures pos == Scatter(old(pos), idsCp, posCp) && selfPropAngle == Scatter(old(selfPropAngle), idsCp, angleCp)
      ensures uniqueRingsIds == Scatter(old(uniqueRingsIds), idsCp, uidsCp)
      ensures ringsIds[..|idsCp|] == idsCp && ringsIds[|idsCp|..] == old(ringsIds)[|idsCp|..]
      ensures uniqueIdMng.maxId == SeqMax(uidsCp)
      ensures numActiveRings == old(numActiveRings) && toRecalculateIds == old(toRecalculateIds)
      ensures forall j :: 0 <= j < numMaxRings ==> (mask[j] <==> j in idsCp)
      ensures UidsBelowMax()
    {
      var m := mask;
      var i := 0;
      while i < |m|
        invariant 0 <= i <= |m| == numMaxRings && unchanged(this)
        invariant forall j :: 0 <= j < i ==> !m[j]
      {
        m := m[i := false];
        i := i + 1;
      }
      assert m == seq(numMaxRings, _ => false);
      var p, ang, uids, ids;
      p, ang, uids, m, ids := WriteCheckpoint(pos, selfPropAngle, uniqueRingsIds, m, ringsIds, posCp, angleCp, idsCp, uidsCp);
      pos, selfPropAngle, uniqueRingsIds, ringsIds, mask := p, ang, uids, ids, m;
      uniqueIdMng.maxId := SeqMax(uidsCp);
      LoadedMask(numMaxRings, idsCp);
      ScatterFrom(old(uniqueRingsIds), idsCp, uidsCp);
    }

    /**
     * The removal part of `advance_time_stokes`: every ring of the active list
     * whose centre of mass lies beyond `removeBorder` is removed, then the id
     * list is recompacted when anything was removed.  Afterwards exactly the
     * previously used slots with centre x <= `removeBorder` are used.  The
     * loop bound is the active count at entry, as an OpenMP loop computes it.
     */
    method RemovePastBorder(centerMass: seq<Point>, removeBorder: real)
      requires Valid() && Compact() && |centerMass| >= numMaxRings
      modifies this
      ensures Valid() && Compact()
      ensures forall j :: 0 <= j < numMaxRings ==> mask[j] == (old(mask[j]) && !(centerMass[j].0 > removeBorder))
      ensures pos == old(pos) && selfPropAngle == old(selfPropAngle) && uniqueRingsIds == old(uniqueRingsIds)
      ensures old(UidsBelowMax()) ==> UidsBelowMax()
      ensures old(UidsDistinct()) ==> UidsDistinct()
    {
      ActiveSlotsSpec(mask);
      assert forall k :: 0 <= k < numActiveRings ==> ringsIds[k] == ringsIds[..numActiveRings][k] && ringsIds[k] in ActiveSlots(mask);
      var m, removed := RemovalSweep(mask, ringsIds, numActiveRings, centerMass, removeBorder);
      mask := m;
      numActiveRings := numActiveRings - removed;
      if removed > 0 {
        toRecalculateIds := true;
      }
      if toRecalculateIds {
        RecalculateRingsIds();
      }
    }

    /**
     * The creation part of `update_stokes`: the number of requested rings is
     * recorded, and one `add_ring` runs per request, in request order, so the
     * slot state becomes `CreatedSlots` of the old one and the id list is
     * left alone.  The used-slot count grows by the number of requests,
     * capped by the number of slots that were free.
     */
    method CreateRings(toCreate: seq<bool>)
      requires Valid() && |toCreate| <= |stokesInitPos|
      modifies this, uniqueIdMng
      ensures Valid() && numCreatedRings == CountTrue(toCreate) && ringsIds == old(ringsIds)
      ensures SlotsShaped(old(SlotState())) &&
              SlotState() == CreatedSlots(old(SlotState()), toCreate, stokesInitPos, stokesInitSelfAngle)
      ensures CountTrue(mask) == old(CountTrue(mask)) + Min(CountTrue(toCreate), numMaxRings - old(CountTrue(mask)))
      ensures old(Counted()) ==> Counted()
      ensures old(UidsBelowMax()) ==> UidsBelowMax()
      ensures old(UidsBelowMax() && UidsDistinct()) ==> UidsDistinct()
    {
      ActiveSlotsLength(mask);
      numCreatedRings := 0;
      ghost var s0 := SlotState();
      var i := 0;
      while i < |toCreate|
        invariant 0 <= i <= |toCreate| && Valid()
        invariant numCreatedRings == CountTrue(toCreate[..i]) && ringsIds == old(ringsIds)
        invariant SlotState() == CreatedSlots(s0, toCreate[..i], stokesInitPos, stokesInitSelfAngle)
        invariant old(Counted()) ==> Counted()
        invariant old(UidsBelowMax()) ==> UidsBelowMax()
        invariant old(UidsBelowMax() && UidsDistinct()) ==> UidsDistinct()
      {
        CreatedSlotsStep(s0, toCreate, stokesInitPos, stokesInitSelfAngle, i);
        CreateStep(toCreate, i);
        i := i + 1;
      }
      assert toCreate[..|toCreate|] == toCreate;
      CreatedCount(s0, toCreate, stokesInitPos, stokesInitSelfAngle);
    }

    /** One round of the creation loop: request i, if set, runs `add_ring(i)`. */
    method CreateStep(toCreate: seq<bool>, i: int)
      requires Valid() && 0 <= i < |toCreate| <= |stokesInitPos|
      modifies this, uniqueIdMng
      ensures Valid() && ringsIds == old(ringsIds)
      ensures numCreatedRings == old(numCreatedRings) + (if toCreate[i] then 1 else 0)
      ensures SlotState() == (if toCreate[i] then AddStep(old(SlotState()), stokesInitPos[i], stokesInitSelfAngle)
                              else old(SlotState()))
      ensures CountTrue(mask) == (if toCreate[i] then Min(old(CountTrue(mask)) + 1, numMaxRings) else old(CountTrue(mask)))
      ensures old(Counted()) ==> Counted()
      ensures old(UidsBelowMax()) ==> UidsBelowMax()
      ensures old(UidsBelowMax() && UidsDistinct()) ==> UidsDistinct()
    {
      if toCreate[i] {
        numCreatedRings := numCreatedRings + 1;
        AddRing(i);
      }
    }
  }

  /**
   * The request loop of `update_stokes`: candidate ring i is requested
   * exactly when no grid cell listed for it holds a positive count.
   */
  method CreationRequests(capacity: seq<seq<int>>, createRingsWinIds: seq<seq<Cell>>) returns (toCreate: seq<bool>)
    requires forall i, k :: 0 <= i < |createRingsWinIds| && 0 <= k < |createRingsWinIds[i]| ==>
               0 <= createRingsWinIds[i][k].0 < |capacity| &&
               0 <= createRingsWinIds[i][k].1 < |capacity[createRingsWinIds[i][k].0]|
    ensures |toCreate| == |createRingsWinIds|
    ensures forall i :: 0 <= i < |toCreate| ==>
              (toCreate[i] <==> forall k :: 0 <= k < |createRingsWinIds[i]| ==>
                                 capacity[createRingsWinIds[i][k].0][createRingsWinIds[i][k].1] <= 0)
  {
    toCreate := [];
    var i := 0;
    while i < |createRingsWinIds|
      invariant 0 <= i <= |createRingsWinIds| && |toCreate| == i
      invariant forall a :: 0 <= a < i ==>
                  (toCreate[a] <==> forall k :: 0 <= k < |createRingsWinIds[a]| ==>
                                     capacity[createRingsWinIds[a][k].0][createRingsWinIds[a][k].1] <= 0)
    {
      var winIds := createRingsWinIds[i];
      var createNewRing := true;
      var k := 0;
      while k < |winIds|
        invariant 0 <= k <= |winIds|
        invariant createNewRing <==> forall m :: 0 <= m < k ==> capacity[winIds[m].0][winIds[m].1] <= 0
      {
        if capacity[winIds[k].0][winIds[k].1] > 0 {
          createNewRing := false;
          break;
        }
        k := k + 1;
      }
      toCreate := toCreate + [createNewRing];
      i := i + 1;
    }
  }
}
