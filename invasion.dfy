/**
 * The invasion collector (`InvasionCol`): every `freq_dt` steps it records what
 * the polygon-intersection checker found at that moment: the number of
 * invading vertices, their positions, the number of distinct pairs of rings in
 * contact, and the areas of the rings of the unresolved collisions.
 */
module InvasionCollector {
  import opened Numeric
  import InPol

  /** The unordered pair of rings of a collision, as the sorted tuple `(min, max)`. */
  function Pair(c: InPol.ColInfo): (p: (int, int))
    ensures p.0 <= p.1 && {p.0, p.1} == {c.ringId, c.colRingId}
  {
    if c.colRingId <= c.ringId then (c.colRingId, c.ringId) else (c.ringId, c.colRingId)
  }

  /** Two collisions give the same tuple exactly when they involve the same two rings. */
  lemma SamePair(c: InPol.ColInfo, d: InPol.ColInfo)
    ensures Pair(c) == Pair(d) <==> {c.ringId, c.colRingId} == {d.ringId, d.colRingId}
  {
    var p, q := Pair(c), Pair(d);
    if {p.0, p.1} == {q.0, q.1} {
      assert p.0 in {q.0, q.1} && p.1 in {q.0, q.1};
      assert q.0 in {p.0, p.1} && q.1 in {p.0, p.1};
    }
  }

  /** The distinct unordered pairs among the collisions. */
  function PairsOf(cols: seq<InPol.ColInfo>): set<(int, int)>
  {
    set k | 0 <= k < |cols| :: Pair(cols[k])
  }

  lemma PairsOfSnoc(cols: seq<InPol.ColInfo>, c: InPol.ColInfo)
    ensures PairsOf(cols + [c]) == PairsOf(cols) + {Pair(c)}
  {
    var t := cols + [c];
    assert Pair(t[|cols|]) in PairsOf(t);
    forall p | p in PairsOf(t) ensures p in PairsOf(cols) + {Pair(c)} {
      var k :| 0 <= k < |t| && Pair(t[k]) == p;
      if k < |cols| {
        assert t[k] == cols[k];
      }
    }
    forall p | p in PairsOf(cols) ensures p in PairsOf(t) {
      var k :| 0 <= k < |cols| && Pair(cols[k]) == p;
      assert t[k] == cols[k];
    }
  }

  /** There are never more distinct pairs than collisions. */
  lemma {:induction false} PairsAtMostCollisions(cols: seq<InPol.ColInfo>)
    ensures |PairsOf(cols)| <= |cols|
  {
    if cols != [] {
      var n := |cols| - 1;
      assert cols == cols[..n] + [cols[n]];
      PairsOfSnoc(cols[..n], cols[n]);
      PairsAtMostCollisions(cols[..n]);
    }
  }

  /** The collision with its two rings exchanged. */
  function Swapped(c: InPol.ColInfo): InPol.ColInfo
  {
    InPol.ColInfo(c.colRingId, c.pId, c.ringId)
  }

  /** Exchanging the two rings of any of the collisions changes no pair. */
  lemma SwapInvariant(cols: seq<InPol.ColInfo>, other: seq<InPol.ColInfo>)
    requires |other| == |cols|
    requires forall k :: 0 <= k < |cols| ==> other[k] == cols[k] || other[k] == Swapped(cols[k])
    ensures PairsOf(other) == PairsOf(cols)
  {
    assert forall k :: 0 <= k < |cols| ==> Pair(other[k]) == Pair(cols[k]);
    forall p | p in PairsOf(cols) ensures p in PairsOf(other) {
      var k :| 0 <= k < |cols| && Pair(cols[k]) == p;
      assert Pair(other[k]) == p;
    }
  }

  /**
   * `count_unique_invasions`: the number of distinct sorted
   * `(col_ring_id, ring_id)` tuples among the collisions.
   */
  method CountUniqueInvasions(cols: seq<InPol.ColInfo>) returns (n: nat)
    ensures n == |PairsOf(cols)| <= |cols|
  {
    var seen: set<(int, int)> := {};
    var i := 0;
    while i < |cols|
      invariant 0 <= i <= |cols| && seen == PairsOf(cols[..i])
    {
      assert cols[..i + 1] == cols[..i] + [cols[i]];
      PairsOfSnoc(cols[..i], cols[i]);
      seen := seen + {Pair(cols[i])};
      i := i + 1;
    }
    assert cols[..i] == cols;
    PairsAtMostCollisions(cols);
    n := |seen|;
  }

  /**
   * The areas of the rings of the collisions not yet resolved, in buffer order,
   * over the whole `is_col_resolved` buffer (stale slots past the live count included).
   */
  function UnresolvedAreas(cols: seq<InPol.ColInfo>, resolved: seq<bool>, area: seq<real>): (r: seq<real>)
    requires |resolved| <= |cols| && forall k :: 0 <= k < |cols| ==> 0 <= cols[k].ringId < |area|
    ensures |r| <= |resolved|
  {
    if resolved == [] then []
    else
      var n := |resolved| - 1;
      UnresolvedAreas(cols, resolved[..n], area) + (if resolved[n] then [] else [area[cols[n].ringId]])
  }

  /** Each recorded area belongs to the ring of some unresolved collision, and each unresolved one is there. */
  lemma {:induction false} UnresolvedAreasCount(cols: seq<InPol.ColInfo>, resolved: seq<bool>, area: seq<real>)
    requires |resolved| <= |cols| && forall k :: 0 <= k < |cols| ==> 0 <= cols[k].ringId < |area|
    ensures |UnresolvedAreas(cols, resolved, area)| == |resolved| - CountTrue(resolved)
  {
    if resolved != [] {
      UnresolvedAreasCount(cols, resolved[..|resolved| - 1], area);
    }
  }

  class InvasionCol {
    const freqDt: int
    var lastColTime: int
    var relativeAreas: seq<seq<real>>
    var numInvasions: seq<int>
    var invasionsPos: seq<seq<Point>>
    var uniqueInvasions: seq<nat>
    var times: seq<real>

    /** The five histories grow together. */
    predicate Valid()
      reads this
    {
      |relativeAreas| == |numInvasions| == |invasionsPos| == |uniqueInvasions| == |times|
    }

    /** `setup`: empty histories, counting from the solver's current step. */
    constructor (freqDt: int, numTimeSteps: int)
      ensures Valid() && this.freqDt == freqDt && lastColTime == numTimeSteps
      ensures relativeAreas == [] && numInvasions == [] && invasionsPos == [] && uniqueInvasions == [] && times == []
    {
      this.freqDt := freqDt;
      lastColTime := numTimeSteps;
      relativeAreas, numInvasions, invasionsPos, uniqueInvasions, times := [], [], [], [], [];
    }

    /** The loop of `collect` over `is_col_resolved`. */
    static method Unresolved(cols: seq<InPol.ColInfo>, resolved: seq<bool>, area: seq<real>) returns (r: seq<real>)
      requires |resolved| <= |cols| && forall k :: 0 <= k < |cols| ==> 0 <= cols[k].ringId < |area|
      ensures r == UnresolvedAreas(cols, resolved, area)
    {
      r := [];
      var i := 0;
      while i < |resolved|
        invariant 0 <= i <= |resolved| && r == UnresolvedAreas(cols, resolved[..i], area)
      {
        assert resolved[..i + 1][..i] == resolved[..i];
        if !resolved[i] {
          r := r + [area[cols[i].ringId]];
        }
        i := i + 1;
      }
      assert resolved[..i] == resolved;
    }

    /**
     * `collect`: does nothing until `freq_dt` steps have passed since the last
     * collection; then records the step and appends one entry to every history.
     * The checker's state and the ring areas are read, never changed.
     */
    method Collect(time: real, numTimeSteps: int, checker: InPol.InPolChecker, area: seq<real>)
      requires Valid() && checker.Buffers()
      requires forall k :: 0 <= k < |checker.collisions| ==> 0 <= checker.collisions[k].ringId < |area|
      modifies this
      ensures Valid()
      ensures numTimeSteps - old(lastColTime) < freqDt ==>
        lastColTime == old(lastColTime) && relativeAreas == old(relativeAreas) && numInvasions == old(numInvasions) &&
        invasionsPos == old(invasionsPos) && uniqueInvasions == old(uniqueInvasions) && times == old(times)
      ensures numTimeSteps - old(lastColTime) >= freqDt ==>
        var live := checker.collisions[..checker.numInsidePoints];
        lastColTime == numTimeSteps &&
        numInvasions == old(numInvasions) + [checker.numInsidePoints] &&
        invasionsPos == old(invasionsPos) + [checker.insidePoints[..checker.numInsidePoints]] &&
        uniqueInvasions == old(uniqueInvasions) + [|PairsOf(live)|] &&
        times == old(times) + [time] &&
        relativeAreas == old(relativeAreas) + [UnresolvedAreas(checker.collisions, checker.isColResolved, area)]
    {
      if numTimeSteps - lastColTime < freqDt {
        return;
      }
      lastColTime := numTimeSteps;
      var numInside := checker.numInsidePoints;
      numInvasions := numInvasions + [numInside];
      invasionsPos := invasionsPos + [checker.insidePoints[..numInside]];
      var unique := CountUniqueInvasions(checker.collisions[..numInside]);
      uniqueInvasions := uniqueInvasions + [unique];
      times := times + [time];
      var areas := Unresolved(checker.collisions, checker.isColResolved, area);
      relativeAreas := relativeAreas + [areas];
    }
  }
}
