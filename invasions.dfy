/**
 * The invasion hysteresis of the C++ `Ring` solver: a resolved invasion
 * (a recorded vertex no longer inside the other ring) goes to the front of
 * the `ResolvedInv` list with zero elapsed steps, keeps receiving the
 * corrective force on each `collision_forces` call while its elapsed count
 * is at most `steps_after_resolved`, and is then erased with
 * `remove_by_indices`.
 */
module Invasions {
  import opened Wrappers
  import opened Numeric
  import opened InPol
  import opened RingForces

  /** `ResolvedInv::Invasion`. */
  datatype Invasion = Invasion(col: ColInfo, elapsed: int)

  // ---------------------------------------------------------------------
  // remove_by_indices
  // ---------------------------------------------------------------------

  predicate Sorted(s: seq<int>)
  {
    forall i, j :: 0 <= i < j < |s| ==> s[i] <= s[j]
  }

  predicate StrictlySorted(s: seq<int>)
  {
    forall i, j :: 0 <= i < j < |s| ==> s[i] < s[j]
  }

  function Insert(x: int, s: seq<int>): seq<int>
  {
    if s == [] then [x]
    else if x <= s[0] then [x] + s
    else [s[0]] + Insert(x, s[1..])
  }

  /** `std::sort` on the index list, ascending. */
  function SortAsc(s: seq<int>): seq<int>
  {
    if s == [] then [] else Insert(s[0], SortAsc(s[1..]))
  }

  lemma {:induction false} InsertMultiset(x: int, s: seq<int>)
    ensures multiset(Insert(x, s)) == multiset(s) + multiset{x}
  {
    if s != [] && x > s[0] {
      InsertMultiset(x, s[1..]);
      assert s == [s[0]] + s[1..];
    }
  }

  lemma {:induction false} InsertSpec(x: int, s: seq<int>)
    requires Sorted(s)
    ensures Sorted(Insert(x, s)) && multiset(Insert(x, s)) == multiset(s) + multiset{x}
  {
    InsertMultiset(x, s);
    if s == [] {
    } else if x <= s[0] {
      InsertFrontSorted(x, s);
    } else {
      var t := s[1..];
      InsertSpec(x, t);
      InsertMultiset(x, t);
      InsertBelow(s[0], x, t);
      ConsSorted(s[0], Insert(x, t));
    }
  }

  lemma InsertFrontSorted(x: int, s: seq<int>)
    requires Sorted(s) && s != [] && x <= s[0]
    ensures Sorted([x] + s)
  {
    var r := [x] + s;
    forall i, j | 0 <= i < j < |r|
      ensures r[i] <= r[j]
    {
      if i == 0 {
        assert s[0] <= s[j - 1];
      }
    }
  }

  lemma ConsSorted(lo: int, r: seq<int>)
    requires Sorted(r) && forall i :: 0 <= i < |r| ==> lo <= r[i]
    ensures Sorted([lo] + r)
  {
    var r' := [lo] + r;
    forall i, j | 0 <= i < j < |r'|
      ensures r'[i] <= r'[j]
    {
      if i > 0 {
        assert r'[i] == r[i - 1] && r'[j] == r[j - 1];
      }
    }
  }

  /** A lower bound of the list and of x is one of the list with x inserted. */
  lemma InsertBelow(lo: int, x: int, t: seq<int>)
    requires lo <= x && forall i :: 0 <= i < |t| ==> lo <= t[i]
    requires multiset(Insert(x, t)) == multiset(t) + multiset{x}
    ensures forall i :: 0 <= i < |Insert(x, t)| ==> lo <= Insert(x, t)[i]
  {
    var r := Insert(x, t);
    forall i | 0 <= i < |r|
      ensures lo <= r[i]
    {
      assert r[i] in multiset(r);
      assert r[i] == x || r[i] in multiset(t);
    }
  }

  /** The sorted list is ordered and a permutation of the input. */
  lemma {:induction false} SortAscSpec(s: seq<int>)
    ensures Sorted(SortAsc(s)) && multiset(SortAsc(s)) == multiset(s)
  {
    if s != [] {
      SortAscSpec(s[1..]);
      InsertSpec(s[0], SortAsc(s[1..]));
      assert s == [s[0]] + s[1..];
    }
  }

  /** Sorting an ordered list changes nothing. */
  lemma {:induction false} SortAscOfSorted(s: seq<int>)
    requires Sorted(s)
    ensures SortAsc(s) == s
  {
    if s != [] {
      SortAscOfSorted(s[1..]);
      assert s == [s[0]] + s[1..];
    }
  }

  /**
   * `erase_after` on the node before index i: the element at i goes.  An
   * index at or past the end (undefined in the source) changes nothing here.
   */
  function EraseAt<T>(s: seq<T>, i: int): (r: seq<T>)
    ensures 0 <= i < |s| ==> |r| == |s| - 1 && r[..i] == s[..i] && r[i..] == s[i + 1..]
    ensures !(0 <= i < |s|) ==> r == s
  {
    if 0 <= i < |s| then s[..i] + s[i + 1..] else s
  }

  /** The erasures of `remove_by_indices`: the sorted indices from the largest down. */
  function EraseDescending<T>(s: seq<T>, idxs: seq<int>): seq<T>
  {
    if idxs == [] then s
    else EraseDescending(EraseAt(s, idxs[|idxs| - 1]), idxs[..|idxs| - 1])
  }

  /**
   * `remove_by_indices`: sort the indices; any index at or beyond the list's
   * `max_size` raises `out_of_range` before anything is erased; otherwise
   * erase them from the largest down.
   */
  function RemoveByIndices<T>(s: seq<T>, indices: seq<int>, maxSize: int): Result<seq<T>>
  {
    var sorted := SortAsc(indices);
    if exists k :: 0 <= k < |sorted| && sorted[k] >= maxSize then Err(OutOfRange)
    else Ok(EraseDescending(s, sorted))
  }

  /** The elements of s whose positions are not listed, in order. */
  function Keep<T>(s: seq<T>, idxs: seq<int>): seq<T>
  {
    if s == [] then []
    else Keep(s[..|s| - 1], idxs) + (if |s| - 1 in idxs then [] else [s[|s| - 1]])
  }

  /** The positions below n that `Keep` retains, ascending. */
  function KeptIndices(n: nat, idxs: seq<int>): (r: seq<int>)
    ensures forall k :: 0 <= k < |r| ==> 0 <= r[k] < n && r[k] !in idxs
  {
    if n == 0 then [] else KeptIndices(n - 1, idxs) + (if n - 1 in idxs then [] else [n - 1])
  }

  /** Entry k of `Keep(s, idxs)` is the element of s at the k-th retained position. */
  lemma {:induction false} KeepAt<T>(s: seq<T>, idxs: seq<int>)
    ensures var r := KeptIndices(|s|, idxs);
            |Keep(s, idxs)| == |r| && forall k :: 0 <= k < |r| ==> Keep(s, idxs)[k] == s[r[k]]
  {
    if s != [] {
      var n := |s| - 1;
      KeepAt(s[..n], idxs);
      assert forall k :: 0 <= k < |KeptIndices(n, idxs)| ==> s[..n][KeptIndices(n, idxs)[k]] == s[KeptIndices(n, idxs)[k]];
    }
  }

  lemma {:induction false} KeepAgree<T>(s: seq<T>, a: seq<int>, b: seq<int>)
    requires forall i :: 0 <= i < |s| ==> (i in a <==> i in b)
    ensures Keep(s, a) == Keep(s, b)
  {
    if s != [] {
      KeepAgree(s[..|s| - 1], a, b);
    }
  }

  /** Positions at or after j are all kept. */
  lemma {:induction false} KeepSplit<T>(s: seq<T>, idxs: seq<int>, j: int)
    requires 0 <= j <= |s| && forall k :: 0 <= k < |idxs| ==> idxs[k] < j
    ensures Keep(s, idxs) == Keep(s[..j], idxs) + s[j..]
  {
    if |s| > j {
      var n := |s| - 1;
      assert n !in idxs;
      KeepSplit(s[..n], idxs, j);
      assert s[..n][..j] == s[..j];
      assert s[..n][j..] + [s[n]] == s[j..];
    } else {
      assert s[..j] == s;
    }
  }

  /** Nothing listed: everything is kept. */
  lemma KeepNone<T>(s: seq<T>)
    ensures Keep(s, []) == s
  {
    KeepSplit(s, [], 0);
  }

  /** Erasing the largest listed position first leaves the same kept elements for the rest. */
  lemma KeepEraseMax<T>(s: seq<T>, idxs: seq<int>)
    requires idxs != [] && StrictlySorted(idxs) && forall k :: 0 <= k < |idxs| ==> 0 <= idxs[k] < |s|
    ensures var m := idxs[|idxs| - 1];
            Keep(EraseAt(s, m), idxs[..|idxs| - 1]) == Keep(s, idxs)
  {
    var m := idxs[|idxs| - 1];
    var rest := idxs[..|idxs| - 1];
    var e := EraseAt(s, m);
    assert forall k :: 0 <= k < |rest| ==> rest[k] < m;
    KeepSplit(e, rest, m);
    KeepSplit(s, idxs, m + 1);
    assert s[..m + 1][..m] == s[..m];
    assert m in idxs;
    assert forall i :: 0 <= i < m ==> (i in idxs <==> i in rest);
    KeepAgree(s[..m], idxs, rest);
  }

  /** After the largest listed position is erased, the other positions are still distinct and in range. */
  lemma EraseMaxRest<T>(s: seq<T>, idxs: seq<int>)
    requires idxs != [] && StrictlySorted(idxs) && forall k :: 0 <= k < |idxs| ==> 0 <= idxs[k] < |s|
    ensures var L := |idxs| - 1;
            var rest, e := idxs[..L], EraseAt(s, idxs[L]);
            StrictlySorted(rest) && forall k :: 0 <= k < |rest| ==> 0 <= rest[k] < |e|
  {
    var L := |idxs| - 1;
    var rest := idxs[..L];
    forall k | 0 <= k < |rest|
      ensures 0 <= rest[k] < |s| - 1
    {
      assert rest[k] == idxs[k] < idxs[L] < |s|;
    }
    forall i, j | 0 <= i < j < |rest|
      ensures rest[i] < rest[j]
    {
      assert rest[i] == idxs[i] && rest[j] == idxs[j];
    }
  }

  /** Erasing distinct in-range positions from the largest down keeps exactly the others. */
  lemma {:induction false} EraseDescendingKeeps<T>(s: seq<T>, idxs: seq<int>)
    requires StrictlySorted(idxs) && forall k :: 0 <= k < |idxs| ==> 0 <= idxs[k] < |s|
    ensures EraseDescending(s, idxs) == Keep(s, idxs)
  {
    if idxs == [] {
      KeepNone(s);
    } else {
      var L := |idxs| - 1;
      var m := idxs[L];
      var rest := idxs[..L];
      var e := EraseAt(s, m);
      EraseMaxRest(s, idxs);
      EraseDescendingKeeps(e, rest);
      KeepEraseMax(s, idxs);
      assert EraseDescending(s, idxs) == EraseDescending(e, rest);
    }
  }

  /** Sorting keeps exactly the same indices. */
  lemma SortAscMembers(s: seq<int>)
    ensures forall x :: x in SortAsc(s) <==> x in s
  {
    SortAscSpec(s);
    forall x
      ensures x in SortAsc(s) <==> x in s
    {
      assert x in SortAsc(s) <==> x in multiset(SortAsc(s));
      assert x in s <==> x in multiset(s);
    }
  }

  /** `remove_by_indices` fails exactly when some index is at or beyond `max_size`. */
  lemma RemoveByIndicesFails<T>(s: seq<T>, indices: seq<int>, maxSize: int)
    ensures RemoveByIndices(s, indices, maxSize).Err? <==> exists k :: 0 <= k < |indices| && indices[k] >= maxSize
  {
    var sorted := SortAsc(indices);
    SortAscMembers(indices);
    if exists k :: 0 <= k < |indices| && indices[k] >= maxSize {
      var k :| 0 <= k < |indices| && indices[k] >= maxSize;
      assert indices[k] in sorted;
    }
    if exists k :: 0 <= k < |sorted| && sorted[k] >= maxSize {
      var k :| 0 <= k < |sorted| && sorted[k] >= maxSize;
      assert sorted[k] in indices;
    }
  }

  /**
   * With distinct indices, every one inside the list and below `max_size`,
   * `remove_by_indices` removes exactly the listed positions.
   */
  lemma RemoveByIndicesKeeps<T>(s: seq<T>, indices: seq<int>, maxSize: int)
    requires forall k :: 0 <= k < |indices| ==> 0 <= indices[k] < |s| && indices[k] < maxSize
    requires forall a, b :: 0 <= a < b < |indices| ==> indices[a] != indices[b]
    ensures RemoveByIndices(s, indices, maxSize) == Ok(Keep(s, indices))
  {
    var sorted := SortAsc(indices);
    SortAscSpec(indices);
    SortAscMembers(indices);
    assert forall k :: 0 <= k < |sorted| ==> sorted[k] in indices;
    RemoveByIndicesFails(s, indices, maxSize);
    DistinctSorted(indices, sorted);
    EraseDescendingKeeps(s, sorted);
    KeepAgree(s, sorted, indices);
  }

  /**
   * `remove_by_indices` step by step: after sorting, one pass checks every
   * index against `max_size`, then a second pass erases from the largest
   * index down.
   */
  method RemoveIds<T>(s: seq<T>, indices: seq<int>, maxSize: int) returns (r: Result<seq<T>>)
    ensures r == RemoveByIndices(s, indices, maxSize)
  {
    var sorted := SortAsc(indices);
    var i := 0;
    while i < |sorted|
      invariant 0 <= i <= |sorted|
      invariant forall k :: 0 <= k < i ==> sorted[k] < maxSize
    {
      if sorted[i] >= maxSize {
        return Err(OutOfRange);
      }
      i := i + 1;
    }
    var out := s;
    var j := |sorted|;
    assert sorted[..j] == sorted;
    while j > 0
      invariant 0 <= j <= |sorted|
      invariant EraseDescending(out, sorted[..j]) == EraseDescending(s, sorted)
    {
      assert sorted[..j][..j - 1] == sorted[..j - 1];
      j := j - 1;
      out := EraseAt(out, sorted[j]);
    }
    return Ok(out);
  }

  /** A sorted permutation of a list without repeats has no repeats either. */
  lemma DistinctSorted(indices: seq<int>, sorted: seq<int>)
    requires forall a, b :: 0 <= a < b < |indices| ==> indices[a] != indices[b]
    requires Sorted(sorted) && multiset(sorted) == multiset(indices)
    ensures StrictlySorted(sorted)
  {
    NoRepeatsCount(indices);
    forall i, j | 0 <= i < j < |sorted|
      ensures sorted[i] < sorted[j]
    {
      TwiceInMultiset(sorted, i, j);
      assert multiset(sorted)[sorted[i]] <= 1;
    }
  }

  lemma {:induction false} NoRepeatsCount(s: seq<int>)
    requires forall a, b :: 0 <= a < b < |s| ==> s[a] != s[b]
    ensures forall x :: multiset(s)[x] <= 1
  {
    if s != [] {
      var n := |s| - 1;
      assert s == s[..n] + [s[n]];
      NoRepeatsCount(s[..n]);
      assert s[n] !in s[..n];
    }
  }

  lemma {:induction false} TwiceInMultiset(s: seq<int>, i: int, j: int)
    requires 0 <= i < j < |s|
    ensures s[i] == s[j] ==> multiset(s)[s[i]] >= 2
  {
    assert s == s[..j] + [s[j]] + s[j + 1..];
    assert s[i] in s[..j];
  }

  /** Erasing index k again and again, once per element after the first k, leaves the first k. */
  lemma {:induction false} EraseRepeated<T>(s: seq<T>, k: int, n: nat)
    requires 0 <= k && |s| == k + n
    ensures EraseDescending(s, seq(n, _ => k)) == s[..k]
  {
    if n > 0 {
      var e := EraseAt(s, k);
      assert seq(n, _ => k)[..n - 1] == seq(n - 1, _ => k);
      EraseRepeated(e, k, n - 1);
      assert e[..k] == s[..k];
    }
  }

  // ---------------------------------------------------------------------
  // The resolved list and its aging sweep
  // ---------------------------------------------------------------------

  /** `ResolvedInv::add_collision`: push to the front with zero elapsed steps. */
  function AddCollision(invs: seq<Invasion>, c: ColInfo): (r: seq<Invasion>)
    ensures |r| == |invs| + 1 && r[0] == Invasion(c, 0) && r[1..] == invs
  {
    [Invasion(c, 0)] + invs
  }

  /** Elapsed counts are non-negative and non-decreasing from the front. */
  predicate AgedInOrder(invs: seq<Invasion>)
  {
    (forall i :: 0 <= i < |invs| ==> 0 <= invs[i].elapsed) &&
    forall i, j :: 0 <= i < j < |invs| ==> invs[i].elapsed <= invs[j].elapsed
  }

  /** Pushing a fresh entry keeps the order. */
  lemma AddCollisionInOrder(invs: seq<Invasion>, c: ColInfo)
    requires AgedInOrder(invs)
    ensures AgedInOrder(AddCollision(invs, c))
  {
  }

  /** The entries among the first n still receiving the force, each one step older. */
  function SweepKept(invs: seq<Invasion>, steps: int, n: int): seq<Invasion>
    requires 0 <= n <= |invs|
  {
    if n == 0 then []
    else
      var x := invs[n - 1];
      SweepKept(invs, steps, n - 1) + (if x.elapsed > steps then [] else [Invasion(x.col, x.elapsed + 1)])
  }

  /** The indices the sweep queues for removal: the count of kept entries when an expired one is met. */
  function SweepIds(invs: seq<Invasion>, steps: int, n: int): seq<int>
    requires 0 <= n <= |invs|
  {
    if n == 0 then []
    else
      SweepIds(invs, steps, n - 1) +
        (if invs[n - 1].elapsed > steps then [|SweepKept(invs, steps, n - 1)|] else [])
  }

  /** The list after the first n sweep iterations aged the kept entries in place. */
  function Aged(invs: seq<Invasion>, steps: int, n: int): (r: seq<Invasion>)
    ensures |r| == |invs|
  {
    seq(|invs|, i requires 0 <= i < |invs| =>
      if i < n && invs[i].elapsed <= steps then Invasion(invs[i].col, invs[i].elapsed + 1) else invs[i])
  }

  /** The first position whose entry has expired, or the length. */
  function FirstExpired(invs: seq<Invasion>, steps: int): (k: int)
    ensures 0 <= k <= |invs|
    ensures forall i :: 0 <= i < k ==> invs[i].elapsed <= steps
    ensures k < |invs| ==> invs[k].elapsed > steps
  {
    if invs == [] then 0
    else if invs[0].elapsed > steps then 0
    else 1 + FirstExpired(invs[1..], steps)
  }

  /** In an ordered list the expired entries are a suffix: the sweep keeps a prefix and queues one repeated index. */
  lemma {:induction false} SweepShape(invs: seq<Invasion>, steps: int, n: int)
    requires AgedInOrder(invs) && 0 <= n <= |invs|
    ensures var k := FirstExpired(invs, steps);
            var a := if n < k then n else k;
            SweepKept(invs, steps, n) == Aged(invs, steps, |invs|)[..a] &&
            SweepIds(invs, steps, n) == seq(n - a, _ => k)
  {
    SweepKeptShape(invs, steps, n);
    SweepIdsShape(invs, steps, n);
  }

  /** In an ordered list every entry from the first expired one on has expired. */
  lemma ExpiredFrom(invs: seq<Invasion>, steps: int, j: int)
    requires AgedInOrder(invs) && FirstExpired(invs, steps) <= j < |invs|
    ensures invs[j].elapsed > steps
  {
    var k := FirstExpired(invs, steps);
    assert invs[k].elapsed <= invs[j].elapsed || k == j;
  }

  /** The entries the sweep keeps are the aged prefix before the first expired entry. */
  lemma {:induction false} SweepKeptShape(invs: seq<Invasion>, steps: int, n: int)
    requires AgedInOrder(invs) && 0 <= n <= |invs|
    ensures var k := FirstExpired(invs, steps);
            SweepKept(invs, steps, n) == Aged(invs, steps, |invs|)[..if n < k then n else k]
  {
    var k := FirstExpired(invs, steps);
    if n > 0 {
      SweepKeptShape(invs, steps, n - 1);
      var ag := Aged(invs, steps, |invs|);
      if n - 1 < k {
        assert ag[..n] == ag[..n - 1] + [ag[n - 1]];
      } else {
        ExpiredFrom(invs, steps, n - 1);
      }
    }
  }

  /** The indices the sweep queues: the first expired position, once per expired entry. */
  lemma {:induction false} SweepIdsShape(invs: seq<Invasion>, steps: int, n: int)
    requires AgedInOrder(invs) && 0 <= n <= |invs|
    ensures var k := FirstExpired(invs, steps);
            SweepIds(invs, steps, n) == seq(n - (if n < k then n else k), _ => k)
  {
    var k := FirstExpired(invs, steps);
    if n > 0 {
      SweepIdsShape(invs, steps, n - 1);
      SweepKeptShape(invs, steps, n - 1);
      if n - 1 >= k {
        ExpiredFrom(invs, steps, n - 1);
        assert seq(n - 1 - k, _ => k) + [k] == seq(n - k, _ => k);
      }
    }
  }

  /** The aged prefix before the first expired entry: each entry one step older, still in order. */
  lemma AgedPrefix(invs: seq<Invasion>, steps: int)
    requires AgedInOrder(invs)
    ensures var k := FirstExpired(invs, steps);
            var kept := Aged(invs, steps, |invs|)[..k];
            AgedInOrder(kept) && forall i :: 0 <= i < |kept| ==> kept[i].elapsed <= steps + 1
  {
    var k := FirstExpired(invs, steps);
    var kept := Aged(invs, steps, |invs|)[..k];
    assert forall i :: 0 <= i < k ==> kept[i] == Invasion(invs[i].col, invs[i].elapsed + 1);
  }

  lemma ConstantSorted(n: nat, k: int)
    ensures Sorted(seq(n, _ => k))
  {
  }

  /**
   * Because the entries age together, the indices the sweep queues (all equal
   * to the kept count) erase exactly the expired entries: the list that
   * remains is the kept entries, aged, still in order, none older than
   * `steps + 1`.
   */
  lemma SweepRemovesExpired(invs: seq<Invasion>, steps: int)
    requires AgedInOrder(invs)
    ensures var ids := SweepIds(invs, steps, |invs|);
            var kept := SweepKept(invs, steps, |invs|);
            SortAsc(ids) == ids &&
            EraseDescending(Aged(invs, steps, |invs|), ids) == kept &&
            AgedInOrder(kept) &&
            (forall i :: 0 <= i < |kept| ==> kept[i].elapsed <= steps + 1) &&
            (forall i :: 0 <= i < |ids| ==> 0 <= ids[i] < |invs|)
  {
    var k := FirstExpired(invs, steps);
    var ids := SweepIds(invs, steps, |invs|);
    var kept := SweepKept(invs, steps, |invs|);
    var ag := Aged(invs, steps, |invs|);
    SweepShape(invs, steps, |invs|);
    assert kept == ag[..k];
    var rep := seq(|invs| - k, _ => k);
    assert ids == rep;
    ConstantSorted(|invs| - k, k);
    SortAscOfSorted(rep);
    EraseRepeated(ag, k, |invs| - k);
    AgedPrefix(invs, steps);
    forall i | 0 <= i < |ids|
      ensures 0 <= ids[i] < |invs|
    {
      assert ids[i] == rep[i] == k;
    }
  }

  /** An entry is kept by the sweep exactly when it has not expired, and comes back one step older. */
  lemma {:induction false} SweepKeptMembers(invs: seq<Invasion>, steps: int, n: int, x: Invasion)
    requires 0 <= n <= |invs|
    ensures x in SweepKept(invs, steps, n) <==>
              exists i :: 0 <= i < n && invs[i].elapsed <= steps && x == Invasion(invs[i].col, invs[i].elapsed + 1)
  {
    if n > 0 {
      SweepKeptMembers(invs, steps, n - 1, x);
    }
  }

  /** One `collision_forces` call on the resolved list, for an ordered list. */
  function Sweep(invs: seq<Invasion>, steps: int): seq<Invasion>
  {
    SweepKept(invs, steps, |invs|)
  }

  function Sweeps(invs: seq<Invasion>, steps: int, t: nat): seq<Invasion>
  {
    if t == 0 then invs else Sweep(Sweeps(invs, steps, t - 1), steps)
  }

  /**
   * The hysteresis: a freshly resolved invasion is still listed, t steps old,
   * after each of the first `steps + 1` calls (receiving the force in each),
   * and is gone after the next.
   */
  lemma {:induction false} Lifetime(c: ColInfo, steps: int, t: nat)
    ensures Sweeps([Invasion(c, 0)], steps, t) == if t == 0 || t <= steps + 1 then [Invasion(c, t)] else []
  {
    if t > 0 {
      Lifetime(c, steps, t - 1);
      var prev := Sweeps([Invasion(c, 0)], steps, t - 1);
      if t - 1 == 0 || t - 1 <= steps + 1 {
        assert prev == [Invasion(c, t - 1)];
        assert SweepKept(prev, steps, 0) == [];
      } else {
        assert prev == [];
      }
    }
  }

  // ---------------------------------------------------------------------
  // collision_forces
  // ---------------------------------------------------------------------

  /** The vertex after p on a ring of n vertices, wrapping to 0. */
  function AfterId(p: int, n: int): int
  {
    if p == n - 1 then 0 else p + 1
  }

  /** The vertex before p on a ring of n vertices, wrapping to n - 1. */
  function BeforeId(p: int, n: int): int
  {
    if p == 0 then n - 1 else p - 1
  }

  /** The two neighbours are the cyclic successor and predecessor. */
  lemma NeighbourIds(p: int, n: int)
    requires 0 <= p < n
    ensures AfterId(p, n) == (p + 1) % n && BeforeId(p, n) == (p - 1 + n) % n
    ensures 0 <= AfterId(p, n) < n && 0 <= BeforeId(p, n) < n
  {
  }

  /** The chord from p's predecessor to its successor turned a quarter, wrapped as `periodic_dist` leaves it. */
  function InvNormal(ringPos: seq<Point>, pId: int, n: int, length: real, height: real, updateType: UpdateType): Point
    requires 0 <= pId < n <= |ringPos|
  {
    var a, b := ringPos[AfterId(pId, n)], ringPos[BeforeId(pId, n)];
    PeriodicDiff((-(a.1 - b.1), a.0 - b.0), length, height, updateType)
  }

  /** The corrective force: the normal divided by its length, times `k_invasion`. */
  function InvForce(d: Point, norm: real, k: real): Point
    requires norm != 0.0
  {
    (d.0 / norm * k, d.1 / norm * k)
  }

  /** The norm `periodic_dist` returns: positive for every vector it is applied to. */
  ghost predicate PositiveNorm(norm: Point -> real)
  {
    forall d :: norm(d) > 0.0
  }

  /** Which collisions name a vertex of the position and force matrices. */
  predicate ColIn(c: ColInfo, numRings: int, n: int)
  {
    0 <= c.ringId < numRings && 0 <= c.pId < n
  }

  predicate ColsIn(cs: seq<ColInfo>, numRings: int, n: int)
  {
    forall k :: 0 <= k < |cs| ==> ColIn(cs[k], numRings, n)
  }

  /** Positions and forces are both numRings x n. */
  predicate Shape(pos: seq<seq<Point>>, m: seq<seq<Point>>, n: int)
  {
    |pos| == |m| && forall r :: 0 <= r < |pos| ==> |pos[r]| == n && |m[r]| == n
  }

  function Cols(invs: seq<Invasion>): (cs: seq<ColInfo>)
    ensures |cs| == |invs| && forall k :: 0 <= k < |invs| ==> cs[k] == invs[k].col
  {
    seq(|invs|, k requires 0 <= k < |invs| => invs[k].col)
  }

  /** The resolved list after pushing the given collisions, one after another, to its front. */
  function Pushed(invs: seq<Invasion>, cs: seq<ColInfo>): seq<Invasion>
  {
    if cs == [] then invs else AddCollision(Pushed(invs, cs[..|cs| - 1]), cs[|cs| - 1])
  }

  lemma {:induction false} PushedInOrder(invs: seq<Invasion>, cs: seq<ColInfo>)
    requires AgedInOrder(invs)
    ensures AgedInOrder(Pushed(invs, cs))
  {
    if cs != [] {
      PushedInOrder(invs, cs[..|cs| - 1]);
      AddCollisionInOrder(Pushed(invs, cs[..|cs| - 1]), cs[|cs| - 1]);
    }
  }

  lemma {:induction false} PushedCols(invs: seq<Invasion>, cs: seq<ColInfo>, numRings: int, n: int)
    requires ColsIn(Cols(invs), numRings, n) && ColsIn(cs, numRings, n)
    ensures ColsIn(Cols(Pushed(invs, cs)), numRings, n)
  {
    if cs != [] {
      PushedCols(invs, cs[..|cs| - 1], numRings, n);
      var p := Pushed(invs, cs[..|cs| - 1]);
      var q := AddCollision(p, cs[|cs| - 1]);
      forall k | 0 <= k < |q|
        ensures ColIn(Cols(q)[k], numRings, n)
      {
        if k > 0 {
          assert q[k] == p[k - 1] && Cols(p)[k - 1] == p[k - 1].col;
        }
      }
    }
  }

  /** The inside test of `collision_forces`: the recorded vertex against the other ring. */
  function StillInside(pos: seq<seq<Point>>, numVerts: int, c: ColInfo): bool
    requires 0 <= c.ringId < |pos| && 0 <= c.pId < |pos[c.ringId]| && 0 <= c.colRingId < |pos|
    requires 1 <= numVerts <= |pos[c.colRingId]|
  {
    var p := pos[c.ringId][c.pId];
    Inside(pos[c.colRingId], numVerts, p.0, p.1)
  }

  /** The tests of `collision_forces` can be made on every recorded collision. */
  predicate Checkable(pos: seq<seq<Point>>, numVerts: int, cols: seq<ColInfo>, n: int)
  {
    n <= |cols| &&
    forall k :: 0 <= k < n ==> 0 <= cols[k].ringId < |pos| && 0 <= cols[k].pId < |pos[cols[k].ringId]| &&
                               0 <= cols[k].colRingId < |pos| && 1 <= numVerts <= |pos[cols[k].colRingId]|
  }

  /** Collisions among the first n that are unresolved and still inside: they get the force. */
  function StillInvading(pos: seq<seq<Point>>, numVerts: int, cols: seq<ColInfo>, flags: seq<bool>, n: int): (r: seq<ColInfo>)
    requires 0 <= n <= |flags| && Checkable(pos, numVerts, cols, n)
    ensures forall k :: 0 <= k < |r| ==> r[k] in cols[..n]
  {
    if n == 0 then []
    else
      StillInvading(pos, numVerts, cols, flags, n - 1) +
        (if !flags[n - 1] && StillInside(pos, numVerts, cols[n - 1]) then [cols[n - 1]] else [])
  }

  /** Collisions among the first n that are unresolved and no longer inside: they get resolved. */
  function NewlyResolved(pos: seq<seq<Point>>, numVerts: int, cols: seq<ColInfo>, flags: seq<bool>, n: int): (r: seq<ColInfo>)
    requires 0 <= n <= |flags| && Checkable(pos, numVerts, cols, n)
    ensures forall k :: 0 <= k < |r| ==> r[k] in cols[..n]
  {
    if n == 0 then []
    else
      NewlyResolved(pos, numVerts, cols, flags, n - 1) +
        (if !flags[n - 1] && !StillInside(pos, numVerts, cols[n - 1]) then [cols[n - 1]] else [])
  }

  /** The flags after the first n collisions were examined: those found outside are now resolved. */
  function FlagsAfter(pos: seq<seq<Point>>, numVerts: int, cols: seq<ColInfo>, flags: seq<bool>, n: int): (r: seq<bool>)
    requires 0 <= n <= |flags| && Checkable(pos, numVerts, cols, n)
    ensures |r| == |flags|
    ensures forall k :: 0 <= k < |flags| ==> r[k] == (flags[k] || (k < n && !StillInside(pos, numVerts, cols[k])))
  {
    seq(|flags|, k requires 0 <= k < |flags| =>
      flags[k] || (k < n && !StillInside(pos, numVerts, cols[k])))
  }

  lemma RecordedInRange(pos: seq<seq<Point>>, numVerts: int, cols: seq<ColInfo>, flags: seq<bool>, n: int, np: int)
    requires 0 <= n <= |flags| && Checkable(pos, numVerts, cols, n) && ColsIn(cols[..n], |pos|, np)
    ensures ColsIn(StillInvading(pos, numVerts, cols, flags, n), |pos|, np)
    ensures ColsIn(NewlyResolved(pos, numVerts, cols, flags, n), |pos|, np)
  {
    var a := StillInvading(pos, numVerts, cols, flags, n);
    var b := NewlyResolved(pos, numVerts, cols, flags, n);
    forall k | 0 <= k < |a|
      ensures ColIn(a[k], |pos|, np)
    {
      var j :| 0 <= j < n && cols[..n][j] == a[k];
    }
    forall k | 0 <= k < |b|
      ensures ColIn(b[k], |pos|, np)
    {
      var j :| 0 <= j < n && cols[..n][j] == b[k];
    }
  }

  /** The entries the sweep keeps name vertices the list already named. */
  lemma {:induction false} SweepKeptCols(invs: seq<Invasion>, steps: int, n: int, numRings: int, np: int)
    requires 0 <= n <= |invs| && ColsIn(Cols(invs), numRings, np)
    ensures ColsIn(Cols(SweepKept(invs, steps, n)), numRings, np)
  {
    if n > 0 {
      SweepKeptCols(invs, steps, n - 1, numRings, np);
      assert Cols(invs)[n - 1] == invs[n - 1].col;
    }
  }

  /** One iteration of the first pass on the flags: a record found outside is flagged. */
  lemma FlagsStep(pos: seq<seq<Point>>, nv: int, cols: seq<ColInfo>, flags: seq<bool>, n: int, i: int)
    requires 0 <= i < n <= |flags| && Checkable(pos, nv, cols, n)
    ensures var fl := FlagsAfter(pos, nv, cols, flags, i);
            fl[i] == flags[i] &&
            FlagsAfter(pos, nv, cols, flags, i + 1) ==
              if !flags[i] && !StillInside(pos, nv, cols[i]) then fl[i := true] else fl
  {
  }

  /** One iteration of the first pass on the resolved list: a record found outside is pushed. */
  lemma ResolvedStep(pos: seq<seq<Point>>, nv: int, cols: seq<ColInfo>, flags: seq<bool>, n: int, i: int,
                     res: seq<Invasion>)
    requires 0 <= i < n <= |flags| && Checkable(pos, nv, cols, n)
    ensures var nr := NewlyResolved(pos, nv, cols, flags, i);
            Pushed(res, NewlyResolved(pos, nv, cols, flags, i + 1)) ==
              if !flags[i] && !StillInside(pos, nv, cols[i]) then AddCollision(Pushed(res, nr), cols[i])
              else Pushed(res, nr)
  {
    var nr := NewlyResolved(pos, nv, cols, flags, i);
    var hit := !flags[i] && !StillInside(pos, nv, cols[i]);
    assert NewlyResolved(pos, nv, cols, flags, i + 1) == nr + (if hit then [cols[i]] else []);
    if hit {
      assert (nr + [cols[i]])[..|nr|] == nr;
    } else {
      assert nr + [] == nr;
    }
  }

  /** One sweep iteration on the spec functions. */
  lemma SweepStep(invs: seq<Invasion>, steps: int, j: int)
    requires 0 <= j < |invs|
    ensures var x, kept := invs[j], SweepKept(invs, steps, j);
            Aged(invs, steps, j)[j] == x &&
            if x.elapsed > steps then
              SweepKept(invs, steps, j + 1) == kept && SweepIds(invs, steps, j + 1) == SweepIds(invs, steps, j) + [|kept|] &&
              Aged(invs, steps, j + 1) == Aged(invs, steps, j)
            else
              SweepKept(invs, steps, j + 1) == kept + [Invasion(x.col, x.elapsed + 1)] &&
              SweepIds(invs, steps, j + 1) == SweepIds(invs, steps, j) &&
              Aged(invs, steps, j + 1) == Aged(invs, steps, j)[j := Invasion(x.col, x.elapsed + 1)]
  {
  }

  /**
   * On an ordered list the removal after the sweep cannot fail while the
   * list fits `max_size`, and when it succeeds it leaves exactly the kept
   * entries, aged, in order, none older than `steps + 1`.
   */
  lemma SweepOutcome(invs: seq<Invasion>, steps: int, maxSize: int)
    requires AgedInOrder(invs)
    ensures var removal := RemoveByIndices(Aged(invs, steps, |invs|), SweepIds(invs, steps, |invs|), maxSize);
            (|invs| <= maxSize ==> removal.Ok?) &&
            (removal.Ok? ==> var kept := removal.value;
                              kept == SweepKept(invs, steps, |invs|) && AgedInOrder(kept) &&
                              forall k :: 0 <= k < |kept| ==> kept[k].elapsed <= steps + 1)
  {
    SweepRemovesExpired(invs, steps);
  }

  /**
   * `Ring::collision_forces` with the state it touches: the resolved list,
   * the force matrix, and the detector's records and flags.
   */
  class RingInvasions {
    const numParticles: int
    const kInvasion: real
    const stepsAfterResolved: int
    const length: real
    const height: real
    const updateType: UpdateType
    /** `std::forward_list::max_size()` of the resolved list. */
    const maxSize: int
    const checker: InPolChecker
    var resolved: seq<Invasion>
    var sumForces: seq<seq<Point>>

    constructor (numParticles: int, kInvasion: real, stepsAfterResolved: int, length: real, height: real,
                 updateType: UpdateType, maxSize: int, checker: InPolChecker, sumForces: seq<seq<Point>>)
      ensures this.numParticles == numParticles && this.kInvasion == kInvasion
      ensures this.stepsAfterResolved == stepsAfterResolved && this.length == length && this.height == height
      ensures this.updateType == updateType && this.maxSize == maxSize && this.checker == checker
      ensures resolved == [] && this.sumForces == sumForces
    {
      this.numParticles := numParticles;
      this.kInvasion := kInvasion;
      this.stepsAfterResolved := stepsAfterResolved;
      this.length := length;
      this.height := height;
      this.updateType := updateType;
      this.maxSize := maxSize;
      this.checker := checker;
      resolved := [];
      this.sumForces := sumForces;
    }

    /** The corrective force on the vertex c names. */
    function ForceOf(pos: seq<seq<Point>>, c: ColInfo, norm: Point -> real): Point
      requires 0 <= c.ringId < |pos| && 0 <= c.pId < numParticles <= |pos[c.ringId]| && PositiveNorm(norm)
    {
      var d := InvNormal(pos[c.ringId], c.pId, numParticles, length, height, updateType);
      InvForce(d, norm(d), kInvasion)
    }

    /** The force matrix after the forces on cs, in order, were added. */
    function AddForces(m: seq<seq<Point>>, pos: seq<seq<Point>>, cs: seq<ColInfo>, norm: Point -> real): (r: seq<seq<Point>>)
      requires Shape(pos, m, numParticles) && ColsIn(cs, |pos|, numParticles) && PositiveNorm(norm)
      ensures Shape(pos, r, numParticles)
    {
      if cs == [] then m
      else
        var c := cs[|cs| - 1];
        var m' := AddForces(m, pos, cs[..|cs| - 1], norm);
        AddAt(m', c.ringId, c.pId, ForceOf(pos, c, norm))
    }

    /** A vertex none of cs names keeps its force. */
    lemma {:induction false} AddForcesElsewhere(m: seq<seq<Point>>, pos: seq<seq<Point>>, cs: seq<ColInfo>,
                                                norm: Point -> real, r: int, p: int)
      requires Shape(pos, m, numParticles) && ColsIn(cs, |pos|, numParticles) && PositiveNorm(norm)
      requires 0 <= r < |m| && 0 <= p < |m[r]|
      requires forall k :: 0 <= k < |cs| ==> (cs[k].ringId, cs[k].pId) != (r, p)
      ensures AddForces(m, pos, cs, norm)[r][p] == m[r][p]
    {
      if cs != [] {
        AddForcesElsewhere(m, pos, cs[..|cs| - 1], norm, r, p);
      }
    }

    /** Forces add up over concatenated lists. */
    lemma {:induction false} AddForcesAppend(m: seq<seq<Point>>, pos: seq<seq<Point>>, a: seq<ColInfo>, b: seq<ColInfo>,
                                             norm: Point -> real)
      requires Shape(pos, m, numParticles) && ColsIn(a, |pos|, numParticles) && ColsIn(b, |pos|, numParticles)
      requires PositiveNorm(norm)
      ensures ColsIn(a + b, |pos|, numParticles)
      ensures AddForces(m, pos, a + b, norm) == AddForces(AddForces(m, pos, a, norm), pos, b, norm)
    {
      var ab := a + b;
      forall k | 0 <= k < |ab|
        ensures ColIn(ab[k], |pos|, numParticles)
      {
        if k >= |a| {
          assert ab[k] == b[k - |a|];
        }
      }
      if b != [] {
        var n := |b| - 1;
        var c := b[n];
        var init := ab[..|ab| - 1];
        assert ab[|ab| - 1] == c;
        assert init == a + b[..n];
        AddForcesAppend(m, pos, a, b[..n], norm);
        var ma := AddForces(m, pos, a, norm);
        var mid := AddForces(ma, pos, b[..n], norm);
        assert AddForces(m, pos, init, norm) == mid;
        AddForcesLast(m, pos, ab, norm);
        AddForcesLast(ma, pos, b, norm);
      } else {
        assert ab == a;
      }
    }

    /** The last collision's force is added last. */
    lemma AddForcesLast(m: seq<seq<Point>>, pos: seq<seq<Point>>, cs: seq<ColInfo>, norm: Point -> real)
      requires Shape(pos, m, numParticles) && ColsIn(cs, |pos|, numParticles) && PositiveNorm(norm) && cs != []
      ensures var c := cs[|cs| - 1];
              AddForces(m, pos, cs, norm) == AddAt(AddForces(m, pos, cs[..|cs| - 1], norm), c.ringId, c.pId, ForceOf(pos, c, norm))
    {
    }

    lemma AddForcesSnoc(m: seq<seq<Point>>, pos: seq<seq<Point>>, cs: seq<ColInfo>, c: ColInfo, norm: Point -> real)
      requires Shape(pos, m, numParticles) && ColsIn(cs, |pos|, numParticles) && ColIn(c, |pos|, numParticles)
      requires PositiveNorm(norm)
      ensures ColsIn(cs + [c], |pos|, numParticles)
      ensures AddForces(m, pos, cs + [c], norm) ==
              AddAt(AddForces(m, pos, cs, norm), c.ringId, c.pId, ForceOf(pos, c, norm))
    {
      assert (cs + [c])[..|cs|] == cs;
    }

    /** One iteration of the first pass on the forces: a record still inside gets the force. */
    lemma InvadingStep(pos: seq<seq<Point>>, nv: int, cols: seq<ColInfo>, flags: seq<bool>, n: int, i: int,
                       m: seq<seq<Point>>, norm: Point -> real)
      requires 0 <= i < n <= |flags| && Checkable(pos, nv, cols, n) && PositiveNorm(norm)
      requires Shape(pos, m, numParticles) && ColsIn(cols[..n], |pos|, numParticles)
      requires ColsIn(StillInvading(pos, nv, cols, flags, i), |pos|, numParticles)
      ensures ColIn(cols[i], |pos|, numParticles)
      ensures ColsIn(StillInvading(pos, nv, cols, flags, i + 1), |pos|, numParticles)
      ensures var c, inv := cols[i], StillInvading(pos, nv, cols, flags, i);
              AddForces(m, pos, StillInvading(pos, nv, cols, flags, i + 1), norm) ==
                if !flags[i] && StillInside(pos, nv, c) then AddAt(AddForces(m, pos, inv, norm), c.ringId, c.pId, ForceOf(pos, c, norm))
                else AddForces(m, pos, inv, norm)
    {
      var c, inv := cols[i], StillInvading(pos, nv, cols, flags, i);
      assert cols[..n][i] == c;
      var hit := !flags[i] && StillInside(pos, nv, c);
      assert StillInvading(pos, nv, cols, flags, i + 1) == inv + (if hit then [c] else []);
      if hit {
        AddForcesSnoc(m, pos, inv, c, norm);
      } else {
        assert inv + [] == inv;
      }
    }

    /**
     * The state after the first pass has examined the first n records: the
     * flags, the resolved list and the force matrix, one record at a time.
     */
    /** One record's test in the first pass, on the flags, resolved list and forces so far. */
    function RecordStep(pos: seq<seq<Point>>, nv: int, c: ColInfo, i: int,
                        r: (seq<bool>, seq<Invasion>, seq<seq<Point>>), norm: Point -> real): (r': (seq<bool>, seq<Invasion>, seq<seq<Point>>))
      requires 0 <= i < |r.0| && Shape(pos, r.2, numParticles) && ColIn(c, |pos|, numParticles) && PositiveNorm(norm)
      requires 0 <= c.colRingId < |pos| && 1 <= nv <= |pos[c.colRingId]|
      ensures Shape(pos, r'.2, numParticles) && |r'.0| == |r.0|
      ensures forall k :: 0 <= k < |r.0| && k != i ==> r'.0[k] == r.0[k]
    {
      if r.0[i] then r
      else if !StillInside(pos, nv, c) then (r.0[i := true], AddCollision(r.1, c), r.2)
      else (r.0, r.1, AddAt(r.2, c.ringId, c.pId, ForceOf(pos, c, norm)))
    }

    /**
     * The state after the first pass has examined the first n records: the
     * flags, the resolved list and the force matrix, one record at a time.
     */
    function FirstPass(pos: seq<seq<Point>>, nv: int, cols: seq<ColInfo>, flags: seq<bool>, n: int,
                       res: seq<Invasion>, m: seq<seq<Point>>, norm: Point -> real): (r: (seq<bool>, seq<Invasion>, seq<seq<Point>>))
      requires 0 <= n <= |flags| && Checkable(pos, nv, cols, n) && PositiveNorm(norm)
      requires Shape(pos, m, numParticles) && ColsIn(cols[..n], |pos|, numParticles)
      ensures Shape(pos, r.2, numParticles) && |r.0| == |flags|
      ensures forall k :: n <= k < |flags| ==> r.0[k] == flags[k]
    {
      if n == 0 then (flags, res, m)
      else
        assert cols[..n][..n - 1] == cols[..n - 1];
        assert cols[..n][n - 1] == cols[n - 1];
        RecordStep(pos, nv, cols[n - 1], n - 1, FirstPass(pos, nv, cols, flags, n - 1, res, m, norm), norm)
    }

    /**
     * The first pass flags exactly the records found outside, pushes them in
     * record order, and adds the force for exactly the records still inside.
     */
    lemma {:induction false} FirstPassSpec(pos: seq<seq<Point>>, nv: int, cols: seq<ColInfo>, flags: seq<bool>, n: int,
                                           res: seq<Invasion>, m: seq<seq<Point>>, norm: Point -> real)
      requires 0 <= n <= |flags| && Checkable(pos, nv, cols, n) && PositiveNorm(norm)
      requires Shape(pos, m, numParticles) && ColsIn(cols[..n], |pos|, numParticles)
      ensures ColsIn(StillInvading(pos, nv, cols, flags, n), |pos|, numParticles)
      ensures var r := FirstPass(pos, nv, cols, flags, n, res, m, norm);
              r.0 == FlagsAfter(pos, nv, cols, flags, n) &&
              r.1 == Pushed(res, NewlyResolved(pos, nv, cols, flags, n)) &&
              r.2 == AddForces(m, pos, StillInvading(pos, nv, cols, flags, n), norm)
    {
      if n > 0 {
        assert cols[..n][..n - 1] == cols[..n - 1];
        FirstPassSpec(pos, nv, cols, flags, n - 1, res, m, norm);
        FlagsStep(pos, nv, cols, flags, n, n - 1);
        ResolvedStep(pos, nv, cols, flags, n, n - 1, res);
        InvadingStep(pos, nv, cols, flags, n, n - 1, m, norm);
      }
    }

    /** The body of the first pass for record i. */
    method TestRecord(pos: seq<seq<Point>>, norm: Point -> real, c: ColInfo, i: int,
                      flags: seq<bool>, res: seq<Invasion>, forces: seq<seq<Point>>)
      returns (flags': seq<bool>, res': seq<Invasion>, forces': seq<seq<Point>>)
      requires 0 <= i < |flags| && Shape(pos, forces, numParticles) && ColIn(c, |pos|, numParticles) && PositiveNorm(norm)
      requires 0 <= c.colRingId < |pos| && 1 <= checker.numVerts <= |pos[c.colRingId]|
      ensures (flags', res', forces') == RecordStep(pos, checker.numVerts, c, i, (flags, res, forces), norm)
    {
      flags', res', forces' := flags, res, forces;
      if !flags[i] {
        var p := pos[c.ringId][c.pId];
        var inside := checker.IsInsidePol(pos, p.0, p.1, c.colRingId);
        if !inside {
          flags' := flags[i := true];
          res' := AddCollision(res, c);
        } else {
          var d := InvNormal(pos[c.ringId], c.pId, numParticles, length, height, updateType);
          forces' := AddAt(forces, c.ringId, c.pId, InvForce(d, norm(d), kInvasion));
        }
      }
    }

    /**
     * The first pass of `collision_forces`, over the detector's records: an
     * unresolved record whose vertex is no longer inside the other ring is
     * flagged resolved and pushed to the resolved list; one still inside
     * gets the corrective force.  The new flags, list and forces are returned.
     */
    method ScanRecords(pos: seq<seq<Point>>, norm: Point -> real)
      returns (flags: seq<bool>, res: seq<Invasion>, forces: seq<seq<Point>>)
      requires checker.Buffers() && PositiveNorm(norm)
      requires Shape(pos, sumForces, numParticles)
      requires Checkable(pos, checker.numVerts, checker.collisions, checker.numCollisions)
      requires ColsIn(checker.collisions[..checker.numCollisions], |pos|, numParticles)
      ensures flags == FlagsAfter(pos, checker.numVerts, checker.collisions, checker.isColResolved, checker.numCollisions)
      ensures res == Pushed(resolved, NewlyResolved(pos, checker.numVerts, checker.collisions, checker.isColResolved,
                                                    checker.numCollisions))
      ensures var invading := StillInvading(pos, checker.numVerts, checker.collisions, checker.isColResolved, checker.numCollisions);
              ColsIn(invading, |pos|, numParticles) && forces == AddForces(sumForces, pos, invading, norm)
    {
      ghost var nv, cols, flags0, res0, m0 := checker.numVerts, checker.collisions, checker.isColResolved, resolved, sumForces;
      var n := checker.numCollisions;
      flags, res, forces := checker.isColResolved, resolved, sumForces;
      var i := 0;
      while i < n
        invariant 0 <= i <= n
        invariant Checkable(pos, nv, cols, i) && ColsIn(cols[..i], |pos|, numParticles)
        invariant (flags, res, forces) == FirstPass(pos, nv, cols, flags0, i, res0, m0, norm)
      {
        assert cols[..i + 1] == cols[..n][..i + 1];
        assert cols[..n][i] == cols[i];
        flags, res, forces := TestRecord(pos, norm, checker.collisions[i], i, flags, res, forces);
        i := i + 1;
      }
      assert cols[..n] == cols[..i];
      FirstPassSpec(pos, nv, cols, flags0, n, res0, m0, norm);
    }

    /** The first pass applied to the detector's flags, the resolved list and the force matrix. */
    method TestRecords(pos: seq<seq<Point>>, norm: Point -> real)
      requires checker.Buffers() && PositiveNorm(norm)
      requires Shape(pos, sumForces, numParticles)
      requires Checkable(pos, checker.numVerts, checker.collisions, checker.numCollisions)
      requires ColsIn(checker.collisions[..checker.numCollisions], |pos|, numParticles)
      modifies this, checker
      ensures checker.collisions == old(checker.collisions) && checker.numCollisions == old(checker.numCollisions)
      ensures checker.numInsidePoints == old(checker.numInsidePoints) && checker.insidePoints == old(checker.insidePoints)
      ensures checker.counter == old(checker.counter) && checker.toCalcForces == old(checker.toCalcForces)
      ensures checker.isColResolved ==
              FlagsAfter(pos, checker.numVerts, checker.collisions, old(checker.isColResolved), checker.numCollisions)
      ensures resolved == Pushed(old(resolved), NewlyResolved(pos, checker.numVerts, checker.collisions,
                                                              old(checker.isColResolved), checker.numCollisions))
      ensures var invading := StillInvading(pos, checker.numVerts, checker.collisions, old(checker.isColResolved), checker.numCollisions);
              ColsIn(invading, |pos|, numParticles) && sumForces == AddForces(old(sumForces), pos, invading, norm)
    {
      checker.isColResolved, resolved, sumForces := ScanRecords(pos, norm);
    }

    /** One entry's visit in the second pass, on the list, queued indices, kept count and forces so far. */
    function EntryStep(pos: seq<seq<Point>>, j: int, r: (seq<Invasion>, seq<int>, int, seq<seq<Point>>),
                       norm: Point -> real): (r': (seq<Invasion>, seq<int>, int, seq<seq<Point>>))
      requires 0 <= j < |r.0| && Shape(pos, r.3, numParticles) && ColIn(r.0[j].col, |pos|, numParticles)
      requires PositiveNorm(norm)
      ensures Shape(pos, r'.3, numParticles) && |r'.0| == |r.0|
      ensures forall k :: 0 <= k < |r.0| && k != j ==> r'.0[k] == r.0[k]
    {
      var x := r.0[j];
      if x.elapsed > stepsAfterResolved then (r.0, r.1 + [r.2], r.2, r.3)
      else (r.0[j := Invasion(x.col, x.elapsed + 1)], r.1, r.2 + 1, AddAt(r.3, x.col.ringId, x.col.pId, ForceOf(pos, x.col, norm)))
    }

    /** The state after the second pass has visited the first j entries of invs. */
    function SecondPass(pos: seq<seq<Point>>, invs: seq<Invasion>, j: int, m: seq<seq<Point>>, norm: Point -> real)
      : (r: (seq<Invasion>, seq<int>, int, seq<seq<Point>>))
      requires 0 <= j <= |invs| && Shape(pos, m, numParticles) && ColsIn(Cols(invs), |pos|, numParticles)
      requires PositiveNorm(norm)
      ensures Shape(pos, r.3, numParticles) && |r.0| == |invs|
      ensures forall k :: j <= k < |invs| ==> r.0[k] == invs[k]
    {
      if j == 0 then (invs, [], 0, m)
      else
        assert Cols(invs)[j - 1] == invs[j - 1].col;
        EntryStep(pos, j - 1, SecondPass(pos, invs, j - 1, m, norm), norm)
    }

    /** The last visit of the second pass, spelled out. */
    lemma SecondPassUnfold(pos: seq<seq<Point>>, invs: seq<Invasion>, j: int, m: seq<seq<Point>>, norm: Point -> real)
      requires 0 < j <= |invs| && Shape(pos, m, numParticles) && ColsIn(Cols(invs), |pos|, numParticles)
      requires PositiveNorm(norm)
      ensures var prev, x := SecondPass(pos, invs, j - 1, m, norm), invs[j - 1];
              SecondPass(pos, invs, j, m, norm) ==
                if x.elapsed > stepsAfterResolved then (prev.0, prev.1 + [prev.2], prev.2, prev.3)
                else (prev.0[j - 1 := Invasion(x.col, x.elapsed + 1)], prev.1, prev.2 + 1,
                      AddAt(prev.3, x.col.ringId, x.col.pId, ForceOf(pos, x.col, norm)))
    {
      assert Cols(invs)[j - 1] == invs[j - 1].col;
    }

    /** The forces of one more kept entry. */
    lemma KeptForceStep(pos: seq<seq<Point>>, invs: seq<Invasion>, j: int, m: seq<seq<Point>>, norm: Point -> real)
      requires 0 <= j < |invs| && Shape(pos, m, numParticles) && ColsIn(Cols(invs), |pos|, numParticles)
      requires PositiveNorm(norm) && invs[j].elapsed <= stepsAfterResolved
      ensures ColsIn(Cols(SweepKept(invs, stepsAfterResolved, j)), |pos|, numParticles)
      ensures ColsIn(Cols(SweepKept(invs, stepsAfterResolved, j + 1)), |pos|, numParticles)
      ensures var x := invs[j];
              AddForces(m, pos, Cols(SweepKept(invs, stepsAfterResolved, j + 1)), norm) ==
                AddAt(AddForces(m, pos, Cols(SweepKept(invs, stepsAfterResolved, j)), norm), x.col.ringId, x.col.pId,
                      ForceOf(pos, x.col, norm))
    {
      var x, s := invs[j], stepsAfterResolved;
      SweepKeptCols(invs, s, j, |pos|, numParticles);
      SweepKeptCols(invs, s, j + 1, |pos|, numParticles);
      assert Cols(invs)[j] == x.col;
      var kc := Cols(SweepKept(invs, s, j));
      assert Cols(SweepKept(invs, s, j + 1)) == kc + [x.col];
      AddForcesSnoc(m, pos, kc, x.col, norm);
    }

    /**
     * The second pass ages exactly the entries it keeps and queues the kept
     * count at each expired one.
     */
    lemma {:induction false} SecondPassList(pos: seq<seq<Point>>, invs: seq<Invasion>, j: int, m: seq<seq<Point>>,
                                            norm: Point -> real)
      requires 0 <= j <= |invs| && Shape(pos, m, numParticles) && ColsIn(Cols(invs), |pos|, numParticles)
      requires PositiveNorm(norm)
      ensures var r := SecondPass(pos, invs, j, m, norm);
              r.0 == Aged(invs, stepsAfterResolved, j) && r.1 == SweepIds(invs, stepsAfterResolved, j) &&
              r.2 == |SweepKept(invs, stepsAfterResolved, j)|
    {
      if j > 0 {
        SecondPassList(pos, invs, j - 1, m, norm);
        SweepStep(invs, stepsAfterResolved, j - 1);
        SecondPassUnfold(pos, invs, j, m, norm);
      }
    }

    /** The second pass adds the force of each kept entry, in list order. */
    lemma {:induction false} SecondPassForces(pos: seq<seq<Point>>, invs: seq<Invasion>, j: int, m: seq<seq<Point>>,
                                              norm: Point -> real)
      requires 0 <= j <= |invs| && Shape(pos, m, numParticles) && ColsIn(Cols(invs), |pos|, numParticles)
      requires PositiveNorm(norm)
      ensures ColsIn(Cols(SweepKept(invs, stepsAfterResolved, j)), |pos|, numParticles)
      ensures SecondPass(pos, invs, j, m, norm).3 == AddForces(m, pos, Cols(SweepKept(invs, stepsAfterResolved, j)), norm)
    {
      SweepKeptCols(invs, stepsAfterResolved, j, |pos|, numParticles);
      if j > 0 {
        SecondPassForces(pos, invs, j - 1, m, norm);
        SecondPassForceUnfold(pos, invs, j, m, norm);
        if invs[j - 1].elapsed <= stepsAfterResolved {
          KeptForceStep(pos, invs, j - 1, m, norm);
        } else {
          assert SweepKept(invs, stepsAfterResolved, j) == SweepKept(invs, stepsAfterResolved, j - 1);
        }
      }
    }

    /** The forces after the last visit of the second pass: entry j - 1 adds its force when it is kept. */
    lemma SecondPassForceUnfold(pos: seq<seq<Point>>, invs: seq<Invasion>, j: int, m: seq<seq<Point>>, norm: Point -> real)
      requires 0 < j <= |invs| && Shape(pos, m, numParticles) && ColsIn(Cols(invs), |pos|, numParticles)
      requires PositiveNorm(norm)
      ensures ColIn(invs[j - 1].col, |pos|, numParticles)
      ensures var prev, x := SecondPass(pos, invs, j - 1, m, norm).3, invs[j - 1];
              SecondPass(pos, invs, j, m, norm).3 ==
                if x.elapsed > stepsAfterResolved then prev
                else AddAt(prev, x.col.ringId, x.col.pId, ForceOf(pos, x.col, norm))
    {
      SecondPassUnfold(pos, invs, j, m, norm);
    }

    /** The body of the second pass for entry j. */
    method AgeEntry(pos: seq<seq<Point>>, norm: Point -> real, j: int,
                    invs: seq<Invasion>, ids: seq<int>, count: int, forces: seq<seq<Point>>)
      returns (invs': seq<Invasion>, ids': seq<int>, count': int, forces': seq<seq<Point>>)
      requires 0 <= j < |invs| && Shape(pos, forces, numParticles) && ColIn(invs[j].col, |pos|, numParticles)
      requires PositiveNorm(norm)
      ensures (invs', ids', count', forces') == EntryStep(pos, j, (invs, ids, count, forces), norm)
    {
      invs', ids', count', forces' := invs, ids, count, forces;
      var inv := invs[j];
      if inv.elapsed > stepsAfterResolved {
        ids' := ids + [count];
      } else {
        var c := inv.col;
        var d := InvNormal(pos[c.ringId], c.pId, numParticles, length, height, updateType);
        forces' := AddAt(forces, c.ringId, c.pId, InvForce(d, norm(d), kInvasion));
        count' := count + 1;
        invs' := invs[j := Invasion(c, inv.elapsed + 1)];
      }
    }

    /**
     * The second pass of `collision_forces`, over the resolved list: an
     * entry past `steps_after_resolved` queues the current kept count for
     * removal; any other gets the force and ages by one step in place.
     */
    method AgeResolved(pos: seq<seq<Point>>, norm: Point -> real) returns (ids: seq<int>)
      requires Shape(pos, sumForces, numParticles) && ColsIn(Cols(resolved), |pos|, numParticles)
      requires PositiveNorm(norm)
      modifies this
      ensures resolved == Aged(old(resolved), stepsAfterResolved, |old(resolved)|)
      ensures ids == SweepIds(old(resolved), stepsAfterResolved, |old(resolved)|)
      ensures var kept := SweepKept(old(resolved), stepsAfterResolved, |old(resolved)|);
              ColsIn(Cols(kept), |pos|, numParticles) && sumForces == AddForces(old(sumForces), pos, Cols(kept), norm)
    {
      ghost var invs0, m0 := resolved, sumForces;
      var invs, forces := resolved, sumForces;
      ids := [];
      var count := 0;
      var j := 0;
      while j < |invs|
        invariant 0 <= j <= |invs0| == |invs|
        invariant (invs, ids, count, forces) == SecondPass(pos, invs0, j, m0, norm)
      {
        assert Cols(invs0)[j] == invs0[j].col;
        invs, ids, count, forces := AgeEntry(pos, norm, j, invs, ids, count, forces);
        j := j + 1;
      }
      SecondPassList(pos, invs0, |invs0|, m0, norm);
      SecondPassForces(pos, invs0, |invs0|, m0, norm);
      resolved, sumForces := invs, forces;
    }

    /**
     * The end of `collision_forces`: the queued indices, if any, are removed
     * from the aged list; `outOfRange` reports the exception
     * `remove_by_indices` would throw, which leaves the aged list in place.
     */
    method RemoveExpired(ghost invs: seq<Invasion>, ids: seq<int>) returns (outOfRange: bool)
      requires resolved == Aged(invs, stepsAfterResolved, |invs|) && ids == SweepIds(invs, stepsAfterResolved, |invs|)
      modifies this
      ensures sumForces == old(sumForces)
      ensures var removal := RemoveByIndices(old(resolved), ids, maxSize);
              (outOfRange <==> removal.Err?) && resolved == (if removal.Ok? then removal.value else old(resolved))
      ensures AgedInOrder(invs) ==>
                (|invs| <= maxSize ==> !outOfRange) &&
                (!outOfRange ==> resolved == SweepKept(invs, stepsAfterResolved, |invs|) && AgedInOrder(resolved) &&
                                 forall k :: 0 <= k < |resolved| ==> resolved[k].elapsed <= stepsAfterResolved + 1)
    {
      outOfRange := false;
      if |ids| > 0 {
        var r := RemoveIds(resolved, ids, maxSize);
        if r.Err? {
          outOfRange := true;
        } else {
          resolved := r.value;
        }
      } else {
        assert SortAsc(ids) == [];
      }
      if AgedInOrder(invs) {
        SweepOutcome(invs, stepsAfterResolved, maxSize);
      }
    }

    /**
     * `collision_forces`: the two passes, then the removal of the queued
     * indices.  `outOfRange` reports the exception `remove_by_indices`
     * would throw, which leaves the aged list in place.  On a list kept in
     * order, as `add_collision` and the sweep keep it, the removal erases
     * exactly the expired entries.
     */
    method CollisionForces(pos: seq<seq<Point>>, norm: Point -> real) returns (outOfRange: bool)
      requires checker.Buffers() && PositiveNorm(norm)
      requires Shape(pos, sumForces, numParticles)
      requires Checkable(pos, checker.numVerts, checker.collisions, checker.numCollisions)
      requires ColsIn(checker.collisions[..checker.numCollisions], |pos|, numParticles)
      requires ColsIn(Cols(resolved), |pos|, numParticles)
      modifies this, checker
      ensures checker.collisions == old(checker.collisions) && checker.numCollisions == old(checker.numCollisions)
      ensures checker.numInsidePoints == old(checker.numInsidePoints) && checker.insidePoints == old(checker.insidePoints)
      ensures checker.counter == old(checker.counter) && checker.toCalcForces == old(checker.toCalcForces)
      ensures checker.isColResolved ==
              FlagsAfter(pos, checker.numVerts, checker.collisions, old(checker.isColResolved), checker.numCollisions)
      ensures var invading := StillInvading(pos, checker.numVerts, checker.collisions, old(checker.isColResolved), checker.numCollisions);
              var pushed := Pushed(old(resolved), NewlyResolved(pos, checker.numVerts, checker.collisions,
                                                                old(checker.isColResolved), checker.numCollisions));
              var kept := SweepKept(pushed, stepsAfterResolved, |pushed|);
              var swept := Aged(pushed, stepsAfterResolved, |pushed|);
              var removal := RemoveByIndices(swept, SweepIds(pushed, stepsAfterResolved, |pushed|), maxSize);
              ColsIn(invading, |pos|, numParticles) && ColsIn(Cols(kept), |pos|, numParticles) &&
              sumForces == AddForces(AddForces(old(sumForces), pos, invading, norm), pos, Cols(kept), norm) &&
              (outOfRange <==> removal.Err?) &&
              resolved == (if removal.Ok? then removal.value else swept)
      ensures var pushed := Pushed(old(resolved), NewlyResolved(pos, checker.numVerts, checker.collisions,
                                                                old(checker.isColResolved), checker.numCollisions));
              AgedInOrder(old(resolved)) ==>
                (|pushed| <= maxSize ==> !outOfRange) &&
                (!outOfRange ==> resolved == SweepKept(pushed, stepsAfterResolved, |pushed|) && AgedInOrder(resolved) &&
                                 forall k :: 0 <= k < |resolved| ==> resolved[k].elapsed <= stepsAfterResolved + 1)
    {
      ghost var nv, cols, flags0, n, res0 := checker.numVerts, checker.collisions, checker.isColResolved, checker.numCollisions, resolved;
      TestRecords(pos, norm);
      ghost var pushed := resolved;
      RecordedInRange(pos, nv, cols, flags0, n, numParticles);
      PushedCols(res0, NewlyResolved(pos, nv, cols, flags0, n), |pos|, numParticles);
      var ids := AgeResolved(pos, norm);
      if AgedInOrder(res0) {
        PushedInOrder(res0, NewlyResolved(pos, nv, cols, flags0, n));
      }
      outOfRange := RemoveExpired(pushed, ids);
    }
  }
}
