/**
 * The ragged point buffer `ArraySizeAware` and the index split of
 * `MultFileList` (src/phystem/data_utils/data_types.py).
 *
 * A buffer holds `capacity` data points; point i is a block of
 * `maxNumEls` rows of `numDims` reals of which only the first
 * `pointNumElements[i]` are meaningful.  numpy's slicing, broadcasting and
 * negative indexing are written out where the source relies on them.
 */
module DataTypes {
  import opened Wrappers

  /** One element of a data point: `numDims` coordinates. */
  type Row = seq<real>

  datatype Outcome = Done | Raised(error: Error)

  function ZeroRow(d: nat): (r: Row)
    ensures |r| == d && forall k :: 0 <= k < d ==> r[k] == 0.0
  {
    seq(d, _ => 0.0)
  }

  /** Every slot of `data[i]` with `m` rows of `d` zeros. */
  function ZeroData(c: nat, m: nat, d: nat): (data: seq<seq<Row>>)
    ensures |data| == c && forall i :: 0 <= i < c ==> data[i] == seq(m, _ => ZeroRow(d))
  {
    seq(c, _ => seq(m, _ => ZeroRow(d)))
  }

  function Zeros(c: nat): (z: seq<int>)
    ensures |z| == c && forall i :: 0 <= i < c ==> z[i] == 0
  {
    seq(c, _ => 0)
  }

  /** A point block of exactly m rows of d coordinates. */
  ghost predicate Shaped(slot: seq<Row>, m: int, d: int)
  {
    |slot| == m && forall r :: 0 <= r < |slot| ==> |slot[r]| == d
  }

  /** Python's `s[:n]` for any integer n (a negative n drops |n| items from the end). */
  function PyPrefix<T>(s: seq<T>, n: int): seq<T>
  {
    if n >= |s| then s
    else if n >= 0 then s[..n]
    else if |s| + n >= 0 then s[..|s| + n]
    else []
  }

  /** The position Python indexing `s[key]` reaches in a sequence of length len, if any. */
  function PyIndex(key: int, len: int): (r: Option<int>)
    ensures r.Some? <==> -len <= key < len
    ensures r.Some? ==> 0 <= r.value < len && (r.value == key || r.value == key + len)
  {
    if 0 <= key < len then Some(key)
    else if -len <= key < 0 then Some(key + len)
    else None
  }

  /** `slot[:|rows|] = rows` for rows no longer than the slot: the rest is kept. */
  function WriteRows(slot: seq<Row>, rows: seq<Row>): (r: seq<Row>)
    requires |rows| <= |slot|
  {
    rows + slot[|rows|..]
  }

  lemma WriteRowsSpec(slot: seq<Row>, rows: seq<Row>, m: int, d: int)
    requires |rows| <= |slot| && Shaped(slot, m, d) && forall k :: 0 <= k < |rows| ==> |rows[k]| == d
    ensures Shaped(WriteRows(slot, rows), m, d)
    ensures WriteRows(slot, rows)[..|rows|] == rows
    ensures WriteRows(slot, rows)[|rows|..] == slot[|rows|..]
  {
  }

  /**
   * The exception `update(id, x)` raises, if any, on a buffer of capacity
   * `cap` with `m` rows per point, for n rows: the id must exist, and the
   * n rows must fit in the m-row slot (one row broadcasts onto an empty
   * slot).
   */
  function UpdateOutcome(cap: int, m: int, id: int, n: int): Outcome
  {
    if id >= cap then Raised(IndexError)
    else if n > m && n != 1 then Raised(ValueError)
    else Done
  }

  /**
   * The exception `add_multiple` raises, if any, for k points written at
   * `current_id` = cur: the slice `data[cur:cur+k]` is cut at the capacity
   * and must then hold all k points, unless a single point broadcasts.
   */
  function AddMultipleOutcome(cap: int, cur: int, k: int): Outcome
  {
    if k <= 1 || cur + k <= cap then Done else Raised(ValueError)
  }

  class ArraySizeAware {
    const maxNumEls: nat
    const numDims: nat
    var data: seq<seq<Row>>
    var pointNumElements: seq<int>
    var currentId: int

    /** One count per slot, every slot shaped (maxNumEls, numDims). */
    ghost predicate Valid()
      reads this
    {
      |pointNumElements| == |data| && currentId >= 0 &&
      forall i :: 0 <= i < |data| ==> Shaped(data[i], maxNumEls, numDims)
    }

    /** `is_full`. */
    predicate IsFull()
      reads this
    {
      currentId >= |data|
    }

    /**
     * `self[key]`: an IndexError for keys at or past `num_points`; otherwise
     * the recorded prefix of the slot Python indexing reaches.
     */
    function GetItem(key: int): (r: Result<seq<Row>>)
      reads this
      requires Valid()
      ensures key >= currentId ==> r == Err(IndexError)
      ensures 0 <= key < currentId && key < |data| ==> r == Ok(PyPrefix(data[key], pointNumElements[key]))
      ensures key >= |data| ==> r == Err(IndexError)
    {
      if key >= currentId then Err(IndexError)
      else match PyIndex(key, |data|)
        case None => Err(IndexError)
        case Some(k) => Ok(PyPrefix(data[k], pointNumElements[k]))
    }

    /** A new buffer of zeros with no point recorded. */
    constructor (numDataPoints: nat, maxNumEls: nat, numDims: nat)
      ensures Valid() && this.maxNumEls == maxNumEls && this.numDims == numDims
      ensures data == ZeroData(numDataPoints, maxNumEls, numDims) && pointNumElements == Zeros(numDataPoints)
      ensures currentId == 0
      ensures forall key :: key >= 0 ==> GetItem(key) == Err(IndexError)
    {
      this.maxNumEls := maxNumEls;
      this.numDims := numDims;
      data := ZeroData(numDataPoints, maxNumEls, numDims);
      pointNumElements := Zeros(numDataPoints);
      currentId := 0;
    }

    /** `ArraySizeAware.empty()`: a buffer of capacity zero, full from the start. */
    constructor Empty()
      ensures Valid() && data == [] && pointNumElements == [] && currentId == 0 && IsFull()
    {
      maxNumEls := 0;
      numDims := 0;
      data := [];
      pointNumElements := [];
      currentId := 0;
    }

    /**
     * `update(id, x)`: the first |x| rows of slot id become x and the count of
     * slot id becomes |x|; no other slot changes.  On an exception nothing
     * changes.
     */
    method Update(id: int, x: seq<Row>) returns (r: Outcome)
      requires Valid() && id >= 0 && forall k :: 0 <= k < |x| ==> |x[k]| == numDims
      modifies this
      ensures Valid() && currentId == old(currentId) && |data| == |old(data)|
      ensures r == UpdateOutcome(|old(data)|, maxNumEls, id, |x|)
      ensures r.Raised? ==> data == old(data) && pointNumElements == old(pointNumElements)
      ensures r.Done? ==>
                var written := if |x| <= maxNumEls then x else [];
                data == old(data)[id := WriteRows(old(data)[id], written)] &&
                pointNumElements == old(pointNumElements)[id := |x|]
    {
      r := UpdateOutcome(|data|, maxNumEls, id, |x|);
      if r.Raised? {
        return;
      }
      var written := if |x| <= maxNumEls then x else [];
      WriteRowsSpec(data[id], written, maxNumEls, numDims);
      data := data[id := WriteRows(data[id], written)];
      pointNumElements := pointNumElements[id := |x|];
    }

    /**
     * `add(x)`: `update(current_id, x)`, then `current_id` advances.  A full
     * buffer raises IndexError, and more rows than a slot holds (other than a
     * single broadcast row) raise ValueError; either way the buffer is left
     * as it was.  Otherwise only slot `current_id` is written; when x fits
     * the slot, reading the new point back gives x, and every other point
     * reads as before.
     */
    method Add(x: seq<Row>) returns (r: Outcome)
      requires Valid() && forall k :: 0 <= k < |x| ==> |x[k]| == numDims
      modifies this
      ensures Valid() && |data| == |old(data)|
      ensures r == UpdateOutcome(|old(data)|, maxNumEls, old(currentId), |x|)
      ensures old(IsFull()) <==> r == Raised(IndexError)
      ensures r.Done? ==>
                var written := if |x| <= maxNumEls then x else [];
                data == old(data)[old(currentId) := WriteRows(old(data)[old(currentId)], written)] &&
                pointNumElements == old(pointNumElements)[old(currentId) := |x|]
      ensures r.Raised? ==> data == old(data) && pointNumElements == old(pointNumElements) && currentId == old(currentId)
      ensures r.Done? ==> currentId == old(currentId) + 1
      ensures r.Done? && |x| <= maxNumEls ==> GetItem(old(currentId)) == Ok(x)
      ensures r.Done? ==> forall key :: 0 <= key < old(currentId) ==> GetItem(key) == old(GetItem(key))
    {
      r := Update(currentId, x);
      if r.Raised? {
        return;
      }
      currentId := currentId + 1;
      if |x| <= maxNumEls {
        var id := old(currentId);
        assert PyIndex(id, |data|) == Some(id);
        assert data[id][..|x|] == x;
        assert PyPrefix(data[id], |x|) == x;
      }
    }

    /**
     * `add_multiple(block, counts)`: the k points of the block and their
     * counts are copied to slots `current_id .. current_id + k - 1`, which
     * then read back as the recorded prefixes of the block, and
     * `current_id` advances by k.  A block that does not fit raises
     * ValueError and changes nothing; a single point past the end is
     * broadcast onto the empty slice and only advances `current_id`.
     */
    method AddMultiple(block: seq<seq<Row>>, counts: seq<int>) returns (r: Outcome)
      requires Valid() && |counts| == |block|
      requires forall i :: 0 <= i < |block| ==> Shaped(block[i], maxNumEls, numDims)
      modifies this
      ensures Valid() && |data| == |old(data)|
      ensures r == AddMultipleOutcome(|old(data)|, old(currentId), |block|)
      ensures r.Raised? ==> data == old(data) && pointNumElements == old(pointNumElements) && currentId == old(currentId)
      ensures r.Done? ==> currentId == old(currentId) + |block|
      ensures r.Done? && old(currentId) + |block| <= |old(data)| ==>
                var cur := old(currentId);
                data == old(data)[..cur] + block + old(data)[cur + |block|..] &&
                pointNumElements == old(pointNumElements)[..cur] + counts + old(pointNumElements)[cur + |block|..] &&
                forall i :: 0 <= i < |block| ==> GetItem(cur + i) == Ok(PyPrefix(block[i], counts[i]))
      ensures r.Done? && old(currentId) + |block| > |old(data)| ==>
                data == old(data) && pointNumElements == old(pointNumElements)
    {
      var cur, k := currentId, |block|;
      r := AddMultipleOutcome(|data|, cur, k);
      if r.Raised? {
        return;
      }
      if cur + k <= |data| {
        data := data[..cur] + block + data[cur + k..];
        pointNumElements := pointNumElements[..cur] + counts + pointNumElements[cur + k..];
        forall i | 0 <= i < k
          ensures data[cur + i] == block[i] && pointNumElements[cur + i] == counts[i]
        {
        }
      }
      currentId := cur + k;
    }

    /** `reset`: data and counts back to zero and no point recorded. */
    method Reset()
      requires Valid()
      modifies this
      ensures Valid() && currentId == 0
      ensures data == ZeroData(|old(data)|, maxNumEls, numDims) && pointNumElements == Zeros(|old(data)|)
      ensures forall key :: key >= 0 ==> GetItem(key) == Err(IndexError)
    {
      currentId := 0;
      pointNumElements := Zeros(|pointNumElements|);
      data := ZeroData(|data|, maxNumEls, numDims);
    }

    /**
     * `strip`: both arrays are cut to the recorded points; the buffer is then
     * full and every recorded point reads as before.
     */
    method Strip()
      requires Valid()
      modifies this
      ensures Valid() && currentId == old(currentId) && IsFull()
      ensures var c := if currentId <= |old(data)| then currentId else |old(data)|;
              data == old(data)[..c] && pointNumElements == old(pointNumElements)[..c]
      ensures forall key :: 0 <= key < currentId ==> GetItem(key) == old(GetItem(key))
    {
      var c := if currentId <= |data| then currentId else |data|;
      data := data[..c];
      pointNumElements := pointNumElements[..c];
    }
  }

  // ---------------------------------------------------------------------
  // MultFileList: one list stored as consecutive files of equal length
  // ---------------------------------------------------------------------

  /**
   * `_get_ids(id)`: the file holding item id and its position in that file,
   * for files of `per` items (the length of the first file).
   */
  function GetIds(id: int, per: nat): (r: Result<(int, int)>)
    ensures per == 0 <==> r == Err(ZeroDivisionError)
    ensures r.Ok? ==> id == r.value.0 * per + r.value.1 && 0 <= r.value.1 < per
  {
    if per == 0 then Err(ZeroDivisionError)
    else Ok((id / per, id % per))
  }

  lemma MulNonNeg(a: int, b: int)
    requires a >= 0 && b >= 0
    ensures a * b >= 0
  {
  }

  /** Multiplying by a non-negative factor keeps the order. */
  lemma MulLe(a: int, b: int, c: int)
    requires a <= b && c >= 0
    ensures a * c <= b * c
  {
    MulNonNeg(b - a, c);
    assert b * c - a * c == (b - a) * c;
  }

  /** The split of an id is the only one with a position in [0, per). */
  lemma GetIdsUnique(id: int, per: nat, f: int, p: int)
    requires per > 0 && id == f * per + p && 0 <= p < per
    ensures GetIds(id, per) == Ok((f, p))
  {
    var g, q := id / per, id % per;
    assert id == g * per + q;
    if f > g {
      MulLe(g + 1, f, per);
      assert false;
    } else if f < g {
      MulLe(f + 1, g, per);
      assert false;
    }
  }

  /** `__len__`: all files but the last are full, the last holds lastLen items. */
  function TotalPoints(numFiles: int, per: int, lastLen: int): int
  {
    (numFiles - 1) * per + lastLen
  }

  /** The list the files hold, in file order. */
  ghost function Concat<T>(files: seq<seq<T>>): seq<T>
  {
    if files == [] then [] else Concat(files[..|files| - 1]) + files[|files| - 1]
  }

  /** Every file but the last holds per items and the last at most per. */
  ghost predicate Chunked<T>(files: seq<seq<T>>, per: int)
  {
    |files| > 0 && |files[|files| - 1]| <= per &&
    forall i :: 0 <= i < |files| - 1 ==> |files[i]| == per
  }

  lemma {:induction false} ConcatLength<T>(files: seq<seq<T>>, per: int)
    requires |files| > 0 && forall i :: 0 <= i < |files| - 1 ==> |files[i]| == per
    ensures |Concat(files)| == TotalPoints(|files|, per, |files[|files| - 1]|)
  {
    var pre := files[..|files| - 1];
    if |pre| == 0 {
      assert Concat(pre) == [];
    } else {
      ConcatLength(pre, per);
      assert pre[|pre| - 1] == files[|files| - 2];
      assert (|files| - 1) * per == (|files| - 2) * per + per;
    }
  }

  lemma {:induction false} ConcatAt<T>(files: seq<seq<T>>, per: int, f: int, p: int)
    requires per > 0 && 0 <= f < |files| && 0 <= p < |files[f]|
    requires forall i :: 0 <= i < |files| - 1 ==> |files[i]| == per
    ensures f * per + p < |Concat(files)| && Concat(files)[f * per + p] == files[f][p]
  {
    var pre := files[..|files| - 1];
    if |pre| > 0 {
      ConcatLength(pre, per);
      assert |Concat(pre)| == (|files| - 1) * per by {
        assert pre[|pre| - 1] == files[|files| - 2];
        assert (|files| - 1) * per == (|files| - 2) * per + per;
      }
    } else {
      assert Concat(pre) == [];
    }
    if f < |files| - 1 {
      assert pre[f] == files[f];
      ConcatAt(pre, per, f, p);
      assert f * per + p < |Concat(pre)|;
    } else {
      assert f * per == |Concat(pre)|;
    }
  }

  /**
   * `self[key]` for every key below `len(self)` finds the key-th item of the
   * list: the split names an existing file and position, and the item there
   * is the key-th of the concatenated files.
   */
  lemma GetItemFindsItem<T>(files: seq<seq<T>>, key: int)
    requires |files| > 0 && |files[0]| > 0 && Chunked(files, |files[0]|)
    requires 0 <= key < TotalPoints(|files|, |files[0]|, |files[|files| - 1]|)
    ensures var per := |files[0]|;
            GetIds(key, per).Ok? &&
            var (f, p) := GetIds(key, per).value;
            0 <= f < |files| && 0 <= p < |files[f]| && key < |Concat(files)| && files[f][p] == Concat(files)[key]
  {
    var per := |files[0]|;
    var n := |files|;
    var (f, p) := GetIds(key, per).value;
    ConcatLength(files, per);
    assert key == f * per + p;
    if f < 0 {
      MulLe(f, -1, per);
      assert false;
    }
    if f >= n {
      MulLe(n, f, per);
      assert false;
    }
    if f == n - 1 {
      assert p < |files[n - 1]|;
    } else {
      assert |files[f]| == per;
    }
    ConcatAt(files, per, f, p);
  }
}

/**
 * The older `ArraySizeAware` (src/phystem/systems/ring/collectors/data_types.py):
 * the same buffer without `add_multiple`, and with a `self[key]` that
 * checks no bound but the capacity's.
 */
module LegacyDataTypes {
  import opened Wrappers
  import opened DataTypes

  class ArraySizeAware {
    const maxNumEls: nat
    const numDims: nat
    var data: seq<seq<Row>>
    var pointNumElements: seq<int>
    var currentId: int

    ghost predicate Valid()
      reads this
    {
      |pointNumElements| == |data| && currentId >= 0 &&
      forall i :: 0 <= i < |data| ==> Shaped(data[i], maxNumEls, numDims)
    }

    predicate IsFull()
      reads this
    {
      currentId >= |data|
    }

    /**
     * `self[key]`: the recorded prefix of whatever slot Python indexing
     * reaches, recorded or not; only a key outside the capacity raises.
     */
    function GetItem(key: int): (r: Result<seq<Row>>)
      reads this
      requires Valid()
      ensures r.Err? <==> !(-|data| <= key < |data|)
      ensures 0 <= key < |data| ==> r == Ok(PyPrefix(data[key], pointNumElements[key]))
    {
      match PyIndex(key, |data|)
      case None => Err(IndexError)
      case Some(k) => Ok(PyPrefix(data[k], pointNumElements[k]))
    }

    /**
     * A new buffer of zeros; unlike the newer buffer, every slot of it
     * already reads as an empty point.
     */
    constructor (numDataPoints: nat, maxNumEls: nat, numDims: nat)
      ensures Valid() && this.maxNumEls == maxNumEls && this.numDims == numDims
      ensures data == ZeroData(numDataPoints, maxNumEls, numDims) && pointNumElements == Zeros(numDataPoints)
      ensures currentId == 0
      ensures forall key :: 0 <= key < numDataPoints ==> GetItem(key) == Ok([])
    {
      this.maxNumEls := maxNumEls;
      this.numDims := numDims;
      data := ZeroData(numDataPoints, maxNumEls, numDims);
      pointNumElements := Zeros(numDataPoints);
      currentId := 0;
    }

    /** `update(id, x)`, as in the newer buffer. */
    method Update(id: int, x: seq<Row>) returns (r: Outcome)
      requires Valid() && id >= 0 && forall k :: 0 <= k < |x| ==> |x[k]| == numDims
      modifies this
      ensures Valid() && currentId == old(currentId) && |data| == |old(data)|
      ensures r == UpdateOutcome(|old(data)|, maxNumEls, id, |x|)
      ensures r.Raised? ==> data == old(data) && pointNumElements == old(pointNumElements)
      ensures r.Done? ==>
                var written := if |x| <= maxNumEls then x else [];
                data == old(data)[id := WriteRows(old(data)[id], written)] &&
                pointNumElements == old(pointNumElements)[id := |x|]
    {
      r := UpdateOutcome(|data|, maxNumEls, id, |x|);
      if r.Raised? {
        return;
      }
      var written := if |x| <= maxNumEls then x else [];
      WriteRowsSpec(data[id], written, maxNumEls, numDims);
      data := data[id := WriteRows(data[id], written)];
      pointNumElements := pointNumElements[id := |x|];
    }

    /**
     * `add(x)`, as in the newer buffer: IndexError when full, ValueError for
     * more rows than a slot holds (other than one broadcast row), and on
     * success only slot `current_id` is written; when x fits the slot, the
     * new point reads back as x.
     */
    method Add(x: seq<Row>) returns (r: Outcome)
      requires Valid() && forall k :: 0 <= k < |x| ==> |x[k]| == numDims
      modifies this
      ensures Valid() && |data| == |old(data)|
      ensures r == UpdateOutcome(|old(data)|, maxNumEls, old(currentId), |x|)
      ensures old(IsFull()) <==> r == Raised(IndexError)
      ensures r.Done? ==>
                var written := if |x| <= maxNumEls then x else [];
                data == old(data)[old(currentId) := WriteRows(old(data)[old(currentId)], written)] &&
                pointNumElements == old(pointNumElements)[old(currentId) := |x|]
      ensures r.Raised? ==> data == old(data) && pointNumElements == old(pointNumElements) && currentId == old(currentId)
      ensures r.Done? ==> currentId == old(currentId) + 1
      ensures r.Done? && |x| <= maxNumEls ==> GetItem(old(currentId)) == Ok(x)
    {
      r := Update(currentId, x);
      if r.Raised? {
        return;
      }
      currentId := currentId + 1;
      if |x| <= maxNumEls {
        var id := old(currentId);
        assert PyIndex(id, |data|) == Some(id);
        assert data[id][..|x|] == x;
        assert PyPrefix(data[id], |x|) == x;
      }
    }

    /** `reset`: data and counts back to zero; every slot reads as an empty point. */
    method Reset()
      requires Valid()
      modifies this
      ensures Valid() && currentId == 0
      ensures data == ZeroData(|old(data)|, maxNumEls, numDims) && pointNumElements == Zeros(|old(data)|)
      ensures forall key :: 0 <= key < |data| ==> GetItem(key) == Ok([])
    {
      currentId := 0;
      pointNumElements := Zeros(|pointNumElements|);
      data := ZeroData(|data|, maxNumEls, numDims);
    }

    /** `strip`: both arrays cut to the recorded points; the buffer is then full. */
    method Strip()
      requires Valid()
      modifies this
      ensures Valid() && currentId == old(currentId) && IsFull()
      ensures var c := if currentId <= |old(data)| then currentId else |old(data)|;
              data == old(data)[..c] && pointNumElements == old(pointNumElements)[..c]
      ensures forall key :: 0 <= key < currentId && key < |data| ==> GetItem(key) == old(GetItem(key))
    {
      var c := if currentId <= |data| then currentId else |data|;
      data := data[..c];
      pointNumElements := pointNumElements[..c];
    }
  }
}
