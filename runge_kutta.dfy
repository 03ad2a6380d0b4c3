/**
 * Explicit Runge-Kutta integration: Butcher tables built from their lower
 * triangle, the collection of named tables, the fixed-step integration loop
 * of `rk_geral`, and the stepping solver `RkSolver`. The derivative function
 * is a parameter `f(x, t)`.
 */
module RungeKutta {
  import opened Wrappers
  import opened Numeric

  type Vec = seq<real>

  /**
   * `q_values[i, :i] = row`: a row of length `i` is copied, a row of length one
   * is broadcast, and any other length cannot be broadcast (ValueError).
   */
  function Broadcast(row: seq<real>, i: nat): (r: Result<seq<real>>)
    ensures r.Err? <==> |row| != i && |row| != 1
    ensures r.Err? ==> r.error == ValueError
    ensures r.Ok? ==> |r.value| == i && forall j :: 0 <= j < i ==> r.value[j] == if |row| == i then row[j] else row[0]
  {
    if |row| == i then Ok(row)
    else if |row| == 1 then Ok(seq(i, _ => row[0]))
    else Err(ValueError)
  }

  /** Every input row `i - 1` fits the first `i` entries of row `i`. */
  predicate RowsFit(qIn: seq<seq<real>>)
  {
    forall i :: 0 <= i < |qIn| ==> Broadcast(qIn[i], i + 1).Ok?
  }

  /** Row `i` of the table: the broadcast input row, then zeros; row 0 is all zeros. */
  function TableRow(qIn: seq<seq<real>>, i: int, order: int): (row: seq<real>)
    requires RowsFit(qIn) && 0 <= i <= |qIn| && order >= 0
    ensures |row| == order
  {
    var fill: seq<real> := if i == 0 then [] else Broadcast(qIn[i - 1], i).value;
    seq(order, j requires 0 <= j < order => if j < i then fill[j] else 0.0)
  }

  datatype Table = Table(order: int, q: seq<seq<real>>, p: seq<real>, a: seq<real>)

  /** The `ButcherTable` constructor: `order = len(q_values) + 1`, the rows, and `p_values[i]` the row sums. */
  function BuildTable(qIn: seq<seq<real>>, aIn: seq<real>): (r: Result<Table>)
    ensures r.Err? <==> !RowsFit(qIn)
    ensures r.Err? ==> r.error == ValueError
  {
    if !RowsFit(qIn) then Err(ValueError)
    else
      var order := |qIn| + 1;
      Ok(Table(order,
               seq(order, i requires 0 <= i < order => TableRow(qIn, i, order)),
               seq(order, i requires 0 <= i < order => if i == 0 then 0.0 else Sum(TableRow(qIn, i, order))),
               aIn))
  }

  /** Zeros add nothing to a sum. */
  lemma {:induction false} SumZeroSuffix(s: seq<real>, i: nat)
    requires i <= |s| && forall j :: i <= j < |s| ==> s[j] == 0.0
    ensures Sum(s) == Sum(s[..i])
  {
    if |s| > i {
      var n := |s| - 1;
      assert s[..n][..i] == s[..i];
      SumZeroSuffix(s[..n], i);
    } else {
      assert s[..i] == s;
    }
  }

  /**
   * The shape of a built table: `order x order`, strictly lower triangular,
   * row `i` starting with input row `i - 1`, `p_values[0] = 0` and each
   * `p_values[i]` the sum of row `i`, which is the sum of its first `i` entries.
   */
  lemma {:induction false} ButcherTableShape(qIn: seq<seq<real>>, aIn: seq<real>, i: int)
    requires BuildTable(qIn, aIn).Ok? && 0 <= i < |qIn| + 1
    ensures var t := BuildTable(qIn, aIn).value;
      t.order == |qIn| + 1 && |t.q| == t.order && |t.p| == t.order && t.a == aIn && |t.q[i]| == t.order
    ensures var t := BuildTable(qIn, aIn).value;
      forall j :: i <= j < t.order ==> t.q[i][j] == 0.0
    ensures var t := BuildTable(qIn, aIn).value;
      i >= 1 ==> t.q[i][..i] == Broadcast(qIn[i - 1], i).value
    ensures var t := BuildTable(qIn, aIn).value;
      t.p[0] == 0.0 && t.p[i] == Sum(t.q[i]) && t.p[i] == Sum(t.q[i][..i])
  {
    var t := BuildTable(qIn, aIn).value;
    SumZeroSuffix(t.q[i], i);
    if i == 0 {
      assert t.q[0][..0] == [];
    }
  }

  /** The table is well formed: square, with one `p` and one `a` per stage. */
  predicate WellFormed(t: Table)
  {
    t.order >= 1 && |t.q| == t.order && |t.p| == t.order && |t.a| == t.order &&
    forall i :: 0 <= i < t.order ==> |t.q[i]| == t.order
  }

  lemma BuiltWellFormed(qIn: seq<seq<real>>, aIn: seq<real>)
    requires BuildTable(qIn, aIn).Ok? && |aIn| == |qIn| + 1
    ensures WellFormed(BuildTable(qIn, aIn).value)
  {
  }

  /**
   * The `ButcherTable` constructor's loop, on zero-initialised arrays: row `i`
   * gets its broadcast input row, then `p[i]` its sum.
   */
  method NewButcherTable(qIn: seq<seq<real>>, aIn: seq<real>) returns (r: Result<Table>)
    ensures r == BuildTable(qIn, aIn)
  {
    var order := |qIn| + 1;
    var q := new real[order, order]((_, _) => 0.0);
    var p := new real[order](_ => 0.0);
    ghost var rows: seq<seq<real>> := [];
    var i := 1;
    while i < order
      invariant 1 <= i <= order && q.Length0 == order && q.Length1 == order && p.Length == order
      invariant |rows| == i - 1
      invariant forall k :: 0 <= k < i - 1 ==> Broadcast(qIn[k], k + 1) == Ok(rows[k]) && |rows[k]| == k + 1
      invariant forall k, j :: 0 <= k < order && 0 <= j < order ==>
        q[k, j] == if 1 <= k < i && j < k then rows[k - 1][j] else 0.0
      invariant p[0] == 0.0
      invariant forall k :: 1 <= k < i ==> p[k] == Sum(rows[k - 1])
    {
      var b := Broadcast(qIn[i - 1], i);
      if b.Err? {
        return Err(b.error);
      }
      StoreRow(q, p, i, b.value);
      rows := rows + [b.value];
      i := i + 1;
    }
    assert RowsFit(qIn);
    var qs := ArrayRows(q, order);
    ArraysHoldTable(qIn, aIn, q, p, rows, qs);
    r := Ok(Table(order, qs, p[..], aIn));
  }

  /** Filled arrays, read back as sequences, are the table `BuildTable` describes. */
  lemma ArraysHoldTable(qIn: seq<seq<real>>, aIn: seq<real>, q: array2<real>, p: array<real>,
                        rows: seq<seq<real>>, qs: seq<seq<real>>)
    requires RowsFit(qIn)
    requires q.Length0 == |qIn| + 1 && q.Length1 == |qIn| + 1 && p.Length == |qIn| + 1 && |rows| == |qIn|
    requires forall k :: 0 <= k < |qIn| ==> Broadcast(qIn[k], k + 1) == Ok(rows[k]) && |rows[k]| == k + 1
    requires forall k, j :: 0 <= k < q.Length0 && 0 <= j < q.Length1 ==>
      q[k, j] == if 1 <= k && j < k then rows[k - 1][j] else 0.0
    requires p[0] == 0.0 && forall k :: 1 <= k < p.Length ==> p[k] == Sum(rows[k - 1])
    requires |qs| == q.Length0 && forall k :: 0 <= k < |qs| ==> qs[k] == RowPrefix(q, k, q.Length1)
    ensures BuildTable(qIn, aIn) == Ok(Table(|qIn| + 1, qs, p[..], aIn))
  {
    var order := |qIn| + 1;
    var table := BuildTable(qIn, aIn).value;
    forall k | 0 <= k < order
      ensures qs[k] == table.q[k] && p[k] == table.p[k]
    {
      if k > 0 {
        assert Broadcast(qIn[k - 1], k) == Ok(rows[k - 1]);
        assert RowPrefix(q, k, order) == TableRow(qIn, k, order);
        SumZeroSuffix(TableRow(qIn, k, order), k);
        assert TableRow(qIn, k, order)[..k] == rows[k - 1];
      } else {
        assert RowPrefix(q, k, order) == TableRow(qIn, k, order);
      }
    }
    assert qs == table.q && p[..] == table.p;
  }

  /** `q_values[i, :i] = row`, then `p_values[i] = q_values[i].sum()` on a zero row. */
  method StoreRow(q: array2<real>, p: array<real>, i: int, row: seq<real>)
    requires 0 <= i < q.Length0 == p.Length && |row| == i && i <= q.Length1
    requires forall j :: 0 <= j < q.Length1 ==> q[i, j] == 0.0
    modifies q, p
    ensures forall k, j :: 0 <= k < q.Length0 && 0 <= j < q.Length1 ==>
      q[k, j] == if k == i && j < i then row[j] else old(q[k, j])
    ensures forall k :: 0 <= k < p.Length ==> p[k] == if k == i then Sum(row) else old(p[k])
  {
    FillRow(q, i, row);
    var s := RowSum(q, i);
    FilledRowSum(q, i, row);
    p[i] := s;
  }

  /** `q_values[i, :i] = row`. */
  method FillRow(q: array2<real>, i: int, row: seq<real>)
    requires 0 <= i < q.Length0 && |row| == i && i <= q.Length1
    modifies q
    ensures forall k, j :: 0 <= k < q.Length0 && 0 <= j < q.Length1 ==>
      q[k, j] == if k == i && j < i then row[j] else old(q[k, j])
  {
    var j := 0;
    while j < i
      invariant 0 <= j <= i
      invariant forall k, c :: 0 <= k < q.Length0 && 0 <= c < q.Length1 ==>
        q[k, c] == if k == i && c < j then row[c] else old(q[k, c])
    {
      q[i, j] := row[j];
      j := j + 1;
    }
  }

  /** The first `n` entries of row `i` of `q`. */
  function RowPrefix(q: array2<real>, i: int, n: int): (row: seq<real>)
    requires 0 <= i < q.Length0 && 0 <= n <= q.Length1
    reads q
    ensures |row| == n && forall j :: 0 <= j < n ==> row[j] == q[i, j]
  {
    if n == 0 then [] else RowPrefix(q, i, n - 1) + [q[i, n - 1]]
  }

  /** A row holding `row` and then zeros sums to the sum of `row`. */
  lemma FilledRowSum(q: array2<real>, i: int, row: seq<real>)
    requires 0 <= i < q.Length0 && |row| == i <= q.Length1
    requires forall j :: 0 <= j < q.Length1 ==> q[i, j] == if j < i then row[j] else 0.0
    ensures Sum(RowPrefix(q, i, q.Length1)) == Sum(row)
  {
    SumZeroSuffix(RowPrefix(q, i, q.Length1), i);
    assert RowPrefix(q, i, q.Length1)[..i] == row;
  }

  /** The first `n` rows of `q`. */
  function ArrayRows(q: array2<real>, n: int): (rows: seq<seq<real>>)
    requires 0 <= n <= q.Length0
    reads q
    ensures |rows| == n && forall k :: 0 <= k < n ==> rows[k] == RowPrefix(q, k, q.Length1)
  {
    if n == 0 then [] else ArrayRows(q, n - 1) + [RowPrefix(q, n - 1, q.Length1)]
  }

  /** `q_values[i].sum()`. */
  method RowSum(q: array2<real>, i: int) returns (s: real)
    requires 0 <= i < q.Length0
    ensures s == Sum(RowPrefix(q, i, q.Length1))
  {
    s := 0.0;
    var j := 0;
    while j < q.Length1
      invariant 0 <= j <= q.Length1
      invariant s == Sum(RowPrefix(q, i, j))
    {
      assert RowPrefix(q, i, j + 1)[..j] == RowPrefix(q, i, j);
      s := s + q[i, j];
      j := j + 1;
    }
  }

  /** The inputs of a named table. */
  datatype TableInput = TableInput(q: seq<seq<real>>, a: seq<real>)

  const Rk2Ralston: TableInput := TableInput([[2.0 / 3.0]], [1.0 / 4.0, 3.0 / 4.0])
  const Rk2Heun: TableInput := TableInput([[1.0]], [1.0 / 2.0, 1.0 / 2.0])
  const Rk2MidPoint: TableInput := TableInput([[1.0 / 2.0]], [0.0, 1.0])
  const Rk4ThreeEighths: TableInput := TableInput([[1.0 / 3.0], [-1.0 / 3.0, 1.0], [1.0, -1.0, 1.0]],
                                                 [1.0 / 8.0, 3.0 / 8.0, 3.0 / 8.0, 1.0 / 8.0])
  const Rk4Classic: TableInput := TableInput([[1.0 / 2.0], [0.0, 1.0 / 2.0], [0.0, 0.0, 1.0]],
                                            [1.0 / 6.0, 1.0 / 3.0, 1.0 / 3.0, 1.0 / 6.0])

  /** The sum of `c[j] * d[j]` over `j < n`. */
  function Dot(c: seq<real>, d: seq<real>, n: nat): real
    requires n <= |c| && n <= |d|
  {
    if n == 0 then 0.0 else Dot(c, d, n - 1) + c[n - 1] * d[n - 1]
  }

  /** The order conditions met by the two-stage tables: `sum a = 1` and `sum a p = 1/2`. */
  predicate SecondOrder(t: Table)
    requires WellFormed(t)
  {
    Sum(t.a) == 1.0 && Dot(t.a, t.p, t.order) == 1.0 / 2.0
  }

  /** `sum a p^2 = 1/3`, `sum a p^3 = 1/4` and `sum_i a_i sum_j q_ij p_j = 1/6`, met by the four-stage tables. */
  predicate FourthOrderConditions(t: Table)
    requires WellFormed(t)
  {
    Dot(t.a, PSquared(t), t.order) == 1.0 / 3.0 && Dot(t.a, PCubed(t), t.order) == 1.0 / 4.0 &&
    Dot(t.a, QDotP(t), t.order) == 1.0 / 6.0
  }

  function PSquared(t: Table): seq<real>
    requires WellFormed(t)
  {
    seq(t.order, i requires 0 <= i < t.order => t.p[i] * t.p[i])
  }

  function PCubed(t: Table): seq<real>
    requires WellFormed(t)
  {
    seq(t.order, i requires 0 <= i < t.order => t.p[i] * t.p[i] * t.p[i])
  }

  /** Row i of the table dotted with `p`. */
  function QDotP(t: Table): seq<real>
    requires WellFormed(t)
  {
    seq(t.order, i requires 0 <= i < t.order => Dot(t.q[i], t.p, t.order))
  }

  lemma {:induction false} Rk2Tables()
    ensures BuildTable(Rk2Ralston.q, Rk2Ralston.a).Ok? && WellFormed(BuildTable(Rk2Ralston.q, Rk2Ralston.a).value)
    ensures SecondOrder(BuildTable(Rk2Ralston.q, Rk2Ralston.a).value)
    ensures BuildTable(Rk2Heun.q, Rk2Heun.a).Ok? && WellFormed(BuildTable(Rk2Heun.q, Rk2Heun.a).value)
    ensures SecondOrder(BuildTable(Rk2Heun.q, Rk2Heun.a).value)
    ensures BuildTable(Rk2MidPoint.q, Rk2MidPoint.a).Ok? && WellFormed(BuildTable(Rk2MidPoint.q, Rk2MidPoint.a).value)
    ensures SecondOrder(BuildTable(Rk2MidPoint.q, Rk2MidPoint.a).value)
  {
    TwoStage(Rk2Ralston);
    TwoStage(Rk2Heun);
    TwoStage(Rk2MidPoint);
  }

  lemma TwoStage(input: TableInput)
    requires |input.q| == 1 && |input.q[0]| == 1 && |input.a| == 2
    requires input.a[0] + input.a[1] == 1.0 && input.a[1] * input.q[0][0] == 1.0 / 2.0
    ensures BuildTable(input.q, input.a).Ok? && WellFormed(BuildTable(input.q, input.a).value)
    ensures SecondOrder(BuildTable(input.q, input.a).value)
  {
    assert RowsFit(input.q) by {
      assert Broadcast(input.q[0], 1).Ok?;
    }
    var t := BuildTable(input.q, input.a).value;
    var row := TableRow(input.q, 1, 2);
    assert row == [input.q[0][0], 0.0];
    SumSmall(row);
    assert row[..|row|] == row;
    assert t.p == [0.0, input.q[0][0]];
    SumSmall(t.a);
    assert t.a[..|t.a|] == t.a;
    assert Dot(t.a, t.p, 1) == t.a[0] * t.p[0];
  }

  /** Both four-stage tables meet the order conditions above. */
  lemma {:induction false} Rk4Tables()
    ensures BuildTable(Rk4ThreeEighths.q, Rk4ThreeEighths.a).Ok?
    ensures WellFormed(BuildTable(Rk4ThreeEighths.q, Rk4ThreeEighths.a).value)
    ensures SecondOrder(BuildTable(Rk4ThreeEighths.q, Rk4ThreeEighths.a).value)
    ensures FourthOrderConditions(BuildTable(Rk4ThreeEighths.q, Rk4ThreeEighths.a).value)
    ensures BuildTable(Rk4Classic.q, Rk4Classic.a).Ok?
    ensures WellFormed(BuildTable(Rk4Classic.q, Rk4Classic.a).value)
    ensures SecondOrder(BuildTable(Rk4Classic.q, Rk4Classic.a).value)
    ensures FourthOrderConditions(BuildTable(Rk4Classic.q, Rk4Classic.a).value)
  {
    FourStage(Rk4ThreeEighths);
    FourStage(Rk4Classic);
  }

  /** The order conditions of a four-stage table, written out on its weights `a` and nodes `c`. */
  predicate FourStageConditions(q: seq<seq<real>>, a: seq<real>)
    requires |q| == 3 && |a| == 4 && forall i :: 0 <= i < 3 ==> |q[i]| == i + 1
  {
    var c := FourNodes(q);
    a[0] + a[1] + a[2] + a[3] == 1.0 && NodeCondition(a, c) && SquareCondition(a, c) && CubeCondition(a, c) &&
    TreeCondition(a, c, q[1][1], q[2][1], q[2][2])
  }

  /** `sum a c = 1/2` (the first node is 0). */
  predicate NodeCondition(a: seq<real>, c: seq<real>)
    requires |a| == 4 && |c| == 4
  {
    a[1] * c[1] + a[2] * c[2] + a[3] * c[3] == 1.0 / 2.0
  }

  /** `sum a c^2 = 1/3`. */
  predicate SquareCondition(a: seq<real>, c: seq<real>)
    requires |a| == 4 && |c| == 4
  {
    a[1] * (c[1] * c[1]) + a[2] * (c[2] * c[2]) + a[3] * (c[3] * c[3]) == 1.0 / 3.0
  }

  /** `sum a c^3 = 1/4`. */
  predicate CubeCondition(a: seq<real>, c: seq<real>)
    requires |a| == 4 && |c| == 4
  {
    a[1] * (c[1] * c[1] * c[1]) + a[2] * (c[2] * c[2] * c[2]) + a[3] * (c[3] * c[3] * c[3]) == 1.0 / 4.0
  }

  /** `sum a (q c) = 1/6`, with the strictly lower rows' entries q21, q31 and q32. */
  predicate TreeCondition(a: seq<real>, c: seq<real>, q21: real, q31: real, q32: real)
    requires |a| == 4 && |c| == 4
  {
    a[2] * (q21 * c[1]) + a[3] * (q31 * c[1] + q32 * c[2]) == 1.0 / 6.0
  }

  /** The stage nodes `p` of a four-stage table: the row sums of `q`. */
  function FourNodes(q: seq<seq<real>>): seq<real>
    requires |q| == 3 && forall i :: 0 <= i < 3 ==> |q[i]| == i + 1
  {
    [0.0, q[0][0], q[1][0] + q[1][1], q[2][0] + q[2][1] + q[2][2]]
  }

  /** A four-stage table built from full input rows, with its `p` values written out. */
  lemma FourStage(input: TableInput)
    requires |input.q| == 3 && |input.a| == 4 && forall i :: 0 <= i < 3 ==> |input.q[i]| == i + 1
    requires FourStageConditions(input.q, input.a)
    ensures BuildTable(input.q, input.a).Ok? && WellFormed(BuildTable(input.q, input.a).value)
    ensures SecondOrder(BuildTable(input.q, input.a).value)
    ensures FourthOrderConditions(BuildTable(input.q, input.a).value)
  {
    FourTable(input.q, input.a);
    FourOrder(BuildTable(input.q, input.a).value, input.q, input.a);
  }

  /** A four-stage table with the rows and `p` values `BuildTable` gives meets the conditions. */
  lemma FourOrder(t: Table, q: seq<seq<real>>, a: seq<real>)
    requires |q| == 3 && |a| == 4 && forall i :: 0 <= i < 3 ==> |q[i]| == i + 1
    requires FourStageConditions(q, a) && WellFormed(t)
    requires t.a == a && t.order == 4
    requires t.q == [[0.0, 0.0, 0.0, 0.0], [q[0][0], 0.0, 0.0, 0.0], [q[1][0], q[1][1], 0.0, 0.0], [q[2][0], q[2][1], q[2][2], 0.0]]
    requires t.p == [0.0, q[0][0], q[1][0] + q[1][1], q[2][0] + q[2][1] + q[2][2]]
    ensures SecondOrder(t) && FourthOrderConditions(t)
  {
    assert t.p == FourNodes(q);
    assert t.q[2][1] == q[1][1] && t.q[3][1] == q[2][1] && t.q[3][2] == q[2][2];
    FourOrderLinear(t);
    FourOrderPowers(t);
    FourOrderTree(t);
  }

  lemma FourOrderLinear(t: Table)
    requires WellFormed(t) && t.order == 4 && t.p[0] == 0.0
    requires t.a[0] + t.a[1] + t.a[2] + t.a[3] == 1.0 && NodeCondition(t.a, t.p)
    ensures SecondOrder(t)
  {
    SumSmall(t.a);
    assert t.a[..|t.a|] == t.a;
    Dot4(t.a, t.p);
  }

  lemma FourOrderPowers(t: Table)
    requires WellFormed(t) && t.order == 4 && t.p[0] == 0.0
    requires SquareCondition(t.a, t.p) && CubeCondition(t.a, t.p)
    ensures Dot(t.a, PSquared(t), t.order) == 1.0 / 3.0 && Dot(t.a, PCubed(t), t.order) == 1.0 / 4.0
  {
    Dot4(t.a, PSquared(t));
    Dot4(t.a, PCubed(t));
  }

  lemma FourOrderTree(t: Table)
    requires WellFormed(t) && t.order == 4
    requires t.q[0] == [0.0, 0.0, 0.0, 0.0] && t.q[1][1..] == [0.0, 0.0, 0.0]
    requires t.q[2][2..] == [0.0, 0.0] && t.q[3][3] == 0.0 && t.p[0] == 0.0
    requires TreeCondition(t.a, t.p, t.q[2][1], t.q[3][1], t.q[3][2])
    ensures Dot(t.a, QDotP(t), t.order) == 1.0 / 6.0
  {
    var c := t.p;
    var qp := QDotP(t);
    Dot4(t.q[0], c);
    Dot4(t.q[1], c);
    Dot4(t.q[2], c);
    Dot4(t.q[3], c);
    assert t.q[1][1] == 0.0 && t.q[1][2] == 0.0 && t.q[1][3] == 0.0 && t.q[2][2] == 0.0 && t.q[2][3] == 0.0;
    assert qp[0] == 0.0 && qp[1] == 0.0;
    assert qp[2] == t.q[2][1] * c[1] && qp[3] == t.q[3][1] * c[1] + t.q[3][2] * c[2];
    Dot4(t.a, qp);
    assert t.a[0] * qp[0] == 0.0 && t.a[1] * qp[1] == 0.0;
  }

  /** The rows and `p` values of a table built from three full input rows. */
  lemma FourTable(q: seq<seq<real>>, a: seq<real>)
    requires |q| == 3 && |a| == 4 && forall i :: 0 <= i < 3 ==> |q[i]| == i + 1
    ensures BuildTable(q, a).Ok? && WellFormed(BuildTable(q, a).value)
    ensures var t := BuildTable(q, a).value;
      t.a == a && t.order == 4 &&
      t.q == [[0.0, 0.0, 0.0, 0.0], [q[0][0], 0.0, 0.0, 0.0], [q[1][0], q[1][1], 0.0, 0.0], [q[2][0], q[2][1], q[2][2], 0.0]] &&
      t.p == [0.0, q[0][0], q[1][0] + q[1][1], q[2][0] + q[2][1] + q[2][2]]
  {
    assert RowsFit(q) by {
      forall i | 0 <= i < 3
        ensures Broadcast(q[i], i + 1).Ok?
      {
      }
    }
    var t := BuildTable(q, a).value;
    forall i | 1 <= i < 4
      ensures t.p[i] == Sum(q[i - 1])
    {
      var row := TableRow(q, i, 4);
      SumZeroSuffix(row, i);
      assert row[..i] == q[i - 1];
    }
    SumSmall(q[0]);
    assert q[0][..|q[0]|] == q[0];
    SumSmall(q[1]);
    assert q[1][..|q[1]|] == q[1];
    SumSmall(q[2]);
    assert q[2][..|q[2]|] == q[2];
    assert t.q[0] == [0.0, 0.0, 0.0, 0.0];
    assert t.q[1] == [q[0][0], 0.0, 0.0, 0.0];
    assert t.q[2] == [q[1][0], q[1][1], 0.0, 0.0];
    assert t.q[3] == [q[2][0], q[2][1], q[2][2], 0.0];
  }

  /** The sum of a prefix is the sum of the shorter prefix plus its last entry. */
  lemma SumPrefix(r: seq<real>, n: int)
    requires 1 <= n <= |r|
    ensures Sum(r[..n]) == Sum(r[..n - 1]) + r[n - 1]
  {
    assert r[..n][..n - 1] == r[..n - 1];
  }

  /** Sums of up to four entries, written out. */
  lemma SumSmall(r: seq<real>)
    requires 1 <= |r| <= 4
    ensures Sum(r[..1]) == r[0]
    ensures |r| >= 2 ==> Sum(r[..2]) == r[0] + r[1]
    ensures |r| >= 3 ==> Sum(r[..3]) == r[0] + r[1] + r[2]
    ensures |r| == 4 ==> Sum(r[..4]) == r[0] + r[1] + r[2] + r[3]
  {
    SumPrefix(r, 1);
    assert r[..0] == [];
    if |r| >= 2 {
      SumPrefix(r, 2);
    }
    if |r| >= 3 {
      SumPrefix(r, 3);
    }
    if |r| == 4 {
      SumPrefix(r, 4);
    }
  }

  /** A dot product of four entries, written out. */
  lemma Dot4(c: seq<real>, d: seq<real>)
    requires |c| >= 4 && |d| >= 4
    ensures Dot(c, d, 4) == c[0] * d[0] + c[1] * d[1] + c[2] * d[2] + c[3] * d[3]
  {
    assert Dot(c, d, 1) == c[0] * d[0];
    assert Dot(c, d, 2) == Dot(c, d, 1) + c[1] * d[1];
    assert Dot(c, d, 3) == Dot(c, d, 2) + c[2] * d[2];
  }

  /** The derivative function keeps the dimension `n` of the state. */
  ghost predicate KeepsDim(f: (Vec, real) -> Vec, n: nat)
  {
    forall v, tm :: |v| == n ==> |f(v, tm)| == n
  }

  function AddV(x: Vec, y: Vec): (r: Vec)
    requires |x| == |y|
    ensures |r| == |x|
  {
    seq(|x|, m requires 0 <= m < |x| => x[m] + y[m])
  }

  function ScaleV(c: real, x: Vec): (r: Vec)
    ensures |r| == |x|
  {
    seq(|x|, m requires 0 <= m < |x| => x[m] * c)
  }

  /** Component `m` of `sum_{j < n} c[j] k_j`. */
  function Weighted(ks: seq<Vec>, c: seq<real>, n: nat, m: nat): real
    requires n <= |ks| && n <= |c| && forall j :: 0 <= j < n ==> m < |ks[j]|
  {
    if n == 0 then 0.0 else Weighted(ks, c, n - 1, m) + ks[n - 1][m] * c[n - 1]
  }

  /** `k_matrix[:, :n].dot(c[:n])`. */
  function Combo(ks: seq<Vec>, c: seq<real>, n: nat, dim: nat): (r: Vec)
    requires n <= |ks| && n <= |c| && forall j :: 0 <= j < n ==> |ks[j]| == dim
    ensures |r| == dim
  {
    seq(dim, m requires 0 <= m < dim => Weighted(ks, c, n, m))
  }

  /**
   * The first `n` stages at `(x, time)`: `k_0 = f(x, time)` and
   * `k_i = f(x + dt * sum_{j<i} q_ij k_j, time + p_i dt)`.
   */
  function Stages(t: Table, f: (Vec, real) -> Vec, x: Vec, time: real, dt: real, n: nat): (ks: seq<Vec>)
    requires WellFormed(t) && KeepsDim(f, |x|) && n <= t.order
    ensures |ks| == n && forall j :: 0 <= j < n ==> |ks[j]| == |x|
  {
    if n == 0 then []
    else
      var prev := Stages(t, f, x, time, dt, n - 1);
      if n == 1 then [f(x, time)] else prev + [StageAt(t, f, x, time, dt, prev, n - 1)]
  }

  /** Stage `i` from the stages before it: `f(x + dt * sum_{j<i} q_ij k_j, time + p_i dt)`. */
  function StageAt(t: Table, f: (Vec, real) -> Vec, x: Vec, time: real, dt: real, prev: seq<Vec>, i: nat): Vec
    requires WellFormed(t) && 1 <= i < t.order && |prev| == i && forall j :: 0 <= j < i ==> |prev[j]| == |x|
  {
    f(AddV(x, ScaleV(dt, Combo(prev, t.q[i], i, |x|))), StageTime(t, i, time, dt))
  }

  /** The time of stage `i`: `time + p_i dt`. */
  function StageTime(t: Table, i: int, time: real, dt: real): real
    requires 0 <= i < |t.p|
  {
    time + t.p[i] * dt
  }

  /** One step: `x + dt * sum_i a_i k_i`. */
  function RkStep(t: Table, f: (Vec, real) -> Vec, x: Vec, time: real, dt: real): (next: Vec)
    requires WellFormed(t) && KeepsDim(f, |x|)
    ensures |next| == |x|
  {
    var ks := Stages(t, f, x, time, dt, t.order);
    AddV(x, ScaleV(dt, Combo(ks, t.a, t.order, |x|)))
  }

  /** The stage loop: `k_matrix[:, i]` for `i` in order. */
  method ComputeStages(t: Table, f: (Vec, real) -> Vec, x: Vec, time: real, dt: real) returns (ks: seq<Vec>)
    requires WellFormed(t) && KeepsDim(f, |x|)
    ensures ks == Stages(t, f, x, time, dt, t.order)
  {
    ks := [f(x, time)];
    var i := 1;
    while i < t.order
      invariant 1 <= i <= t.order && ks == Stages(t, f, x, time, dt, i)
    {
      var kAverage := Combo(ks, t.q[i], i, |x|);
      var y := AddV(x, ScaleV(dt, kAverage));
      var tm := time + t.p[i] * dt;
      var k := f(y, tm);
      assert tm == StageTime(t, i, time, dt);
      ks := ks + [k];
      i := i + 1;
    }
  }

  /**
   * With a constant derivative `c`, every stage is `c` and a table whose
   * weights sum to one advances the state by exactly `dt * c`.
   */
  lemma {:induction false} ConstantRate(t: Table, f: (Vec, real) -> Vec, x: Vec, c: Vec, time: real, dt: real)
    requires WellFormed(t) && KeepsDim(f, |x|) && |c| == |x| && Sum(t.a) == 1.0
    requires forall v, tm :: |v| == |x| ==> f(v, tm) == c
    ensures forall m :: 0 <= m < |x| ==> RkStep(t, f, x, time, dt)[m] == x[m] + dt * c[m]
  {
    var ks := Stages(t, f, x, time, dt, t.order);
    StagesConstant(t, f, x, c, time, dt, t.order);
    forall m | 0 <= m < |x|
      ensures RkStep(t, f, x, time, dt)[m] == x[m] + dt * c[m]
    {
      WeightedConstant(ks, t.a, t.order, m, c[m]);
      assert t.a[..t.order] == t.a;
      var w := Weighted(ks, t.a, t.order, m);
      assert w == c[m] * 1.0;
      assert Combo(ks, t.a, t.order, |x|)[m] == w;
    }
  }

  lemma {:induction false} StagesConstant(t: Table, f: (Vec, real) -> Vec, x: Vec, c: Vec, time: real, dt: real, n: nat)
    requires WellFormed(t) && KeepsDim(f, |x|) && n <= t.order && |c| == |x|
    requires forall v, tm :: |v| == |x| ==> f(v, tm) == c
    ensures forall j :: 0 <= j < n ==> Stages(t, f, x, time, dt, n)[j] == c
  {
    if n > 0 {
      StagesConstant(t, f, x, c, time, dt, n - 1);
    }
  }

  lemma {:induction false} WeightedConstant(ks: seq<Vec>, a: seq<real>, n: nat, m: nat, v: real)
    requires n <= |ks| && n <= |a| && forall j :: 0 <= j < n ==> m < |ks[j]| && ks[j][m] == v
    ensures Weighted(ks, a, n, m) == v * Sum(a[..n])
  {
    if n > 0 {
      WeightedConstant(ks, a, n - 1, m, v);
      assert a[..n][..n - 1] == a[..n - 1];
    }
  }

  /**
   * `rk_geral`: from `t = 0`, steps of `dt` are appended while the last time
   * is below `tf`; each state is one step from the one before. With `tf <= 0`
   * no step is taken, whatever `dt` is.
   */
  method RkGeral(x0: Vec, f: (Vec, real) -> Vec, tf: real, dt: real, t: Table) returns (xs: seq<Vec>, ts: seq<real>)
    requires dt > 0.0 || tf <= 0.0
    requires WellFormed(t) && KeepsDim(f, |x0|)
    ensures |xs| == |ts| >= 1 && xs[0] == x0 && ts[0] == 0.0
    ensures tf <= 0.0 ==> xs == [x0] && ts == [0.0]
    ensures forall k :: 0 <= k < |ts| ==> ts[k] == k as real * dt && |xs[k]| == |x0|
    ensures forall k :: 0 <= k < |ts| - 1 ==> ts[k] < tf && xs[k + 1] == RkStep(t, f, xs[k], ts[k], dt)
    ensures ts[|ts| - 1] >= tf
  {
    xs, ts := [x0], [0.0];
    while ts[|ts| - 1] < tf
      invariant Trajectory(x0, f, tf, dt, t, xs, ts)
      invariant tf <= 0.0 ==> |ts| == 1
      decreases if dt > 0.0 then (tf / dt).Floor + 1 - |ts| else 0
    {
      var n := |ts| - 1;
      var x := xs[n];
      var time := ts[n];
      LoopBound(n, dt, tf);
      var ks := ComputeStages(t, f, x, time, dt);
      var next := AddV(x, ScaleV(dt, Combo(ks, t.a, t.order, |x|)));
      TrajectoryStep(x0, f, tf, dt, t, xs, ts, next);
      xs := xs + [next];
      ts := ts + [time + dt];
    }
  }

  /** The states and times of `rk_geral` so far: each state one step from the one before. */
  ghost predicate Trajectory(x0: Vec, f: (Vec, real) -> Vec, tf: real, dt: real, t: Table, xs: seq<Vec>, ts: seq<real>)
    requires WellFormed(t) && KeepsDim(f, |x0|)
  {
    |xs| == |ts| >= 1 && xs[0] == x0 && ts[0] == 0.0 &&
    (forall k :: 0 <= k < |ts| ==> ts[k] == k as real * dt && |xs[k]| == |x0|) &&
    forall k :: 0 <= k < |ts| - 1 ==> ts[k] < tf && xs[k + 1] == RkStep(t, f, xs[k], ts[k], dt)
  }

  lemma TrajectoryStep(x0: Vec, f: (Vec, real) -> Vec, tf: real, dt: real, t: Table, xs: seq<Vec>, ts: seq<real>, next: Vec)
    requires WellFormed(t) && KeepsDim(f, |x0|) && Trajectory(x0, f, tf, dt, t, xs, ts)
    requires ts[|ts| - 1] < tf && next == RkStep(t, f, xs[|xs| - 1], ts[|ts| - 1], dt)
    ensures Trajectory(x0, f, tf, dt, t, xs + [next], ts + [ts[|ts| - 1] + dt])
  {
    var n := |ts| - 1;
    var xs', ts' := xs + [next], ts + [ts[n] + dt];
    forall k | 0 <= k < |ts'|
      ensures ts'[k] == k as real * dt && |xs'[k]| == |x0|
    {
      if k == n + 1 {
        assert ts'[k] == n as real * dt + dt;
        assert (n + 1) as real * dt == n as real * dt + dt;
      } else {
        assert ts'[k] == ts[k] && xs'[k] == xs[k];
      }
    }
    forall k | 0 <= k < |ts'| - 1
      ensures ts'[k] < tf && xs'[k + 1] == RkStep(t, f, xs'[k], ts'[k], dt)
    {
      if k < n {
        assert ts'[k] == ts[k] && xs'[k] == xs[k] && xs'[k + 1] == xs[k + 1];
      } else {
        assert ts'[k] == ts[n] && xs'[k] == xs[n] && xs'[k + 1] == next;
      }
    }
  }

  lemma LoopBound(n: int, dt: real, tf: real)
    requires n >= 0 && dt > 0.0 && n as real * dt < tf
    ensures n <= (tf / dt).Floor
  {
    assert n as real < tf / dt;
  }

  /** `RkSolver`: the state array (shared with the caller), the stage buffer, the step and the time. */
  class RkSolver {
    const table: Table
    const dt: real
    const x: array<real>
    const kMatrix: array2<real>
    var time: real

    predicate Valid()
      reads this
    {
      WellFormed(table) && kMatrix.Length0 == x.Length && kMatrix.Length1 == table.order
    }

    /** Stores `x0` itself, `time = 0` and a zero `k_matrix` of shape `(x.size, order)`. */
    constructor (x0: array<real>, dt: real, table: Table)
      requires WellFormed(table)
      ensures Valid() && this.x == x0 && this.dt == dt && this.table == table && time == 0.0
      ensures fresh(kMatrix) && kMatrix.Length0 == x0.Length && kMatrix.Length1 == table.order
      ensures forall r, c :: 0 <= r < kMatrix.Length0 && 0 <= c < kMatrix.Length1 ==> kMatrix[r, c] == 0.0
    {
      this.table, this.dt, this.x := table, dt, x0;
      time := 0.0;
      kMatrix := new real[x0.Length, table.order]((_, _) => 0.0);
    }

    /**
     * `update`: the stages are stored in `k_matrix`, the state array is
     * advanced in place by one step, and the time by exactly `dt`.
     */
    method Update(f: (Vec, real) -> Vec)
      requires Valid() && KeepsDim(f, x.Length)
      modifies x, kMatrix, this`time
      ensures time == old(time) + dt
      ensures x[..] == RkStep(table, f, old(x[..]), old(time), dt)
      ensures var ks := Stages(table, f, old(x[..]), old(time), dt, table.order);
        forall r, c :: 0 <= r < kMatrix.Length0 && 0 <= c < kMatrix.Length1 ==> kMatrix[r, c] == ks[c][r]
    {
      var x0 := x[..];
      var ks := ComputeStages(table, f, x0, time, dt);
      StoreStages(ks);
      var delta := ScaleV(dt, Combo(ks, table.a, table.order, x.Length));
      var m := 0;
      while m < x.Length
        invariant 0 <= m <= x.Length && time == old(time)
        invariant forall q :: 0 <= q < x.Length ==> x[q] == if q < m then x0[q] + delta[q] else x0[q]
        invariant forall r, c :: 0 <= r < kMatrix.Length0 && 0 <= c < kMatrix.Length1 ==> kMatrix[r, c] == ks[c][r]
      {
        x[m] := x[m] + delta[m];
        m := m + 1;
      }
      assert x[..] == AddV(x0, delta);

      time := time + dt;
    }

    /** `k_matrix[:, i] = k_i` for every stage. */
    method StoreStages(ks: seq<Vec>)
      requires Valid() && |ks| == table.order && forall c :: 0 <= c < |ks| ==> |ks[c]| == x.Length
      modifies kMatrix
      ensures forall r, c :: 0 <= r < kMatrix.Length0 && 0 <= c < kMatrix.Length1 ==> kMatrix[r, c] == ks[c][r]
    {
      var c := 0;
      while c < kMatrix.Length1
        invariant 0 <= c <= kMatrix.Length1
        invariant forall r, d :: 0 <= r < kMatrix.Length0 && 0 <= d < c ==> kMatrix[r, d] == ks[d][r]
      {
        var r := 0;
        while r < kMatrix.Length0
          invariant 0 <= r <= kMatrix.Length0
          invariant forall q, d :: 0 <= q < kMatrix.Length0 && 0 <= d < c ==> kMatrix[q, d] == ks[d][q]
          invariant forall q :: 0 <= q < r ==> kMatrix[q, c] == ks[c][q]
        {
          kMatrix[r, c] := ks[c][r];
          r := r + 1;
        }
        c := c + 1;
      }
    }
  }

  /** The solver's time after `n` updates is `n * dt`. */
  lemma {:induction false} TimeAfterUpdates(dt: real, n: nat, times: seq<real>)
    requires |times| == n + 1 && times[0] == 0.0
    requires forall k :: 0 <= k < n ==> times[k + 1] == times[k] + dt
    ensures times[n] == n as real * dt
  {
    if n > 0 {
      TimeAfterUpdates(dt, n - 1, times[..n]);
    }
  }
}
