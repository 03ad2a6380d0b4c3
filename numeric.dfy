/** Numeric conventions of the modelled C++ and Python code, stated over `real`. */
module Numeric {

  /** C++ `(int)` cast and numpy `astype(int)`: truncation toward zero. */
  function Trunc(x: real): (t: int)
    ensures x >= 0.0 ==> 0 <= t && t as real <= x < t as real + 1.0
    ensures x < 0.0 ==> t <= 0 && t as real - 1.0 < x <= t as real
  {
    if x >= 0.0 then x.Floor else -((-x).Floor)
  }

  /** Python's built-in `round` on a float: nearest integer, ties to even. */
  function RoundHalfEven(x: real): (r: int)
    ensures x - 0.5 <= r as real <= x + 0.5
    ensures (r as real - x == 0.5 || x - r as real == 0.5) ==> r % 2 == 0
  {
    var f := x.Floor;
    var d := x - f as real;
    if d < 0.5 then f
    else if d > 0.5 then f + 1
    else if f % 2 == 0 then f
    else f + 1
  }

  /** Sum of a sequence of reals, folded from the left. */
  function Sum(s: seq<real>): real
  {
    if s == [] then 0.0 else Sum(s[..|s| - 1]) + s[|s| - 1]
  }

  lemma {:induction false} SumAppend(s: seq<real>, t: seq<real>)
    ensures Sum(s + t) == Sum(s) + Sum(t)
  {
    if t == [] {
      assert s + t == s;
    } else {
      var n := |t| - 1;
      assert (s + t)[..|s + t| - 1] == s + t[..n];
      SumAppend(s, t[..n]);
    }
  }

  lemma SumSingleton(x: real)
    ensures Sum([x]) == x
  {
    assert [x][..0] == [];
  }

  /** Sum of a sequence of integers. */
  function SumInt(s: seq<int>): int
  {
    if s == [] then 0 else SumInt(s[..|s| - 1]) + s[|s| - 1]
  }

  lemma {:induction false} SumIntUpdate(s: seq<int>, k: int, v: int)
    requires 0 <= k < |s|
    ensures SumInt(s[k := v]) == SumInt(s) - s[k] + v
  {
    var n := |s| - 1;
    if k < n {
      assert s[k := v][..n] == s[..n][k := v];
      SumIntUpdate(s[..n], k, v);
    } else {
      assert s[k := v][..n] == s[..n];
    }
  }

  /** The largest element (`std::max_element`, `max`) of a non-empty sequence. */
  function SeqMax(s: seq<int>): (m: int)
    requires |s| > 0
    ensures m in s && forall k :: 0 <= k < |s| ==> s[k] <= m
  {
    if |s| == 1 then s[0]
    else
      var r := SeqMax(s[..|s| - 1]);
      assert forall k :: 0 <= k < |s| - 1 ==> s[..|s| - 1][k] == s[k];
      if s[|s| - 1] > r then s[|s| - 1] else r
  }

  /** Number of true entries. */
  function CountTrue(s: seq<bool>): nat
  {
    if s == [] then 0 else CountTrue(s[..|s| - 1]) + (if s[|s| - 1] then 1 else 0)
  }

  lemma {:induction false} CountTrueSnoc(s: seq<bool>, b: bool)
    ensures CountTrue(s + [b]) == CountTrue(s) + (if b then 1 else 0)
  {
    assert (s + [b])[..|s|] == s;
  }

  function Min(a: int, b: int): int
  {
    if a <= b then a else b
  }

  /** A 2-D position or vector (`std::array<double, 2>`). */
  type Point = (real, real)

  function Add(a: Point, b: Point): Point { (a.0 + b.0, a.1 + b.1) }
  function Sub(a: Point, b: Point): Point { (a.0 - b.0, a.1 - b.1) }
  function Neg(a: Point): Point { (-a.0, -a.1) }
  function Scale(c: real, a: Point): Point { (c * a.0, c * a.1) }
  /** `cross_prod`: the z component of a x b. */
  function Cross(a: Point, b: Point): real { a.0 * b.1 - a.1 * b.0 }
  function SqNorm(a: Point): real { a.0 * a.0 + a.1 * a.1 }

  function AbsR(x: real): real { if x < 0.0 then -x else x }

  // Integer division lemmas (Euclidean `/` and `%` with a positive divisor).

  lemma MulSmall(k: int, d: int)
    requires k >= 1 && -k < k * d < k
    ensures d == 0
  {
  }

  lemma MulSub(k: int, a: int, b: int)
    ensures k * (a - b) == k * a - b * k
  {
  }

  lemma MulSucc(j: int, k: int)
    ensures (j - 1) * k + k == j * k
  {
  }

  lemma MulMono(a: int, b: int, k: int)
    requires a <= b && k >= 0
    ensures a * k <= b * k
  {
  }

  lemma DivEq(x: int, k: int)
    requires k >= 1
    ensures x == k * (x / k) + x % k && 0 <= x % k < k
  {
  }

  /** Euclidean division is determined by quotient and remainder. */
  lemma DivUnique(x: int, k: int, q: int, rm: int)
    requires k >= 1 && x == q * k + rm && 0 <= rm < k
    ensures x / k == q && x % k == rm
  {
    var quot := x / k;
    DivEq(x, k);
    MulSub(k, quot, q);
    MulSmall(k, quot - q);
  }

  lemma DivStep(x: int, k: int)
    requires k >= 1 && x >= 0
    ensures (x + k) / k == x / k + 1
  {
    var q := x / k;
    var rm := x % k;
    DivEq(x, k);
    MulSucc(q + 1, k);
    DivUnique(x + k, k, q + 1, rm);
  }

  /** Counting modulo k: one more step wraps to 0 exactly after k - 1. */
  lemma ModStep(x: int, k: int)
    requires k >= 1 && x >= 0
    ensures (x + 1) % k == (if x % k + 1 == k then 0 else x % k + 1)
  {
    var q := x / k;
    DivEq(x, k);
    if x % k + 1 == k {
      MulSucc(q + 1, k);
      DivUnique(x + 1, k, q + 1, 0);
    } else {
      DivUnique(x + 1, k, q, x % k + 1);
    }
  }
}
