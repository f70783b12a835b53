/** Vectors of exact reals. */
module Vectors {

  type Vec = seq<real>

  function Total(v: Vec): real {
    if v == [] then 0.0 else v[0] + Total(v[1..])
  }

  function Times(a: real, b: real): real {
    a * b
  }

  function Zero(n: nat): (v: Vec)
    ensures |v| == n
  {
    seq(n, i => 0.0)
  }

  function Add(a: Vec, b: Vec): (v: Vec)
    requires |a| == |b|
    ensures |v| == |a|
  {
    seq(|a|, i requires 0 <= i < |a| => a[i] + b[i])
  }

  function Scale(k: real, a: Vec): (v: Vec)
    ensures |v| == |a|
  {
    seq(|a|, i requires 0 <= i < |a| => Times(k, a[i]))
  }

  function Sub(a: Vec, b: Vec): (v: Vec)
    requires |a| == |b|
    ensures |v| == |a|
  {
    seq(|a|, i requires 0 <= i < |a| => a[i] - b[i])
  }

  function NormSq(a: Vec): real {
    if a == [] then 0.0 else Times(a[0], a[0]) + NormSq(a[1..])
  }

  lemma {:induction false} NormSqNonNegative(a: Vec)
    ensures NormSq(a) >= 0.0
    decreases |a|
  {
    if a != [] {
      NormSqNonNegative(a[1..]);
    }
  }

  lemma {:induction false} TotalZero(n: nat)
    ensures Total(Zero(n)) == 0.0
    decreases n
  {
    if n > 0 {
      assert Zero(n)[1..] == Zero(n - 1);
      TotalZero(n - 1);
    }
  }

  lemma {:induction false} TotalAdd(a: Vec, b: Vec)
    requires |a| == |b|
    ensures Total(Add(a, b)) == Total(a) + Total(b)
    decreases |a|
  {
    if a != [] {
      assert Add(a, b)[1..] == Add(a[1..], b[1..]);
      TotalAdd(a[1..], b[1..]);
    }
  }

  lemma {:induction false} TotalSub(a: Vec, b: Vec)
    requires |a| == |b|
    ensures Total(Sub(a, b)) == Total(a) - Total(b)
    decreases |a|
  {
    if a != [] {
      assert Sub(a, b)[1..] == Sub(a[1..], b[1..]);
      TotalSub(a[1..], b[1..]);
    }
  }

  lemma {:induction false} TotalScale(k: real, a: Vec)
    ensures Total(Scale(k, a)) == Times(k, Total(a))
    decreases |a|
  {
    if a != [] {
      assert Scale(k, a)[1..] == Scale(k, a[1..]);
      TotalScale(k, a[1..]);
      Distribute(k, a[0], Total(a[1..]));
    }
  }

  lemma ScaleBalanced(k: real, a: Vec)
    requires Total(a) == 0.0
    ensures Total(Scale(k, a)) == 0.0
  {
    TotalScale(k, a);
  }

  lemma Distribute(k: real, x: real, y: real)
    ensures Times(k, x) + Times(k, y) == Times(k, x + y)
  {
  }

  // ---- matrices, as rows of equal length ----

  type Matrix = seq<Vec>

  ghost predicate Wide(m: Matrix, width: nat) {
    forall i | 0 <= i < |m| :: |m[i]| == width
  }

  /** The row vector `c` times the matrix: the rows added up with these coefficients. */
  function Combine(c: Vec, rows: Matrix, width: nat): (v: Vec)
    requires |c| == |rows| && Wide(rows, width)
    ensures |v| == width
  {
    if c == [] then Zero(width) else Add(Scale(c[0], rows[0]), Combine(c[1..], rows[1..], width))
  }

  ghost predicate RowsBalanced(m: Matrix) {
    forall i | 0 <= i < |m| :: Total(m[i]) == 0.0
  }

  /** Combining rows that each sum to zero sums to zero. */
  lemma {:induction false} CombineBalanced(c: Vec, rows: Matrix, width: nat)
    requires |c| == |rows| && Wide(rows, width) && RowsBalanced(rows)
    ensures Total(Combine(c, rows, width)) == 0.0
    decreases |c|
  {
    if c == [] {
      TotalZero(width);
    } else {
      CombineBalanced(c[1..], rows[1..], width);
      TotalScale(c[0], rows[0]);
      TotalAdd(Scale(c[0], rows[0]), Combine(c[1..], rows[1..], width));
    }
  }

  function Outer(m: Vec, lr: real, x: real, d: Vec): (r: Vec)
    requires |m| == |d|
    ensures |r| == |d|
  {
    Sub(m, Scale(lr, Scale(x, d)))
  }

  /** The matrix minus `lr` times the outer product of `x` and `d`. */
  function MinusOuter(m: Matrix, lr: real, x: Vec, d: Vec): (r: Matrix)
    requires |x| == |m| && Wide(m, |d|)
    ensures |r| == |m| && Wide(r, |d|)
  {
    seq(|m|, i requires 0 <= i < |m| => Outer(m[i], lr, x[i], d))
  }

  /** Against the query it was taken at, an outer-product step moves every output by the squared norm. */
  lemma {:induction false} CombineMinusOuter(c: Vec, m: Matrix, lr: real, d: Vec, j: nat)
    requires |c| == |m| && Wide(m, |d|) && j < |d|
    ensures Combine(c, MinusOuter(m, lr, c, d), |d|)[j]
            == Combine(c, m, |d|)[j] - Times(Times(lr, NormSq(c)), d[j])
    decreases |c|
  {
    if c != [] {
      var m' := MinusOuter(m, lr, c, d);
      assert m'[1..] == MinusOuter(m[1..], lr, c[1..], d);
      CombineMinusOuter(c[1..], m[1..], lr, d, j);
      var rest, rest' := Combine(c[1..], m[1..], |d|), Combine(c[1..], m'[1..], |d|);
      CombineHead(c, m, |d|, j);
      CombineHead(c, m', |d|, j);
      assert m'[0][j] == m[0][j] - Times(lr, Times(c[0], d[j]));
      StepAlgebra(c[0], m[0][j], lr, d[j], NormSq(c[1..]), rest[j], rest'[j]);
    }
  }

  lemma CombineHead(c: Vec, m: Matrix, width: nat, j: nat)
    requires |c| == |m| > 0 && Wide(m, width) && j < width
    ensures Combine(c, m, width)[j] == Times(c[0], m[0][j]) + Combine(c[1..], m[1..], width)[j]
  {
  }

  lemma StepAlgebra(x: real, w: real, lr: real, d: real, n: real, rest: real, rest': real)
    requires rest' == rest - Times(Times(lr, n), d)
    ensures Times(x, w - Times(lr, Times(x, d))) + rest'
            == Times(x, w) + rest - Times(Times(lr, Times(x, x) + n), d)
  {
  }

  /** Entry by entry, the combination is the sum of the coefficients times the entries of that column. */
  lemma {:induction false} CombineEntry(c: Vec, m: Matrix, width: nat, j: nat)
    requires |c| == |m| && Wide(m, width) && j < width
    ensures Combine(c, m, width)[j] == Total(Products(c, m, j))
    decreases |c|
  {
    if c != [] {
      CombineHead(c, m, width, j);
      CombineEntry(c[1..], m[1..], width, j);
      assert Products(c, m, j)[1..] == Products(c[1..], m[1..], j);
    }
  }

  function Products(c: Vec, m: Matrix, j: nat): (v: Vec)
    requires |c| == |m| && forall i | 0 <= i < |m| :: j < |m[i]|
    ensures |v| == |c|
  {
    seq(|c|, i requires 0 <= i < |c| => Times(c[i], m[i][j]))
  }

  // ---- comparing totals ----

  lemma {:induction false} TotalAtMost(a: Vec, b: Vec)
    requires |a| == |b| && forall j | 0 <= j < |a| :: a[j] <= b[j]
    ensures Total(a) <= Total(b)
    decreases |a|
  {
    if a != [] {
      TotalAtMost(a[1..], b[1..]);
    }
  }

  lemma {:induction false} TotalLess(a: Vec, b: Vec, i: nat)
    requires |a| == |b| && i < |a| && a[i] < b[i] && forall j | 0 <= j < |a| :: a[j] <= b[j]
    ensures Total(a) < Total(b)
    decreases i
  {
    if i == 0 {
      TotalAtMost(a[1..], b[1..]);
    } else {
      TotalLess(a[1..], b[1..], i - 1);
    }
  }

  /** A total of non-negative numbers is at least each of them. */
  lemma {:induction false} TotalBounds(v: Vec, i: nat)
    requires i < |v| && forall j | 0 <= j < |v| :: v[j] >= 0.0
    ensures Total(v) >= v[i]
    decreases i
  {
    if i == 0 {
      TotalZero(|v| - 1);
      TotalAtMost(Zero(|v| - 1), v[1..]);
    } else {
      TotalBounds(v[1..], i - 1);
    }
  }

  lemma {:induction false} TotalUpdate(v: Vec, c: nat, x: real)
    requires c < |v|
    ensures Total(v[c := x]) == Total(v) - v[c] + x
    decreases c
  {
    if c == 0 {
      assert v[c := x][1..] == v[1..];
    } else {
      assert v[c := x][1..] == v[1..][c - 1 := x];
      TotalUpdate(v[1..], c - 1, x);
    }
  }

  function Over(a: real, b: real): real
    requires b != 0.0
  {
    a / b
  }

  function Quotients(v: Vec, s: real): (q: Vec)
    requires s != 0.0
    ensures |q| == |v|
  {
    seq(|v|, i requires 0 <= i < |v| => Over(v[i], s))
  }

  lemma {:induction false} TotalQuotients(v: Vec, s: real)
    requires s != 0.0
    ensures Total(Quotients(v, s)) == Over(Total(v), s)
    decreases |v|
  {
    if v != [] {
      assert Quotients(v, s)[1..] == Quotients(v[1..], s);
      TotalQuotients(v[1..], s);
      SplitQuotient(v[0], Total(v[1..]), s);
    }
  }

  lemma SplitQuotient(a: real, b: real, s: real)
    requires s != 0.0
    ensures Over(a, s) + Over(b, s) == Over(a + b, s)
  {
  }

  lemma ProperFraction(a: real, s: real)
    requires 0.0 < a <= s
    ensures 0.0 < Over(a, s) <= 1.0
  {
  }

  lemma CancelFactor(k: real, s: real)
    requires k > 0.0 && s > 0.0
    ensures Times(k, s) > 0.0 && Over(k, Times(k, s)) == Over(1.0, s)
  {
    var q := Over(k, Times(k, s));
    assert Times(q, Times(k, s)) == k;
    Shuffle(q, k, s);
  }

  lemma Shuffle(q: real, k: real, s: real)
    requires k > 0.0 && s > 0.0 && Times(q, Times(k, s)) == k
    ensures q == Over(1.0, s)
  {
    assert k * (q * s - 1.0) == 0.0;
    assert q * s == 1.0;
  }

  lemma SmallerDenominator(a: real, b: real)
    requires 0.0 < a < b
    ensures Over(1.0, a) > Over(1.0, b)
  {
    var p, q := Over(1.0, a), Over(1.0, b);
    OverTimes(1.0, a);
    OverTimes(1.0, b);
    assert q > 0.0;
    Reciprocals(p, q, a, b);
  }

  lemma Reciprocals(p: real, q: real, a: real, b: real)
    requires 0.0 < a < b && p * a == 1.0 && q * b == 1.0 && q > 0.0
    ensures p > q
  {
    MultiplyLess(q, a, b);
    CancelLess(a, q, p);
  }

  lemma OverTimes(x: real, a: real)
    requires a != 0.0
    ensures Over(x, a) * a == x
  {
  }

  lemma MultiplyLess(k: real, x: real, y: real)
    requires k > 0.0 && x < y
    ensures k * x < k * y
  {
  }

  lemma CancelLess(k: real, x: real, y: real)
    requires k > 0.0 && x * k < y * k
    ensures x < y
  {
  }
}
