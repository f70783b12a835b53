/** Softmax regression over query features: training, and the online step taken on every open. */
module Classifiers {
  import opened Prelude
  import opened Vectors
  import opened Ranking

  const EPOCHS: nat := 150
  const LEARNING_RATE: real := 0.5
  const L2_REG: real := 0.001
  const SUM_FLOOR: real := 0.000000000001

  predicate Positive(f: real -> real, x: real) {
    f(x) > 0.0
  }

  ghost predicate PositiveFromOne(f: real -> real) {
    f(0.0) == 1.0 && forall x :: Positive(f, x)
  }

  /** The exponential, of which the invariants need only this much. */
  type Exponential = f: real -> real | PositiveFromOne(f) witness x => 1.0

  ghost predicate Divides(f: real -> real, a: real, b: real) {
    Times(f(a - b), f(b)) == f(a)
  }

  ghost predicate Rises(f: real -> real, a: real, b: real) {
    a < b ==> f(a) < f(b)
  }

  /** What else makes it the exponential; needed only to compare probabilities. */
  ghost predicate IsExponential(f: real -> real) {
    (forall a, b :: Divides(f, a, b)) && (forall a, b :: Rises(f, a, b))
  }

  // ---- softmax ----

  function MaxOf(v: Vec): (m: real)
    requires v != []
    ensures exists i :: 0 <= i < |v| && v[i] == m
  {
    if |v| == 1 then v[0]
    else
      var rest := MaxOf(v[1..]);
      assert exists i :: 0 < i < |v| && v[i] == rest by {
        var k :| 0 <= k < |v[1..]| && v[1..][k] == rest;
        assert v[k + 1] == rest;
      }
      if v[0] < rest then rest else v[0]
  }

  function Exps(exp: Exponential, logits: Vec, shift: real): (e: Vec)
    ensures |e| == |logits|
  {
    seq(|logits|, i requires 0 <= i < |logits| => exp(logits[i] - shift))
  }

  lemma ExpsPositive(exp: Exponential, logits: Vec, shift: real)
    ensures forall i | 0 <= i < |logits| :: Exps(exp, logits, shift)[i] > 0.0
  {
    forall i | 0 <= i < |logits| ensures Exps(exp, logits, shift)[i] > 0.0 {
      assert Positive(exp, logits[i] - shift);
    }
  }

  function Floored(s: real): real {
    if s < SUM_FLOOR then SUM_FLOOR else s
  }

  function Softmax(exp: Exponential, logits: Vec): (p: Vec)
    ensures |p| == |logits|
  {
    if logits == [] then []
    else
      var exps := Exps(exp, logits, MaxOf(logits));
      Quotients(exps, Floored(Total(exps)))
  }

  /** The odds against `c`: one of them is against itself, so they total at least one. */
  lemma OddsTotal(exp: Exponential, logits: Vec, c: nat)
    requires c < |logits|
    ensures Total(Exps(exp, logits, logits[c])) >= 1.0
  {
    var e := Exps(exp, logits, logits[c]);
    ExpsPositive(exp, logits, logits[c]);
    assert e[c] == exp(0.0);
    TotalBounds(e, c);
  }

  /** The floor under the normalizing sum never fires: the largest logit alone contributes one. */
  lemma FloorNeverFires(exp: Exponential, logits: Vec)
    requires logits != []
    ensures var e := Exps(exp, logits, MaxOf(logits));
            Total(e) >= 1.0 && Softmax(exp, logits) == Quotients(e, Total(e))
  {
    var i :| 0 <= i < |logits| && logits[i] == MaxOf(logits);
    OddsTotal(exp, logits, i);
  }

  /** Softmax is a probability distribution: positive everywhere, and summing to exactly one. */
  lemma SoftmaxIsDistribution(exp: Exponential, logits: Vec)
    requires logits != []
    ensures Total(Softmax(exp, logits)) == 1.0
    ensures forall i | 0 <= i < |logits| :: 0.0 < Softmax(exp, logits)[i] <= 1.0
  {
    FloorNeverFires(exp, logits);
    var e := Exps(exp, logits, MaxOf(logits));
    var s := Total(e);
    TotalQuotients(e, s);
    ExpsPositive(exp, logits, MaxOf(logits));
    forall i | 0 <= i < |logits| ensures 0.0 < Softmax(exp, logits)[i] <= 1.0 {
      TotalBounds(e, i);
      ProperFraction(e[i], s);
    }
  }

  /** With the real exponential, a class's probability is one over the total odds against it. */
  lemma SoftmaxAsOdds(exp: Exponential, logits: Vec, c: nat)
    requires IsExponential(exp) && c < |logits|
    ensures Total(Exps(exp, logits, logits[c])) >= 1.0
    ensures Softmax(exp, logits)[c] == Over(1.0, Total(Exps(exp, logits, logits[c])))
  {
    FloorNeverFires(exp, logits);
    OddsTotal(exp, logits, c);
    var m := MaxOf(logits);
    var e, odds := Exps(exp, logits, m), Exps(exp, logits, logits[c]);
    var k := exp(logits[c] - m);
    forall i | 0 <= i < |logits| ensures e[i] == Times(k, odds[i]) {
      assert Divides(exp, logits[i] - m, logits[c] - m);
      assert (logits[i] - m) - (logits[c] - m) == logits[i] - logits[c];
      Commutes(odds[i], k);
    }
    assert e == Scale(k, odds);
    TotalScale(k, odds);
    assert Positive(exp, logits[c] - m);
    CancelFactor(k, Total(odds));
  }

  lemma Commutes(a: real, b: real)
    ensures Times(a, b) == Times(b, a)
  {
  }

  lemma ExpsRatio(exp: Exponential, logits: Vec, shift: real, i: nat, j: nat)
    requires IsExponential(exp) && i < |logits| && j < |logits|
    ensures Exps(exp, logits, shift)[i] == Times(exp(logits[i] - logits[j]), Exps(exp, logits, shift)[j])
  {
    hide Times;
    assert Divides(exp, logits[i] - shift, logits[j] - shift);
    assert (logits[i] - shift) - (logits[j] - shift) == logits[i] - logits[j];
  }

  lemma SoftmaxEntry(exp: Exponential, logits: Vec, i: nat)
    requires i < |logits|
    ensures var e := Exps(exp, logits, MaxOf(logits));
            Total(e) >= 1.0 && Softmax(exp, logits)[i] == Over(e[i], Total(e))
  {
    FloorNeverFires(exp, logits);
  }

  /** With the real exponential, probabilities are as far apart as the exponential of the logits' difference says. */
  lemma SoftmaxRatio(exp: Exponential, logits: Vec, i: nat, j: nat)
    requires IsExponential(exp) && i < |logits| && j < |logits|
    ensures Softmax(exp, logits)[i] == exp(logits[i] - logits[j]) * Softmax(exp, logits)[j]
  {
    hide Softmax, Exps, Times, Over, Total, MaxOf, IsExponential;
    var e := Exps(exp, logits, MaxOf(logits));
    SoftmaxEntry(exp, logits, i);
    SoftmaxEntry(exp, logits, j);
    ExpsRatio(exp, logits, MaxOf(logits), i, j);
    FactorOut(exp(logits[i] - logits[j]), e[j], Total(e));
  }

  lemma FactorOut(a: real, b: real, s: real)
    requires s != 0.0
    ensures Over(Times(a, b), s) == a * Over(b, s)
  {
  }

  // ---- the online step ----

  /** The probabilities minus the one-hot target. */
  function Residual(p: Vec, c: nat): (d: Vec)
    requires c < |p|
    ensures |d| == |p|
  {
    p[c := p[c] - 1.0]
  }

  lemma ResidualBalanced(exp: Exponential, logits: Vec, c: nat)
    requires c < |logits|
    ensures Total(Residual(Softmax(exp, logits), c)) == 0.0
  {
    SoftmaxIsDistribution(exp, logits);
    var p := Softmax(exp, logits);
    TotalUpdate(p, c, p[c] - 1.0);
  }

  /** One row of weights per feature, one column per class. */
  datatype Model = Model(weights: Matrix, bias: Vec)

  ghost predicate Fits(m: Model, features: nat, width: nat) {
    |m.weights| == features && |m.bias| == width && Wide(m.weights, width)
  }

  /** No class is favoured overall: every feature's weights, and the bias, sum to zero. */
  ghost predicate Balanced(m: Model) {
    Total(m.bias) == 0.0 && RowsBalanced(m.weights)
  }

  function Logits(m: Model, x: Vec): (l: Vec)
    requires Fits(m, |x|, |m.bias|)
    ensures |l| == |m.bias|
  {
    Add(Combine(x, m.weights, |m.bias|), m.bias)
  }

  function Gradient(exp: Exponential, m: Model, x: Vec, c: nat): (d: Vec)
    requires Fits(m, |x|, |m.bias|) && c < |m.bias|
    ensures |d| == |m.bias|
  {
    Residual(Softmax(exp, Logits(m, x)), c)
  }

  function Stepped(m: Model, x: Vec, d: Vec, lr: real): (m': Model)
    requires Fits(m, |x|, |d|)
    ensures Fits(m', |x|, |d|)
  {
    Model(MinusOuter(m.weights, lr, x, d), Sub(m.bias, Scale(lr, d)))
  }

  /** The model after one online update towards class `c` for the query features `x`. */
  function Nudged(exp: Exponential, m: Model, x: Vec, c: nat, lr: real): (m': Model)
    requires Fits(m, |x|, |m.bias|) && c < |m.bias|
    ensures Fits(m', |x|, |m.bias|)
  {
    Stepped(m, x, Gradient(exp, m, x, c), lr)
  }

  /** For the query it was taken at, a step moves every logit along the residual by lr (|x|^2 + 1). */
  lemma SteppedLogit(m: Model, x: Vec, d: Vec, lr: real, j: nat)
    requires Fits(m, |x|, |d|) && j < |d|
    ensures Logits(Stepped(m, x, d, lr), x)[j] == Logits(m, x)[j] - Times(Times(lr, NormSq(x) + 1.0), d[j])
  {
    SteppedParts(m, x, d, lr, j);
    LogitEntry(m, x, j);
    StepSize(lr, NormSq(x), d[j], Combine(x, m.weights, |d|)[j], m.bias[j]);
  }

  lemma SteppedParts(m: Model, x: Vec, d: Vec, lr: real, j: nat)
    requires Fits(m, |x|, |d|) && j < |d|
    ensures Logits(Stepped(m, x, d, lr), x)[j]
            == (Combine(x, m.weights, |d|)[j] - Times(Times(lr, NormSq(x)), d[j])) + (m.bias[j] - Times(lr, d[j]))
  {
    LogitEntry(Stepped(m, x, d, lr), x, j);
    SteppedBias(m.bias, d, lr, j);
    CombineMinusOuter(x, m.weights, lr, d, j);
  }

  lemma LogitEntry(m: Model, x: Vec, j: nat)
    requires Fits(m, |x|, |m.bias|) && j < |m.bias|
    ensures Logits(m, x)[j] == Combine(x, m.weights, |m.bias|)[j] + m.bias[j]
  {
  }

  lemma SteppedBias(b: Vec, d: Vec, lr: real, j: nat)
    requires |b| == |d| && j < |d|
    ensures Sub(b, Scale(lr, d))[j] == b[j] - Times(lr, d[j])
  {
  }

  /** A logit is the class's bias plus, feature by feature, the feature times its weight for that class. */
  lemma LogitIsSum(m: Model, x: Vec, j: nat, t: Vec)
    requires Fits(m, |x|, |m.bias|) && j < |m.bias|
    requires |t| == |x| && forall i | 0 <= i < |x| :: t[i] == x[i] * m.weights[i][j]
    ensures Logits(m, x)[j] == Total(t) + m.bias[j]
  {
    CombineEntry(x, m.weights, |m.bias|, j);
    assert t == Products(x, m.weights, j);
  }

  /** How far the model is off for class `j` on a sample of class `c`. */
  function Miss(exp: Exponential, m: Model, x: Vec, c: nat, j: nat): real
    requires Fits(m, |x|, |m.bias|) && j < |m.bias|
  {
    Softmax(exp, Logits(m, x))[j] - if c == j then 1.0 else 0.0
  }

  /** An update moves every weight and bias by its own feature's share of its own class's miss. */
  lemma NudgedEntry(exp: Exponential, m: Model, x: Vec, c: nat, lr: real, i: nat, j: nat)
    requires Fits(m, |x|, |m.bias|) && c < |m.bias| && i < |x| && j < |m.bias|
    ensures Nudged(exp, m, x, c, lr).weights[i][j] == m.weights[i][j] - lr * (x[i] * Miss(exp, m, x, c, j))
    ensures Nudged(exp, m, x, c, lr).bias[j] == m.bias[j] - lr * Miss(exp, m, x, c, j)
  {
    hide Softmax;
  }

  lemma StepSize(lr: real, n: real, d: real, l: real, b: real)
    ensures (l - Times(Times(lr, n), d)) + (b - Times(lr, d)) == l + b - Times(Times(lr, n + 1.0), d)
  {
  }

  function Margin(l: Vec, c: nat, j: nat): real
    requires c < |l| && j < |l|
  {
    l[c] - l[j]
  }

  lemma SteppedMargin(m: Model, x: Vec, d: Vec, lr: real, c: nat, j: nat)
    requires Fits(m, |x|, |d|) && c < |d| && j < |d|
    ensures Margin(Logits(Stepped(m, x, d, lr), x), c, j)
            == Margin(Logits(m, x), c, j) + Times(Times(lr, NormSq(x) + 1.0), d[j] - d[c])
  {
    SteppedLogit(m, x, d, lr, c);
    SteppedLogit(m, x, d, lr, j);
    Distribute(Times(lr, NormSq(x) + 1.0), d[c], d[j] - d[c]);
  }

  /** How far an update moves the margin of a class of probability `pc` over one of probability `pj`. */
  function Widening(lr: real, x: Vec, pc: real, pj: real): real {
    Times(Times(lr, NormSq(x) + 1.0), 1.0 - pc + pj)
  }

  lemma WideningPositive(lr: real, x: Vec, pc: real, pj: real)
    requires lr > 0.0 && pc <= 1.0 && pj > 0.0
    ensures Widening(lr, x, pc, pj) > 0.0
  {
    NormSqNonNegative(x);
    PositiveProduct(lr, NormSq(x) + 1.0, 1.0 - pc + pj);
  }

  /**
   * The nudge: for the query it is taken on, an update raises the opened class over every other class by
   * exactly lr (|x|^2 + 1) (1 - p_c + p_j), which is positive.
   */
  lemma NudgeWidensMargin(exp: Exponential, m: Model, x: Vec, c: nat, lr: real, j: nat)
    requires Fits(m, |x|, |m.bias|) && c < |m.bias| && j < |m.bias| && j != c && lr > 0.0
    ensures var p := Softmax(exp, Logits(m, x));
            && Margin(Logits(Nudged(exp, m, x, c, lr), x), c, j)
               == Margin(Logits(m, x), c, j) + Widening(lr, x, p[c], p[j])
            && Widening(lr, x, p[c], p[j]) > 0.0
  {
    var p := Softmax(exp, Logits(m, x));
    var d := Residual(p, c);
    SteppedMargin(m, x, d, lr, c, j);
    assert d[j] - d[c] == 1.0 - p[c] + p[j];
    assert Widening(lr, x, p[c], p[j]) > 0.0 by {
      SoftmaxIsDistribution(exp, Logits(m, x));
      WideningPositive(lr, x, p[c], p[j]);
    }
  }

  lemma PositiveProduct(a: real, b: real, c: real)
    requires a > 0.0 && b > 0.0 && c > 0.0
    ensures Times(Times(a, b), c) > 0.0
  {
    assert a * b > 0.0;
  }

  /** Raising every margin of `c` raises its probability. */
  lemma MarginsRaiseProbability(exp: Exponential, before: Vec, after: Vec, c: nat)
    requires IsExponential(exp) && |before| == |after| >= 2 && c < |before|
    requires forall j | 0 <= j < |before| && j != c :: Margin(after, c, j) > Margin(before, c, j)
    ensures Softmax(exp, after)[c] > Softmax(exp, before)[c]
  {
    var e, e' := Exps(exp, before, before[c]), Exps(exp, after, after[c]);
    forall j | 0 <= j < |before| ensures e'[j] <= e[j] && (j != c ==> e'[j] < e[j]) {
      assert Rises(exp, after[j] - after[c], before[j] - before[c]);
      if j != c {
        assert Margin(after, c, j) > Margin(before, c, j);
      }
    }
    TotalLess(e', e, if c == 0 then 1 else 0);
    SoftmaxAsOdds(exp, before, c);
    SoftmaxAsOdds(exp, after, c);
    SmallerDenominator(Total(e'), Total(e));
  }

  /** With the real exponential, the opened class's probability for that query strictly rises. */
  lemma NudgeRaisesProbability(exp: Exponential, m: Model, x: Vec, c: nat, lr: real)
    requires IsExponential(exp) && Fits(m, |x|, |m.bias|) && c < |m.bias| && |m.bias| >= 2 && lr > 0.0
    ensures Softmax(exp, Logits(Nudged(exp, m, x, c, lr), x))[c] > Softmax(exp, Logits(m, x))[c]
  {
    var before, after := Logits(m, x), Logits(Nudged(exp, m, x, c, lr), x);
    assert forall j | 0 <= j < |before| && j != c :: Margin(after, c, j) > Margin(before, c, j) by {
      forall j | 0 <= j < |before| && j != c ensures Margin(after, c, j) > Margin(before, c, j) {
        NudgeWidensMargin(exp, m, x, c, lr, j);
      }
    }
    MarginsRaiseProbability(exp, before, after, c);
  }

  /** Moving a balanced row along a balanced direction keeps it balanced. */
  lemma OuterBalanced(m: Vec, lr: real, x: real, d: Vec)
    requires |m| == |d| && Total(m) == 0.0 && Total(d) == 0.0
    ensures Total(Outer(m, lr, x, d)) == 0.0
  {
    ScaleBalanced(x, d);
    ScaleBalanced(lr, Scale(x, d));
    TotalSub(m, Scale(lr, Scale(x, d)));
  }

  lemma StepKeepsBalance(m: Model, x: Vec, d: Vec, lr: real)
    requires Fits(m, |x|, |d|) && Balanced(m) && Total(d) == 0.0
    ensures Balanced(Stepped(m, x, d, lr))
  {
    var m' := Stepped(m, x, d, lr);
    TotalScale(lr, d);
    TotalSub(m.bias, Scale(lr, d));
    forall i | 0 <= i < |m'.weights| ensures Total(m'.weights[i]) == 0.0 {
      OuterBalanced(m.weights[i], lr, x[i], d);
    }
  }

  lemma NudgeKeepsBalance(exp: Exponential, m: Model, x: Vec, c: nat, lr: real)
    requires Fits(m, |x|, |m.bias|) && c < |m.bias| && Balanced(m)
    ensures Balanced(Nudged(exp, m, x, c, lr))
  {
    ResidualBalanced(exp, Logits(m, x), c);
    StepKeepsBalance(m, x, Gradient(exp, m, x, c), lr);
  }

  // ---- full training ----

  function Column(x: Matrix, i: nat): (c: Vec)
    requires forall s | 0 <= s < |x| :: i < |x[s]|
    ensures |c| == |x|
  {
    seq(|x|, s requires 0 <= s < |x| => x[s][i])
  }

  function Ones(n: nat): (v: Vec)
    ensures |v| == n
  {
    seq(n, i => 1.0)
  }

  ghost predicate Samples(x: Matrix, y: seq<nat>, features: nat, width: nat) {
    |x| == |y| > 0 && Wide(x, features) && forall s | 0 <= s < |y| :: y[s] < width
  }

  /** The mean over the samples of coefficient times residual. */
  function Mean(c: Vec, diff: Matrix, width: nat): (v: Vec)
    requires |c| == |diff| > 0 && Wide(diff, width)
    ensures |v| == width
  {
    Quotients(Combine(c, diff, width), |diff| as real)
  }

  lemma MeanBalanced(c: Vec, diff: Matrix, width: nat)
    requires |c| == |diff| > 0 && Wide(diff, width) && RowsBalanced(diff)
    ensures Total(Mean(c, diff, width)) == 0.0
  {
    CombineBalanced(c, diff, width);
    TotalQuotients(Combine(c, diff, width), |diff| as real);
  }

  /** One row of weights after the regularized gradient step. */
  function RowDescended(w: Vec, c: Vec, diff: Matrix): (r: Vec)
    requires |c| == |diff| > 0 && Wide(diff, |w|)
    ensures |r| == |w|
  {
    Sub(w, Scale(LEARNING_RATE, Add(Mean(c, diff, |w|), Scale(L2_REG, w))))
  }

  lemma RowDescendedBalanced(w: Vec, c: Vec, diff: Matrix)
    requires |c| == |diff| > 0 && Wide(diff, |w|) && RowsBalanced(diff) && Total(w) == 0.0
    ensures Total(RowDescended(w, c, diff)) == 0.0
  {
    var g := Mean(c, diff, |w|);
    MeanBalanced(c, diff, |w|);
    TotalScale(L2_REG, w);
    TotalAdd(g, Scale(L2_REG, w));
    var step := Add(g, Scale(L2_REG, w));
    TotalScale(LEARNING_RATE, step);
    TotalSub(w, Scale(LEARNING_RATE, step));
  }

  /**
   * Entry by entry: the weight less the learning rate times the sample mean of feature times residual, plus
   * the decay.
   */
  lemma RowDescendedEntry(w: Vec, c: Vec, diff: Matrix, j: nat)
    requires |c| == |diff| > 0 && Wide(diff, |w|) && j < |w|
    ensures RowDescended(w, c, diff)[j]
            == w[j] - Times(LEARNING_RATE, Over(Total(Products(c, diff, j)), |diff| as real) + Times(L2_REG, w[j]))
  {
    CombineEntry(c, diff, |w|, j);
  }

  /** One epoch of gradient descent on regularized softmax regression, given each sample's residual. */
  function Descended(x: Matrix, diff: Matrix, m: Model): (m': Model)
    requires |x| == |diff| > 0 && Wide(x, |m.weights|) && Wide(diff, |m.bias|) && Fits(m, |m.weights|, |m.bias|)
    ensures Fits(m', |m.weights|, |m.bias|)
  {
    Model(seq(|m.weights|, i requires 0 <= i < |m.weights| => RowDescended(m.weights[i], Column(x, i), diff)),
          Sub(m.bias, Scale(LEARNING_RATE, Mean(Ones(|diff|), diff, |m.bias|))))
  }

  /** Entry by entry, the bias less the learning rate times the sample mean of the residuals. */
  lemma BiasDescendedEntry(x: Matrix, diff: Matrix, m: Model, j: nat)
    requires |x| == |diff| > 0 && Wide(x, |m.weights|) && Wide(diff, |m.bias|) && Fits(m, |m.weights|, |m.bias|)
    requires j < |m.bias|
    ensures Descended(x, diff, m).bias[j]
            == m.bias[j] - Times(LEARNING_RATE, Over(Total(Column(diff, j)), |diff| as real))
  {
    CombineEntry(Ones(|diff|), diff, |m.bias|, j);
    assert Products(Ones(|diff|), diff, j) == Column(diff, j);
  }

  lemma DescentKeepsBalance(x: Matrix, diff: Matrix, m: Model)
    requires |x| == |diff| > 0 && Wide(x, |m.weights|) && Wide(diff, |m.bias|) && Fits(m, |m.weights|, |m.bias|)
    requires Balanced(m) && RowsBalanced(diff)
    ensures Balanced(Descended(x, diff, m))
  {
    var m' := Descended(x, diff, m);
    var g := Mean(Ones(|diff|), diff, |m.bias|);
    MeanBalanced(Ones(|diff|), diff, |m.bias|);
    TotalScale(LEARNING_RATE, g);
    TotalSub(m.bias, Scale(LEARNING_RATE, g));
    forall i | 0 <= i < |m'.weights| ensures Total(m'.weights[i]) == 0.0 {
      RowDescendedBalanced(m.weights[i], Column(x, i), diff);
    }
  }

  /** Each sample's residual: its softmax probabilities minus its one-hot label. */
  function AllResiduals(exp: Exponential, x: Matrix, y: seq<nat>, m: Model): (diff: Matrix)
    requires Samples(x, y, |m.weights|, |m.bias|) && Fits(m, |m.weights|, |m.bias|)
    ensures |diff| == |y| && Wide(diff, |m.bias|)
  {
    seq(|y|, s requires 0 <= s < |y| => Gradient(exp, m, x[s], y[s]))
  }

  lemma ResidualsBalanced(exp: Exponential, x: Matrix, y: seq<nat>, m: Model)
    requires Samples(x, y, |m.weights|, |m.bias|) && Fits(m, |m.weights|, |m.bias|)
    ensures RowsBalanced(AllResiduals(exp, x, y, m))
  {
    forall s | 0 <= s < |y| ensures Total(AllResiduals(exp, x, y, m)[s]) == 0.0 {
      ResidualBalanced(exp, Logits(m, x[s]), y[s]);
    }
  }

  function Untrained(features: nat, width: nat): (m: Model)
    ensures Fits(m, features, width)
  {
    Model(seq(features, i => Zero(width)), Zero(width))
  }

  function AfterEpoch(exp: Exponential, x: Matrix, y: seq<nat>, m: Model): (m': Model)
    requires Samples(x, y, |m.weights|, |m.bias|) && Fits(m, |m.weights|, |m.bias|)
    ensures Fits(m', |m.weights|, |m.bias|)
  {
    Descended(x, AllResiduals(exp, x, y, m), m)
  }

  /**
   * An epoch moves feature `i`'s weight for class `j` against the mean, over the samples, of that feature times that
   * class's miss, at a rate of one half and with a decay of one thousandth.
   */
  lemma EpochWeight(exp: Exponential, x: Matrix, y: seq<nat>, m: Model, i: nat, j: nat, t: Vec)
    requires Samples(x, y, |m.weights|, |m.bias|) && Fits(m, |m.weights|, |m.bias|)
    requires i < |m.weights| && j < |m.bias|
    requires |t| == |y| && forall s | 0 <= s < |y| :: t[s] == x[s][i] * Miss(exp, m, x[s], y[s], j)
    ensures AfterEpoch(exp, x, y, m).weights[i][j]
            == m.weights[i][j] - 0.5 * (Total(t) / |y| as real + 0.001 * m.weights[i][j])
  {
    hide Softmax, Logits, RowDescended, Total;
    var diff := AllResiduals(exp, x, y, m);
    RowDescendedEntry(m.weights[i], Column(x, i), diff, j);
    forall s | 0 <= s < |y| ensures Products(Column(x, i), diff, j)[s] == t[s] {
      assert diff[s][j] == Miss(exp, m, x[s], y[s], j);
    }
    assert t == Products(Column(x, i), diff, j);
  }

  /** And its bias against the mean of that class's miss, without decay. */
  lemma EpochBias(exp: Exponential, x: Matrix, y: seq<nat>, m: Model, j: nat, t: Vec)
    requires Samples(x, y, |m.weights|, |m.bias|) && Fits(m, |m.weights|, |m.bias|) && j < |m.bias|
    requires |t| == |y| && forall s | 0 <= s < |y| :: t[s] == Miss(exp, m, x[s], y[s], j)
    ensures AfterEpoch(exp, x, y, m).bias[j] == m.bias[j] - 0.5 * (Total(t) / |y| as real)
  {
    hide Softmax, Logits, Descended, Total;
    var diff := AllResiduals(exp, x, y, m);
    BiasDescendedEntry(x, diff, m, j);
    assert t == Column(diff, j);
  }

  lemma UntrainedBalanced(features: nat, width: nat)
    ensures Balanced(Untrained(features, width))
  {
    TotalZero(width);
  }

  lemma EpochKeepsBalance(exp: Exponential, x: Matrix, y: seq<nat>, features: nat, width: nat, m: Model)
    requires Samples(x, y, features, width) && Fits(m, features, width) && Balanced(m)
    ensures Balanced(AfterEpoch(exp, x, y, m))
  {
    ResidualsBalanced(exp, x, y, m);
    DescentKeepsBalance(x, AllResiduals(exp, x, y, m), m);
  }

  /** A training run: zero weights first, and then the model after each epoch over the samples. */
  ghost predicate IsRun(exp: Exponential, x: Matrix, y: seq<nat>, features: nat, width: nat, run: seq<Model>)
    requires Samples(x, y, features, width)
  {
    var k := |run| - 1;
    k >= 0 && Fits(run[k], features, width) &&
    if k == 0 then run[0] == Untrained(features, width)
    else IsRun(exp, x, y, features, width, run[..k]) && run[k] == AfterEpoch(exp, x, y, run[k - 1])
  }

  /** Whatever the samples, training never favours a class overall, however long it runs. */
  lemma {:induction false} RunBalanced(
    exp: Exponential, x: Matrix, y: seq<nat>, features: nat, width: nat, run: seq<Model>)
    requires Samples(x, y, features, width) && IsRun(exp, x, y, features, width, run)
    ensures Fits(run[|run| - 1], features, width) && Balanced(run[|run| - 1])
    decreases |run|
  {
    hide AfterEpoch, Untrained, Balanced, Samples;
    var k := |run| - 1;
    if k == 0 {
      UntrainedBalanced(features, width);
    } else {
      RunBalanced(exp, x, y, features, width, run[..k]);
      EpochKeepsBalance(exp, x, y, features, width, run[k - 1]);
    }
  }

  /** The outcome of a run of exactly `EPOCHS` epochs. */
  ghost predicate IsTrained(exp: Exponential, x: Matrix, y: seq<nat>, features: nat, width: nat, m: Model)
    requires Samples(x, y, features, width)
  {
    exists run :: IsRun(exp, x, y, features, width, run) && |run| == EPOCHS + 1 && m == run[EPOCHS]
  }

  /** Every weight and bias is zero. */
  ghost predicate AllZero(m: Model) {
    && (forall i, j | 0 <= i < |m.weights| && 0 <= j < |m.weights[i]| :: m.weights[i][j] == 0.0)
    && forall j | 0 <= j < |m.bias| :: m.bias[j] == 0.0
  }

  /** Model `k` of a run, and how it came about. */
  ghost predicate Trained(exp: Exponential, x: Matrix, y: seq<nat>, features: nat, width: nat, run: seq<Model>, k: nat)
    requires Samples(x, y, features, width) && k < |run|
  {
    && Fits(run[k], features, width)
    && if k == 0 then AllZero(run[0])
       else Fits(run[k - 1], features, width) && run[k] == AfterEpoch(exp, x, y, run[k - 1])
  }

  lemma {:induction false} RunSteps(
    exp: Exponential, x: Matrix, y: seq<nat>, features: nat, width: nat, run: seq<Model>, k: nat)
    requires Samples(x, y, features, width) && IsRun(exp, x, y, features, width, run) && k < |run|
    ensures Trained(exp, x, y, features, width, run, k)
    decreases |run|
  {
    hide AfterEpoch, Samples;
    if k < |run| - 1 {
      RunSteps(exp, x, y, features, width, run[..|run| - 1], k);
    } else if k > 0 {
      RunSteps(exp, x, y, features, width, run[..|run| - 1], k - 1);
    }
  }

  /** A trained model is what exactly 150 epochs make of zero weights. */
  lemma TrainedFor150Epochs(exp: Exponential, x: Matrix, y: seq<nat>, features: nat, width: nat, m: Model)
    returns (run: seq<Model>)
    requires Samples(x, y, features, width) && IsTrained(exp, x, y, features, width, m)
    ensures |run| == 151 && run[150] == m
    ensures forall k: nat | k < 151 :: Trained(exp, x, y, features, width, run, k)
  {
    hide Samples, IsRun, Trained;
    run :| IsRun(exp, x, y, features, width, run) && |run| == EPOCHS + 1 && m == run[EPOCHS];
    forall k: nat | k < 151 ensures Trained(exp, x, y, features, width, run, k) {
      RunSteps(exp, x, y, features, width, run, k);
    }
  }

  /** Row by row in place: each row of logits becomes its softmax. */
  method SoftmaxRows(exp: Exponential, logits: Matrix) returns (rows: Matrix)
    ensures |rows| == |logits| && forall s | 0 <= s < |logits| :: rows[s] == Softmax(exp, logits[s])
  {
    rows := logits;
    var s := 0;
    while s < |logits|
      invariant 0 <= s <= |logits| == |rows|
      invariant forall t | 0 <= t < s :: rows[t] == Softmax(exp, logits[t])
      invariant forall t | s <= t < |logits| :: rows[t] == logits[t]
    {
      rows := rows[s := Softmax(exp, rows[s])];
      s := s + 1;
    }
  }

  /** The residuals of one epoch, from the softmax of every sample's logits. */
  method Residuals(exp: Exponential, x: Matrix, y: seq<nat>, m: Model) returns (diff: Matrix)
    requires Samples(x, y, |m.weights|, |m.bias|) && Fits(m, |m.weights|, |m.bias|)
    ensures diff == AllResiduals(exp, x, y, m)
  {
    var probs := SoftmaxRows(exp, seq(|y|, s requires 0 <= s < |y| => Logits(m, x[s])));
    diff := seq(|y|, s requires 0 <= s < |y| => Residual(probs[s], y[s]));
  }

  /** One pass over the samples: the softmax of every sample's logits, the residuals, and one descent step. */
  method RunEpoch(exp: Exponential, x: Matrix, y: seq<nat>, m: Model) returns (m': Model)
    requires Samples(x, y, |m.weights|, |m.bias|) && Fits(m, |m.weights|, |m.bias|)
    ensures m' == AfterEpoch(exp, x, y, m)
  {
    var diff := Residuals(exp, x, y, m);
    m' := Descended(x, diff, m);
  }

  /** Gradient descent from zero weights over a fixed number of epochs. */
  method TrainSoftmax(exp: Exponential, x: Matrix, y: seq<nat>, features: nat, width: nat)
    returns (m: Model)
    requires Samples(x, y, features, width)
    ensures IsTrained(exp, x, y, features, width, m)
    ensures Fits(m, features, width) && Balanced(m)
  {
    hide AfterEpoch, Untrained, Balanced, Samples;
    m := Untrained(features, width);
    ghost var run := [m];
    var epoch := 0;
    while epoch < EPOCHS
      invariant 0 <= epoch <= EPOCHS && |run| == epoch + 1 && m == run[epoch] && Fits(m, features, width)
      invariant IsRun(exp, x, y, features, width, run)
    {
      m := RunEpoch(exp, x, y, m);
      assert (run + [m])[..|run|] == run;
      run := run + [m];
      epoch := epoch + 1;
    }
    RunBalanced(exp, x, y, features, width, run);
  }

  // ---- query features ----

  /** How many of the tokens are the vocabulary's feature `i`. */
  function Occurrences(vocab: map<Text, nat>, tokens: seq<Text>, i: nat): nat {
    if tokens == [] then 0
    else
      var last := tokens[|tokens| - 1];
      Occurrences(vocab, tokens[..|tokens| - 1], i) + if last in vocab && vocab[last] == i then 1 else 0
  }

  ghost predicate Known(vocab: map<Text, nat>, tokens: seq<Text>) {
    exists t :: t in tokens && t in vocab
  }

  /** Term frequency times inverse document frequency, feature by feature. */
  function Features(vocab: map<Text, nat>, idf: Vec, tokens: seq<Text>): (x: Vec)
    requires tokens != []
    ensures |x| == |idf|
  {
    seq(|idf|, i requires 0 <= i < |idf| => TfIdf(Occurrences(vocab, tokens, i), |tokens|, idf[i]))
  }

  function TfIdf(count: nat, len: nat, idf: real): real
    requires len > 0
  {
    Times(Over(count as real, len as real), idf)
  }

  lemma TfIdfOfNone(len: nat, idf: real)
    requires len > 0
    ensures TfIdf(0, len, idf) == 0.0
  {
  }

  /** The places where a token is the vocabulary's feature `i`. */
  ghost function Places(vocab: map<Text, nat>, tokens: seq<Text>, i: nat): set<nat> {
    set k: nat | k < |tokens| && tokens[k] in vocab && vocab[tokens[k]] == i
  }

  lemma {:induction false} OccurrencesAreCounted(vocab: map<Text, nat>, tokens: seq<Text>, i: nat)
    ensures Occurrences(vocab, tokens, i) == |Places(vocab, tokens, i)|
    decreases |tokens|
  {
    if tokens != [] {
      var n := |tokens| - 1;
      OccurrencesAreCounted(vocab, tokens[..n], i);
      var earlier := Places(vocab, tokens[..n], i);
      if n in Places(vocab, tokens, i) {
        assert Places(vocab, tokens, i) == earlier + {n};
      } else {
        assert Places(vocab, tokens, i) == earlier;
      }
    }
  }

  /** A feature is the share of the query's tokens that are it, times its inverse document frequency. */
  lemma FeatureIsWeightedShare(vocab: map<Text, nat>, idf: Vec, tokens: seq<Text>, i: nat)
    requires tokens != [] && i < |idf|
    ensures Features(vocab, idf, tokens)[i] == |Places(vocab, tokens, i)| as real / |tokens| as real * idf[i]
  {
    OccurrencesAreCounted(vocab, tokens, i);
  }

  function IndexOf(classes: seq<Text>, dir: Text): (i: nat)
    requires dir in classes
    ensures i < |classes| && classes[i] == dir
    ensures forall j | 0 <= j < i :: classes[j] != dir
  {
    if classes[0] == dir then 0 else
      assert dir in classes[1..];
      var i := IndexOf(classes[1..], dir);
      assert forall j | 0 < j < i + 1 :: classes[j] == classes[1..][j - 1];
      i + 1
  }

  // ---- prediction ----

  function Scored(classes: seq<Text>, p: Vec): (s: seq<ScoredPath>)
    requires |p| == |classes|
    ensures |s| == |classes|
  {
    seq(|p|, i requires 0 <= i < |p| => ScoredPath(classes[i], p[i]))
  }

  function TopThree(s: seq<ScoredPath>): seq<ScoredPath> {
    Truncated(Ranked(s), 3)
  }

  /** The top three are candidates, best first, and no candidate left out beats any of them. */
  lemma TopThreeAreBest(s: seq<ScoredPath>)
    ensures Descending(TopThree(s)) && |TopThree(s)| == if |s| <= 3 then |s| else 3
    ensures multiset(TopThree(s)) <= multiset(s)
    ensures forall x | x in s :: x in TopThree(s) || forall t | t in TopThree(s) :: x.score <= t.score
  {
    RankedIsSorted(s);
    TruncatedIsBest(Ranked(s), 3);
    assert |s| == |multiset(s)| == |multiset(Ranked(s))|;
    assert forall x | x in s :: x in multiset(Ranked(s));
  }

  /** Three classes, or all if there are fewer, each with its own probability, best first, and none better left out. */
  ghost predicate BestThree(classes: seq<Text>, p: Vec, r: seq<ScoredPath>)
    requires |p| == |classes|
  {
    && Descending(r) && |r| == (if |classes| <= 3 then |classes| else 3)
    && (forall s | s in r :: exists i :: 0 <= i < |classes| && s.path == classes[i] && s.score == p[i])
    && forall i | 0 <= i < |classes| ::
         (exists s | s in r :: s.path == classes[i] && s.score == p[i]) || forall s | s in r :: p[i] <= s.score
  }

  lemma TopThreeScored(classes: seq<Text>, p: Vec)
    requires |p| == |classes|
    ensures BestThree(classes, p, TopThree(Scored(classes, p)))
  {
    var all := Scored(classes, p);
    TopThreeAreBest(all);
    hide TopThree;
    var r := TopThree(all);
    forall s | s in r ensures exists i :: 0 <= i < |classes| && s.path == classes[i] && s.score == p[i] {
      assert s in multiset(r) && s in multiset(all);
    }
    forall i | 0 <= i < |classes|
      ensures (exists s | s in r :: s.path == classes[i] && s.score == p[i]) || forall s | s in r :: p[i] <= s.score
    {
      assert all[i] in all;
    }
  }

  /** Every known token is one of the features. */
  ghost predicate Indexes(vocab: map<Text, nat>, idf: Vec) {
    |idf| == |vocab| && forall t | t in vocab :: vocab[t] < |idf|
  }

  class Classifier {
    const exp: Exponential
    var vocab: map<Text, nat>
    var idf: Vec
    var classes: seq<Text>
    var model: Model
    var updates: nat
    var version: nat

    /** One feature per vocabulary entry; one output per class; and a balanced model. */
    ghost predicate Valid()
      reads this
    {
      && Indexes(vocab, idf)
      && Fits(model, |idf|, |classes|) && Balanced(model)
    }

    /** A freshly trained classifier. */
    constructor Train(exp: Exponential, vocab: map<Text, nat>, idf: Vec, classes: seq<Text>, x: Matrix, y: seq<nat>)
      requires Indexes(vocab, idf)
      requires Samples(x, y, |idf|, |classes|)
      ensures Valid() && this.exp == exp && this.vocab == vocab && this.idf == idf && this.classes == classes
      ensures updates == 0 && version == 1
      ensures IsTrained(exp, x, y, |idf|, |classes|, model)
    {
      hide IsTrained, Balanced, Samples;
      var m := TrainSoftmax(exp, x, y, |idf|, |classes|);
      this.exp, this.vocab, this.idf, this.classes := exp, vocab, idf, classes;
      model, updates, version := m, 0, 1;
    }

    /** How often each feature occurs among the tokens; features that do not occur are left out. */
    method CountTokens(tokens: seq<Text>) returns (counts: map<nat, nat>)
      requires Indexes(vocab, idf)
      ensures forall i :: i in counts <==> Occurrences(vocab, tokens, i) > 0
      ensures forall i | i in counts :: counts[i] == Occurrences(vocab, tokens, i) && i < |idf|
      ensures counts == map[] <==> !Known(vocab, tokens)
    {
      counts := map[];
      var k := 0;
      while k < |tokens|
        invariant 0 <= k <= |tokens|
        invariant forall i :: i in counts <==> Occurrences(vocab, tokens[..k], i) > 0
        invariant forall i | i in counts :: counts[i] == Occurrences(vocab, tokens[..k], i) && i < |idf|
        invariant counts == map[] <==> forall j | 0 <= j < k :: tokens[j] !in vocab
      {
        var t := tokens[k];
        assert tokens[..k + 1][..k] == tokens[..k];
        if t in vocab {
          var i := vocab[t];
          counts := counts[i := (if i in counts then counts[i] else 0) + 1];
          assert i in counts;
        }
        k := k + 1;
      }
      assert tokens[..k] == tokens;
    }

    /** The query's features; nothing when no token is known. */
    method Vectorize(tokens: seq<Text>) returns (r: Option<Vec>)
      requires Indexes(vocab, idf)
      ensures r.Some? <==> Known(vocab, tokens)
      ensures r.Some? ==> tokens != [] && r.value == Features(vocab, idf, tokens)
    {
      if |vocab| == 0 || tokens == [] {
        return None;
      }
      var counts := CountTokens(tokens);
      if counts == map[] {
        return None;
      }
      var v := Zero(|vocab|);
      var todo := counts.Keys;
      while todo != {}
        invariant todo <= counts.Keys && |v| == |vocab|
        invariant forall i | 0 <= i < |v| ::
                    v[i] == if i in counts && i !in todo then TfIdf(counts[i], |tokens|, idf[i]) else 0.0
      {
        var i :| i in todo;
        v := v[i := TfIdf(counts[i], |tokens|, idf[i])];
        todo := todo - {i};
      }
      forall i | 0 <= i < |v| ensures v[i] == Features(vocab, idf, tokens)[i] {
        TfIdfOfNone(|tokens|, idf[i]);
      }
      return Some(v);
    }

    /** Up to three candidate directories with their probabilities, most likely first. */
    method PredictTop3(tokens: seq<Text>) returns (r: seq<ScoredPath>)
      requires Valid()
      ensures classes == [] || !Known(vocab, tokens) ==> r == []
      ensures classes != [] && Known(vocab, tokens) ==>
                && tokens != []
                && r == TopThree(Scored(classes, Softmax(exp, Logits(model, Features(vocab, idf, tokens)))))
                && BestThree(classes, Softmax(exp, Logits(model, Features(vocab, idf, tokens))), r)
    {
      hide BestThree, Softmax, TopThree;
      if classes == [] {
        return [];
      }
      var x := Vectorize(tokens);
      if x.None? {
        return [];
      }
      TopThreeScored(classes, Softmax(exp, Logits(model, x.value)));
      return TopThree(Scored(classes, Softmax(exp, Logits(model, x.value))));
    }

    /** One step towards predicting `parentDir` for a query; nothing changes when there is nothing to learn. */
    method OnlineUpdate(tokens: seq<Text>, parentDir: Text, lr: real) returns (applied: bool)
      requires Valid()
      modifies `model, `updates, `version
      ensures Valid()
      ensures applied <==> parentDir in classes && Known(vocab, tokens)
      ensures !applied ==> model == old(model) && updates == old(updates) && version == old(version)
      ensures applied ==> updates == old(updates) + 1 && version == old(version) + 1
      ensures applied ==> tokens != []
      ensures applied ==>
                model == Nudged(exp, old(model), Features(vocab, idf, tokens), IndexOf(classes, parentDir), lr)
    {
      if classes == [] {
        return false;
      }
      var c := 0;
      while c < |classes| && classes[c] != parentDir
        invariant 0 <= c <= |classes| && forall j | 0 <= j < c :: classes[j] != parentDir
      {
        c := c + 1;
      }
      if c == |classes| {
        return false;
      }
      var x := Vectorize(tokens);
      if x.None? {
        return false;
      }
      NudgeKeepsBalance(exp, model, x.value, c, lr);
      model := Nudged(exp, model, x.value, c, lr);
      updates := updates + 1;
      version := version + 1;
      return true;
    }
  }
}
