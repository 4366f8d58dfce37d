/**
 Least squares over a daily history, as the cost forecaster computes it: columns of daily values,
 their inner product, and the fitted line as a projection. Costs are exact reals.
 */
module LeastSquares {
  // ---- columns of daily values and their inner product over the first k days

  type Column = nat -> real

  function Sum(f: Column, k: nat): real {
    if k == 0 then 0.0 else Sum(f, k - 1) + f(k - 1)
  }

  function Times(f: Column, g: Column): Column {
    (i: nat) => f(i) * g(i)
  }

  function Dot(f: Column, g: Column, k: nat): real {
    Sum(Times(f, g), k)
  }

  function One(): Column {
    (i: nat) => 1.0
  }

  function X(): Column {
    (i: nat) => i as real
  }

  function Y(y: seq<real>): Column {
    (i: nat) => if i < |y| then y[i] else 0.0
  }

  function Deviation(f: Column, mean: real): Column {
    (i: nat) => f(i) - mean
  }

  datatype Line = Line(intercept: real, slope: real) {
    function At(x: real): real {
      intercept + slope * x
    }
  }

  function Values(line: Line): Column {
    (i: nat) => line.At(i as real)
  }

  function Residual(y: seq<real>, line: Line): Column {
    (i: nat) => Y(y)(i) - line.At(i as real)
  }

  // ---- the regression, as the source computes it

  function MeanX(n: nat): real
    requires n > 0
  {
    Sum(X(), n) / n as real
  }

  function MeanY(y: seq<real>): real
    requires y != []
  {
    Sum(Y(y), |y|) / |y| as real
  }

  function Denominator(n: nat): real
    requires n > 0
  {
    Dot(Deviation(X(), MeanX(n)), Deviation(X(), MeanX(n)), n)
  }

  function Numerator(y: seq<real>): real
    requires y != []
  {
    Dot(Deviation(X(), MeanX(|y|)), Deviation(Y(y), MeanY(y)), |y|)
  }

  /** Slope and intercept, zero-denominator guard included. */
  function Fit(y: seq<real>): Line
    requires y != []
  {
    var denominator := Denominator(|y|);
    var slope := if denominator != 0.0 then Numerator(y) / denominator else 0.0;
    Line(MeanY(y) - slope * MeanX(|y|), slope)
  }

  function SquaredError(y: seq<real>, line: Line): real {
    Dot(Residual(y, line), Residual(y, line), |y|)
  }

  // ---- the inner product is bilinear

  /** The column h is c * f + d * g, day by day. */
  ghost predicate Combines(h: Column, c: real, f: Column, d: real, g: Column) {
    forall i: nat :: h(i) == c * f(i) + d * g(i)
  }

  lemma Distribute(a: real, b: real, c: real)
    ensures a * (b + c) == a * b + a * c
  {
  }

  lemma TimesCombination(u: real, c: real, f: real, d: real, g: real)
    ensures u * (c * f + d * g) == c * (u * f) + d * (u * g)
  {
  }

  lemma TimesAt(u: Column, h: Column, c: real, f: Column, d: real, g: Column, i: nat)
    requires h(i) == c * f(i) + d * g(i)
    ensures Times(u, h)(i) == c * Times(u, f)(i) + d * Times(u, g)(i)
  {
    TimesCombination(u(i), c, f(i), d, g(i));
  }

  lemma {:induction false} SumLinear(h: Column, c: real, f: Column, d: real, g: Column, k: nat)
    requires Combines(h, c, f, d, g)
    ensures Sum(h, k) == c * Sum(f, k) + d * Sum(g, k)
  {
    if k > 0 {
      SumLinear(h, c, f, d, g, k - 1);
      Distribute(c, Sum(f, k - 1), f(k - 1));
      Distribute(d, Sum(g, k - 1), g(k - 1));
    }
  }

  lemma TimesCombines(u: Column, h: Column, c: real, f: Column, d: real, g: Column)
    requires Combines(h, c, f, d, g)
    ensures Combines(Times(u, h), c, Times(u, f), d, Times(u, g))
  {
    forall i: nat ensures Times(u, h)(i) == c * Times(u, f)(i) + d * Times(u, g)(i) {
      TimesAt(u, h, c, f, d, g, i);
    }
  }

  lemma DotLinear(u: Column, h: Column, c: real, f: Column, d: real, g: Column, k: nat)
    requires Combines(h, c, f, d, g)
    ensures Dot(u, h, k) == c * Dot(u, f, k) + d * Dot(u, g, k)
  {
    TimesCombines(u, h, c, f, d, g);
    SumLinear(Times(u, h), c, Times(u, f), d, Times(u, g), k);
  }

  lemma {:induction false} SumAgrees(f: Column, g: Column, k: nat)
    requires forall i: nat :: f(i) == g(i)
    ensures Sum(f, k) == Sum(g, k)
  {
    if k > 0 {
      SumAgrees(f, g, k - 1);
    }
  }

  lemma DotCommutes(f: Column, g: Column, k: nat)
    ensures Dot(f, g, k) == Dot(g, f, k)
  {
    SumAgrees(Times(f, g), Times(g, f), k);
  }

  lemma DotOne(f: Column, k: nat)
    ensures Dot(One(), f, k) == Sum(f, k)
  {
    SumAgrees(Times(One(), f), f, k);
  }

  // ---- projection: the algebra of least squares, for any columns

  /** What is left of v after subtracting s * u is orthogonal to u and to everything both are orthogonal to. */
  lemma RemainderIsOrthogonal(one: Column, u: Column, v: Column, r: Column, s: real, k: nat)
    requires Combines(r, 1.0, v, -s, u)
    requires Dot(one, u, k) == 0.0 && Dot(one, v, k) == 0.0
    requires s * Dot(u, u, k) == Dot(u, v, k)
    ensures Dot(one, r, k) == 0.0 && Dot(u, r, k) == 0.0
  {
    DotLinear(one, r, 1.0, v, -s, u, k);
    DotLinear(u, r, 1.0, v, -s, u, k);
  }

  /** Orthogonality to two columns extends to their combinations. */
  lemma OrthogonalToCombination(r: Column, x: Column, c: real, f: Column, d: real, g: Column, k: nat)
    requires Combines(x, c, f, d, g)
    requires Dot(f, r, k) == 0.0 && Dot(g, r, k) == 0.0
    ensures Dot(x, r, k) == 0.0
  {
    DotLinear(r, x, c, f, d, g, k);
    DotCommutes(r, x, k);
    DotCommutes(r, f, k);
    DotCommutes(r, g, k);
  }

  /** Pythagoras: adding an orthogonal column adds its square. */
  lemma Pythagoras(q: Column, r: Column, e: Column, k: nat)
    requires Combines(q, 1.0, r, 1.0, e)
    requires Dot(e, r, k) == 0.0
    ensures Dot(q, q, k) == Dot(r, r, k) + Dot(e, e, k)
  {
    DotLinear(q, q, 1.0, r, 1.0, e, k);
    DotCommutes(q, r, k);
    DotCommutes(q, e, k);
    DotLinear(r, q, 1.0, r, 1.0, e, k);
    DotLinear(e, q, 1.0, r, 1.0, e, k);
    DotCommutes(e, r, k);
  }

  // ---- closed forms

  lemma {:induction false} OneSum(k: nat)
    ensures Sum(One(), k) == k as real
  {
    if k > 0 {
      OneSum(k - 1);
    }
  }

  lemma {:induction false} XSum(k: nat)
    ensures Sum(X(), k) == k as real * ((k as real - 1.0) / 2.0)
  {
    if k > 0 {
      XSum(k - 1);
    }
  }

  lemma {:induction false} SquareSum(k: nat)
    ensures Dot(X(), X(), k) == (k as real - 1.0) * (k as real) * (2.0 * k as real - 1.0) / 6.0
  {
    if k > 0 {
      SquareSum(k - 1);
      SquareStep(k as real);
      assert Times(X(), X())(k - 1) == (k as real - 1.0) * (k as real - 1.0);
    }
  }

  lemma SquareStep(x: real)
    ensures (x - 2.0) * (x - 1.0) * (2.0 * (x - 1.0) - 1.0) / 6.0 + (x - 1.0) * (x - 1.0) == (x - 1.0) * x * (2.0 * x - 1.0) / 6.0
  {
  }

  lemma DeviationCombines(f: Column, mean: real)
    ensures Combines(Deviation(f, mean), 1.0, f, -mean, One())
    ensures Combines(f, 1.0, Deviation(f, mean), mean, One())
  {
  }

  /** Deviations from the mean sum to zero. */
  lemma DeviationsCancel(f: Column, mean: real, k: nat)
    requires Sum(f, k) == k as real * mean
    ensures Dot(One(), Deviation(f, mean), k) == 0.0
  {
    DeviationCombines(f, mean);
    SumLinear(Deviation(f, mean), 1.0, f, -mean, One(), k);
    OneSum(k);
    DotOne(Deviation(f, mean), k);
  }

  lemma Quotient(a: real, x: real, z: real)
    requires x != 0.0 && a == x * z
    ensures a / x == z
  {
  }

  lemma QuotientBack(a: real, x: real)
    requires x != 0.0
    ensures x * (a / x) == a && a / x * x == a
  {
  }

  lemma Cubic(x: real, mx: real)
    requires mx == (x - 1.0) / 2.0
    ensures (x - 1.0) * x * (2.0 * x - 1.0) / 6.0 - mx * (x * mx) == x * (x * x - 1.0) / 12.0
  {
    var a, b := x * x, x * x * x;
    assert (x - 1.0) * x * (2.0 * x - 1.0) == 2.0 * b - 3.0 * a + x;
    assert (x - 1.0) * (x * (x - 1.0)) == b - 2.0 * a + x;
  }

  /** The squared deviations of the days from their mean, by way of the sums of days and of squares. */
  lemma SquaredDeviations(mx: real, k: nat)
    requires Sum(X(), k) == k as real * mx
    ensures Dot(Deviation(X(), mx), Deviation(X(), mx), k) == Dot(X(), X(), k) - mx * (k as real * mx)
  {
    var u := Deviation(X(), mx);
    DeviationCombines(X(), mx);
    DeviationsCancel(X(), mx, k);
    DotLinear(u, u, 1.0, X(), -mx, One(), k);
    DotCommutes(u, One(), k);
    DotCommutes(u, X(), k);
    DotLinear(X(), u, 1.0, X(), -mx, One(), k);
    DotCommutes(X(), One(), k);
    DotOne(X(), k);
  }

  lemma MeanDay(n: nat)
    requires n > 0
    ensures MeanX(n) == (n as real - 1.0) / 2.0 && Sum(X(), n) == n as real * MeanX(n)
  {
    XSum(n);
    Quotient(Sum(X(), n), n as real, (n as real - 1.0) / 2.0);
  }

  lemma CubicPositive(x: real)
    requires x >= 2.0
    ensures x * (x * x - 1.0) / 12.0 > 0.0
  {
    assert x * x - 1.0 > 0.0;
    assert x * (x * x - 1.0) > 0.0;
  }

  /** The denominator is n(n^2 - 1)/12, so it is positive as soon as there are two points. */
  lemma DenominatorClosedForm(n: nat)
    requires n > 0
    ensures Denominator(n) == n as real * (n as real * n as real - 1.0) / 12.0
    ensures n >= 2 ==> Denominator(n) > 0.0
  {
    MeanDay(n);
    SquareSum(n);
    SquaredDeviations(MeanX(n), n);
    Cubic(n as real, MeanX(n));
    if n >= 2 {
      CubicPositive(n as real);
    }
  }

  // ---- normal equations

  /** A residual is the cost's deviation less the slope times the day's. */
  lemma ResidualCombines(y: seq<real>, mx: real, my: real, line: Line)
    requires line.intercept == my - line.slope * mx
    ensures Combines(Residual(y, line), 1.0, Deviation(Y(y), my), -line.slope, Deviation(X(), mx))
  {
    forall i: nat
      ensures Residual(y, line)(i) == 1.0 * Deviation(Y(y), my)(i) + (-line.slope) * Deviation(X(), mx)(i) {
      var x := i as real;
      assert line.At(x) == my - line.slope * mx + line.slope * x;
      Distribute(line.slope, x, -mx);
    }
  }

  /** A line through the means whose slope solves the deviation equation solves both normal equations. */
  lemma LineSolves(y: seq<real>, mx: real, my: real, line: Line, n: nat)
    requires Sum(X(), n) == n as real * mx && Sum(Y(y), n) == n as real * my
    requires line.slope * Dot(Deviation(X(), mx), Deviation(X(), mx), n) == Dot(Deviation(X(), mx), Deviation(Y(y), my), n)
    requires line.intercept == my - line.slope * mx
    ensures Dot(One(), Residual(y, line), n) == 0.0
    ensures Dot(X(), Residual(y, line), n) == 0.0
  {
    var u, v, r := Deviation(X(), mx), Deviation(Y(y), my), Residual(y, line);
    DeviationsCancel(X(), mx, n);
    DeviationsCancel(Y(y), my, n);
    ResidualCombines(y, mx, my, line);
    RemainderIsOrthogonal(One(), u, v, r, line.slope, n);
    DeviationCombines(X(), mx);
    OrthogonalToCombination(r, X(), 1.0, u, mx, One(), n);
  }

  lemma MeansTimesCount(y: seq<real>)
    requires y != []
    ensures Sum(X(), |y|) == |y| as real * MeanX(|y|) && Sum(Y(y), |y|) == |y| as real * MeanY(y)
  {
    QuotientBack(Sum(X(), |y|), |y| as real);
    QuotientBack(Sum(Y(y), |y|), |y| as real);
  }

  lemma SlopeTimesDenominator(y: seq<real>)
    requires |y| >= 2
    ensures Fit(y).slope * Denominator(|y|) == Numerator(y)
  {
    DenominatorClosedForm(|y|);
    QuotientBack(Numerator(y), Denominator(|y|));
  }

  /** The fitted line satisfies both normal equations: residuals sum to zero and are orthogonal to the day index. */
  lemma NormalEquations(y: seq<real>)
    requires |y| >= 2
    ensures Sum(Residual(y, Fit(y)), |y|) == 0.0
    ensures Dot(X(), Residual(y, Fit(y)), |y|) == 0.0
  {
    MeansTimesCount(y);
    SlopeTimesDenominator(y);
    LineSolves(y, MeanX(|y|), MeanY(y), Fit(y), |y|);
    DotOne(Residual(y, Fit(y)), |y|);
  }

  // ---- optimality

  function Product(a: real, b: real): real {
    a * b
  }

  lemma ProductSign(a: real, b: real)
    requires (a > 0.0 && b > 0.0) || (a < 0.0 && b < 0.0)
    ensures Product(a, b) > 0.0
  {
  }

  lemma SquareSign(x: real, square: real)
    requires square == x * x
    ensures square >= 0.0 && (square == 0.0 <==> x == 0.0)
  {
    if x != 0.0 {
      ProductSign(x, x);
      assert square == Product(x, x);
    }
  }

  lemma {:induction false} SumNonNegative(f: Column, k: nat)
    requires forall j: nat :: f(j) >= 0.0
    ensures Sum(f, k) >= 0.0
  {
    if k > 0 {
      SumNonNegative(f, k - 1);
    }
  }

  lemma SquaresNonNegative(f: Column)
    ensures forall j: nat :: Times(f, f)(j) >= 0.0
  {
    forall j: nat ensures Times(f, f)(j) >= 0.0 {
      SquareSign(f(j), Times(f, f)(j));
    }
  }

  lemma DotNonNegative(f: Column, k: nat)
    ensures Dot(f, f, k) >= 0.0
  {
    SquaresNonNegative(f);
    SumNonNegative(Times(f, f), k);
  }

  lemma {:induction false} SumPositive(f: Column, i: nat, k: nat)
    requires i < k && f(i) > 0.0
    requires forall j: nat :: f(j) >= 0.0
    ensures Sum(f, k) > 0.0
  {
    SumNonNegative(f, k - 1);
    if i < k - 1 {
      SumPositive(f, i, k - 1);
    }
  }

  lemma DotPositive(f: Column, i: nat, k: nat)
    requires i < k && f(i) != 0.0
    ensures Dot(f, f, k) > 0.0
  {
    SquareSign(f(i), Times(f, f)(i));
    SquaresNonNegative(f);
    SumPositive(Times(f, f), i, k);
  }

  /** Two different lines are apart on at least one of the first two days. */
  lemma GapPositive(gap: Line, k: nat)
    requires k >= 2 && (gap.intercept != 0.0 || gap.slope != 0.0)
    ensures Dot(Values(gap), Values(gap), k) > 0.0
  {
    if gap.intercept != 0.0 {
      assert gap.At(0.0) == gap.intercept;
      DotPositive(Values(gap), 0, k);
    } else {
      assert gap.At(1.0) == gap.slope;
      DotPositive(Values(gap), 1, k);
    }
  }

  lemma GapCombines(y: seq<real>, line: Line, other: Line, gap: Line)
    requires gap == Line(line.intercept - other.intercept, line.slope - other.slope)
    ensures Combines(Residual(y, other), 1.0, Residual(y, line), 1.0, Values(gap))
    ensures Combines(Values(gap), gap.intercept, One(), gap.slope, X())
  {
    forall i: nat ensures Residual(y, other)(i) == 1.0 * Residual(y, line)(i) + 1.0 * Values(gap)(i) {
      var x := i as real;
      Distribute(x, line.slope, -other.slope);
      assert gap.At(x) == line.At(x) - other.At(x);
    }
  }

  /** The fitted line is the least-squares line: every other line has a strictly larger squared error. */
  lemma FitIsLeastSquares(y: seq<real>, other: Line)
    requires |y| >= 2 && other != Fit(y)
    ensures SquaredError(y, other) > SquaredError(y, Fit(y))
  {
    NormalEquations(y);
    DotOne(Residual(y, Fit(y)), |y|);
    BestAmongLines(y, Fit(y), other, |y|);
  }

  /** Residuals orthogonal to constants and to days leave no room for a better line. */
  lemma BestAmongLines(y: seq<real>, line: Line, other: Line, k: nat)
    requires k >= 2 && other != line
    requires Dot(One(), Residual(y, line), k) == 0.0 && Dot(X(), Residual(y, line), k) == 0.0
    ensures Dot(Residual(y, other), Residual(y, other), k) > Dot(Residual(y, line), Residual(y, line), k)
  {
    var gap := Line(line.intercept - other.intercept, line.slope - other.slope);
    GapCombines(y, line, other, gap);
    OrthogonalToCombination(Residual(y, line), Values(gap), gap.intercept, One(), gap.slope, X(), k);
    Pythagoras(Residual(y, other), Residual(y, line), Values(gap), k);
    GapPositive(gap, k);
  }

  lemma {:induction false} ZeroColumn(f: Column, k: nat)
    requires forall i: nat :: i < k ==> f(i) == 0.0
    ensures Dot(f, f, k) == 0.0
  {
    if k > 0 {
      ZeroColumn(f, k - 1);
    }
  }

  /** A history lying on a line is fitted by that very line, with no residual error. */
  lemma CollinearHistoryIsRecovered(y: seq<real>, line: Line)
    requires |y| >= 2
    requires forall i :: 0 <= i < |y| ==> y[i] == line.At(i as real)
    ensures Fit(y) == line && SquaredError(y, line) == 0.0
  {
    forall i: nat | i < |y| ensures Residual(y, line)(i) == 0.0 {
      assert Y(y)(i) == line.At(i as real);
    }
    ZeroColumn(Residual(y, line), |y|);
    DotNonNegative(Residual(y, Fit(y)), |y|);
    if Fit(y) != line {
      FitIsLeastSquares(y, line);
    }
  }

  // ---- exchanging two neighbouring costs

  /** One up on day `p`, one down the day after. */
  function Bump(p: nat): Column {
    (i: nat) => if i == p then 1.0 else if i == p + 1 then -1.0 else 0.0
  }

  lemma {:induction false} BumpDot(u: Column, p: nat, k: nat)
    ensures Dot(u, Bump(p), k) == if k <= p then 0.0 else if k == p + 1 then u(p) else u(p) - u(p + 1)
  {
    if k > 0 {
      BumpDot(u, p, k - 1);
      assert Times(u, Bump(p))(k - 1) == u(k - 1) * Bump(p)(k - 1);
    }
  }

  function Exchanged(front: seq<real>, c: real, d: real, back: seq<real>): seq<real> {
    front + [c, d] + back
  }

  lemma ExchangeCombines(front: seq<real>, c: real, d: real, back: seq<real>)
    ensures Combines(Y(Exchanged(front, d, c, back)), 1.0, Y(Exchanged(front, c, d, back)), d - c, Bump(|front|))
  {
  }

  lemma DeviationOfCombination(h: Column, f: Column, c: real, g: Column, mean: real)
    requires Combines(h, 1.0, f, c, g)
    ensures Combines(Deviation(h, mean), 1.0, Deviation(f, mean), c, g)
  {
  }

  lemma BumpsCancel(p: nat, k: nat)
    requires k >= p + 2
    ensures Sum(Bump(p), k) == 0.0
  {
    BumpDot(One(), p, k);
    DotOne(Bump(p), k);
  }

  lemma CombinationWithNothing(a: real, c: real, b: real)
    requires b == 0.0
    ensures 1.0 * a + c * b == a
  {
  }

  lemma ExchangeKeepsSum(front: seq<real>, c: real, d: real, back: seq<real>, n: nat)
    requires n >= |front| + 2
    ensures Sum(Y(Exchanged(front, d, c, back)), n) == Sum(Y(Exchanged(front, c, d, back)), n)
  {
    ExchangeCombines(front, c, d, back);
    SumLinear(Y(Exchanged(front, d, c, back)), 1.0, Y(Exchanged(front, c, d, back)), d - c, Bump(|front|), n);
    BumpsCancel(|front|, n);
    CombinationWithNothing(Sum(Y(Exchanged(front, c, d, back)), n), d - c, Sum(Bump(|front|), n));
  }

  lemma ExchangeKeepsMean(front: seq<real>, c: real, d: real, back: seq<real>)
    ensures MeanY(Exchanged(front, d, c, back)) == MeanY(Exchanged(front, c, d, back))
  {
    ExchangeKeepsSum(front, c, d, back, |front| + 2 + |back|);
  }

  lemma ExchangeMovesNumerator(front: seq<real>, c: real, d: real, back: seq<real>)
    ensures Numerator(Exchanged(front, d, c, back)) == Numerator(Exchanged(front, c, d, back)) - (d - c)
  {
    var y, z, n, p := Exchanged(front, c, d, back), Exchanged(front, d, c, back), |front| + 2 + |back|, |front|;
    var u := Deviation(X(), MeanX(n));
    ExchangeCombines(front, c, d, back);
    ExchangeKeepsMean(front, c, d, back);
    DeviationOfCombination(Y(z), Y(y), d - c, Bump(p), MeanY(y));
    DotLinear(u, Deviation(Y(z), MeanY(y)), 1.0, Deviation(Y(y), MeanY(y)), d - c, Bump(p), n);
    BumpDot(u, p, n);
    assert u(p) - u(p + 1) == -1.0;
  }

  /** Exchanging two different neighbouring costs changes the fitted line: its slope moves. */
  lemma ExchangeMovesLine(front: seq<real>, c: real, d: real, back: seq<real>)
    requires c != d
    ensures Fit(Exchanged(front, c, d, back)).slope != Fit(Exchanged(front, d, c, back)).slope
  {
    SlopeTimesDenominator(Exchanged(front, c, d, back));
    SlopeTimesDenominator(Exchanged(front, d, c, back));
    ExchangeMovesNumerator(front, c, d, back);
  }
}
