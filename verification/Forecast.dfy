/**
 The cost forecaster over a fitted line: a band around the extrapolation, a flat forecast for short
 histories, and the month-end projection. A square root is the nonnegative real whose square is the
 variance, and the current day arrives as a parameter.
 */
module Forecast {
  import opened Ordering
  import opened CostEngine
  import opened LeastSquares
  import Calendar

  // ---- the forecast

  datatype Day = Day(date: int, cost: real)

  datatype Point = Point(date: int, predicted: real, lower: real, upper: real, confidence: real)

  datatype Report = Report(
    points: seq<Point>, total: real, monthEnd: real, average: real, confidence: real, historyCount: nat)

  /** What is asked for, and the day it is asked on. Days are numbered from 1 January of year 1. */
  datatype Ask = Ask(horizon: int, start: int, today: Calendar.Moment, defaultCost: real)

  /** One day's prediction and band before rounding. */
  datatype Estimate = Estimate(predicted: real, lower: real, upper: real)

  function Max(a: real, b: real): real {
    if b > a then b else a
  }

  function Cents(x: real): real {
    RoundHalfEven(x * 100.0) as real / 100.0
  }

  function ByDate(a: Day, b: Day): bool {
    a.date <= b.date
  }

  function Cost(day: Day): real {
    day.cost
  }

  function Costs(history: seq<Day>): (y: seq<real>)
    ensures |y| == |history|
  {
    SortPermutes(ByDate, history);
    Map(Cost, Sort(ByDate, history))
  }

  function Variance(y: seq<real>): real
    requires |y| >= 3
  {
    SquaredError(y, Fit(y)) / (|y| - 2) as real
  }

  ghost predicate IsRoot(root: real, x: real) {
    root >= 0.0 && root * root == x
  }

  /** The margin grows by half its first day's width every thirty days. */
  function Margin(standardError: real, day: nat): real {
    1.96 * standardError * (1.0 + day as real / 30.0 * 0.5)
  }

  function Band(predicted: real, margin: real): Estimate {
    Estimate(predicted, Max(0.0, predicted - margin), predicted + margin)
  }

  /** The extrapolated line, floored at zero, within its band. */
  function LineEstimate(line: Line, n: nat, standardError: real): nat -> Estimate {
    (day: nat) => Band(Max(0.0, line.At((n + day) as real)), Margin(standardError, day))
  }

  function FlatEstimate(base: real): nat -> Estimate {
    (day: nat) =>
      var predicted := Max(0.0, base);
      Estimate(predicted, Max(0.0, predicted * 0.7), predicted * 1.3)
  }

  function Predicted(estimate: nat -> Estimate): Column {
    (day: nat) => estimate(day).predicted
  }

  function PointOf(e: Estimate, date: int, confidence: real): Point {
    Point(date, Cents(e.predicted), Cents(e.lower), Cents(e.upper), confidence)
  }

  function Length(horizon: int): nat {
    if horizon < 0 then 0 else horizon
  }

  // ---- the month-end projection

  predicate ThisMonth(today: Calendar.Moment, date: int)
    requires today.Valid()
  {
    var (first, next) := Calendar.DaySpan(Calendar.Monthly, today);
    first <= date < next
  }

  function Total(values: seq<real>): real {
    Sum(Y(values), |values|)
  }

  function DaysLeft(today: Calendar.Moment): int {
    Calendar.DaysIn(today.year, today.month) - today.day
  }

  function SpentThisMonth(today: Calendar.Moment, history: seq<Day>): real
    requires today.Valid()
  {
    Total(Map(Cost, Filter((day: Day) => ThisMonth(today, day.date), history)))
  }

  function PredictedThisMonth(today: Calendar.Moment, points: seq<Point>): real
    requires today.Valid()
  {
    Shown(Filter((p: Point) => ThisMonth(today, p.date), points))
  }

  /** Spent so far, plus the predictions that fall in the month; without any of those, the average for each day left. */
  function Projected(spent: real, predicted: real, average: real, daysLeft: int): real {
    if daysLeft <= 0 then spent
    else if predicted > 0.0 then spent + predicted
    else spent + average * daysLeft as real
  }

  function MonthEnd(today: Calendar.Moment, history: seq<Day>, points: seq<Point>, average: real): real
    requires today.Valid()
  {
    Projected(SpentThisMonth(today, history), PredictedThisMonth(today, points), average, DaysLeft(today))
  }

  // ---- the report

  ghost predicate Reports(report: Report, estimate: nat -> Estimate, ask: Ask, base: real, confidence: real, count: nat, monthEnd: real) {
    && |report.points| == Length(ask.horizon)
    && (forall d :: 0 <= d < |report.points| ==> report.points[d] == PointOf(estimate(d), ask.start + d, confidence))
    && report.total == Cents(Sum(Predicted(estimate), |report.points|))
    && report.monthEnd == Cents(monthEnd)
    && report.average == Cents(base)
    && report.confidence == confidence
    && report.historyCount == count
  }

  /** A flat forecast projects its base over every day of the month. */
  ghost predicate IsFlat(report: Report, ask: Ask, base: real, confidence: real, count: nat) {
    Reports(report, FlatEstimate(base), ask, base, confidence, count,
            base * Calendar.DaysIn(ask.today.year, ask.today.month) as real)
  }

  ghost predicate IsExtrapolated(report: Report, line: Line, history: seq<Day>, ask: Ask, average: real, standardError: real)
    requires ask.today.Valid()
  {
    Reports(report, LineEstimate(line, |history|, standardError), ask, average, 0.95, |history|,
            MonthEnd(ask.today, history, report.points, average))
  }

  /** What the forecast of a history must be: a default, a flat mean or the extrapolated line, by history length. */
  ghost predicate IsForecast(report: Report, history: seq<Day>, ask: Ask, standardError: real)
    requires ask.today.Valid()
  {
    var y := Costs(history);
    if y == [] then IsFlat(report, ask, ask.defaultCost, 0.5, 0)
    else if |y| < 3 then IsFlat(report, ask, MeanY(y), 0.7, |y|)
    else |Sort(ByDate, history)| == |y| && IsExtrapolated(report, Fit(y), Sort(ByDate, history), ask, MeanY(y), standardError)
  }

  method FallbackForecast(ask: Ask, base: real, confidence: real, count: nat) returns (report: Report)
    ensures IsFlat(report, ask, base, confidence, count)
  {
    var points: seq<Point>, total := [], 0.0;
    for day := 0 to Length(ask.horizon)
      invariant |points| == day
      invariant forall d :: 0 <= d < day ==> points[d] == PointOf(FlatEstimate(base)(d), ask.start + d, confidence)
      invariant total == Sum(Predicted(FlatEstimate(base)), day)
    {
      var predicted := Max(0.0, base);
      var lower, upper := Max(0.0, predicted * 0.7), predicted * 1.3;
      points := points + [Point(ask.start + day, Cents(predicted), Cents(lower), Cents(upper), confidence)];
      total := total + predicted;
    }
    var monthEnd := base * Calendar.DaysIn(ask.today.year, ask.today.month) as real;
    report := Report(points, Cents(total), Cents(monthEnd), Cents(base), confidence, count);
  }

  method ExtrapolatedForecast(line: Line, history: seq<Day>, ask: Ask, average: real, standardError: real) returns (report: Report)
    requires ask.today.Valid()
    ensures IsExtrapolated(report, line, history, ask, average, standardError)
  {
    ghost var estimate := LineEstimate(line, |history|, standardError);
    var points: seq<Point>, total := [], 0.0;
    for day := 0 to Length(ask.horizon)
      invariant |points| == day
      invariant forall d :: 0 <= d < day ==> points[d] == PointOf(estimate(d), ask.start + d, 0.95)
      invariant total == Sum(Predicted(estimate), day)
    {
      var predicted := Max(0.0, line.At((|history| + day) as real));
      var margin := Margin(standardError, day);
      var lower, upper := Max(0.0, predicted - margin), predicted + margin;
      points := points + [Point(ask.start + day, Cents(predicted), Cents(lower), Cents(upper), 0.95)];
      total := total + predicted;
    }
    var monthEnd := MonthEnd(ask.today, history, points, average);
    report := Report(points, Cents(total), Cents(monthEnd), Cents(average), 0.95, |history|);
  }

  /** The square root arrives as a number that squares to the residual variance. */
  method GenerateForecast(history: seq<Day>, ask: Ask, standardError: real) returns (report: Report)
    requires ask.today.Valid()
    requires |history| >= 3 ==> IsRoot(standardError, Variance(Costs(history)))
    ensures IsForecast(report, history, ask, standardError)
    ensures |history| >= 3 ==> BandedByError(report, Costs(history), ask.start)
  {
    SortPermutes(ByDate, history);
    var y := Costs(history);
    if |history| == 0 {
      report := FallbackForecast(ask, ask.defaultCost, 0.5, 0);
    } else if |history| < 3 {
      report := FallbackForecast(ask, MeanY(y), 0.7, |history|);
    } else {
      report := ExtrapolatedForecast(Fit(y), Sort(ByDate, history), ask, MeanY(y), standardError);
      BandIsResidualError(report, history, ask, standardError);
    }
  }

  // ---- what every forecast satisfies

  lemma CentsMonotone(a: real, b: real)
    requires a <= b
    ensures Cents(a) <= Cents(b)
  {
    RoundMonotone(a * 100.0, b * 100.0);
  }

  lemma CentsError(x: real)
    ensures -0.005 <= Cents(x) - x <= 0.005
  {
    RoundingError(x * 100.0);
  }

  ghost predicate Ordered(e: Estimate) {
    0.0 <= e.lower <= e.predicted <= e.upper
  }

  lemma OrderedPoint(e: Estimate, date: int, confidence: real)
    requires Ordered(e)
    ensures var p := PointOf(e, date, confidence); 0.0 <= p.lower <= p.predicted <= p.upper
  {
    CentsMonotone(0.0, e.lower);
    CentsMonotone(e.lower, e.predicted);
    CentsMonotone(e.predicted, e.upper);
    assert Cents(0.0) == 0.0;
  }

  lemma LineEstimateOrdered(line: Line, n: nat, standardError: real, day: nat)
    requires standardError >= 0.0
    ensures Ordered(LineEstimate(line, n, standardError)(day))
  {
    MarginNonNegative(standardError, day);
  }

  lemma MarginNonNegative(standardError: real, day: nat)
    requires standardError >= 0.0
    ensures Margin(standardError, day) >= 0.0
    ensures standardError == 0.0 ==> Margin(standardError, day) == 0.0
  {
    var spread := 1.0 + day as real / 30.0 * 0.5;
    NonNegativeProduct(1.96 * standardError, spread);
  }

  lemma {:induction false} RoundedSum(points: seq<Point>, estimate: nat -> Estimate, k: nat)
    requires k <= |points|
    requires forall d :: 0 <= d < k ==> points[d].predicted == Cents(estimate(d).predicted)
    ensures var shown := Sum(Y(Map((p: Point) => p.predicted, points)), k);
            -0.005 * k as real <= shown - Sum(Predicted(estimate), k) <= 0.005 * k as real
  {
    if k > 0 {
      RoundedSum(points, estimate, k - 1);
      CentsError(estimate(k - 1).predicted);
    }
  }

  function Shown(points: seq<Point>): real {
    Total(Map((p: Point) => p.predicted, points))
  }

  lemma ReportSound(report: Report, estimate: nat -> Estimate, ask: Ask, base: real, confidence: real, count: nat, monthEnd: real)
    requires Reports(report, estimate, ask, base, confidence, count, monthEnd)
    requires forall d: nat :: Ordered(estimate(d))
    ensures Sound(report)
  {
    forall p | p in report.points ensures 0.0 <= p.lower <= p.predicted <= p.upper {
      var d :| 0 <= d < |report.points| && report.points[d] == p;
      OrderedPoint(estimate(d), ask.start + d, confidence);
    }
    RoundedSum(report.points, estimate, |report.points|);
    CentsError(Sum(Predicted(estimate), |report.points|));
  }

  /**
   Every forecast, of any history: nonnegative costs, the prediction inside its band after rounding,
   and a total within half a cent per figure of the daily predictions shown.
   */
  lemma ForecastIsSound(report: Report, history: seq<Day>, ask: Ask, standardError: real)
    requires standardError >= 0.0
    requires ask.today.Valid() && IsForecast(report, history, ask, standardError)
    ensures Sound(report)
  {
    var y := Costs(history);
    if y == [] {
      FlatIsSound(report, ask, ask.defaultCost, 0.5, 0);
    } else if |y| < 3 {
      FlatIsSound(report, ask, MeanY(y), 0.7, |y|);
    } else {
      ExtrapolatedIsSound(report, Fit(y), Sort(ByDate, history), ask, MeanY(y), standardError);
    }
  }

  ghost predicate Sound(report: Report) {
    && (forall p :: p in report.points ==> 0.0 <= p.lower <= p.predicted <= p.upper)
    && -0.005 * (|report.points| + 1) as real <= report.total - Shown(report.points) <= 0.005 * (|report.points| + 1) as real
  }

  lemma FlatIsSound(report: Report, ask: Ask, base: real, confidence: real, count: nat)
    requires IsFlat(report, ask, base, confidence, count)
    ensures Sound(report)
  {
    ReportSound(report, FlatEstimate(base), ask, base, confidence, count,
                base * Calendar.DaysIn(ask.today.year, ask.today.month) as real);
  }

  lemma ExtrapolatedIsSound(report: Report, line: Line, history: seq<Day>, ask: Ask, average: real, standardError: real)
    requires ask.today.Valid() && standardError >= 0.0
    requires IsExtrapolated(report, line, history, ask, average, standardError)
    ensures Sound(report)
  {
    forall d: nat ensures Ordered(LineEstimate(line, |history|, standardError)(d)) {
      LineEstimateOrdered(line, |history|, standardError, d);
    }
    ReportSound(report, LineEstimate(line, |history|, standardError), ask, average, 0.95, |history|,
                MonthEnd(ask.today, history, report.points, average));
  }

  lemma RootOfZero(root: real)
    requires IsRoot(root, 0.0)
    ensures root == 0.0
  {
    SquareSign(root, 0.0);
  }

  /** With any residual error the band strictly widens day by day, by half its first width every thirty days. */
  lemma BandWidens(line: Line, n: nat, standardError: real, day: nat, later: nat)
    requires standardError > 0.0 && day < later
    ensures var near, far := LineEstimate(line, n, standardError)(day), LineEstimate(line, n, standardError)(later);
            && near.upper - near.predicted < far.upper - far.predicted
            && (far.upper - far.predicted) - (near.upper - near.predicted) == 0.98 * standardError * ((later - day) as real / 30.0)
  {
    var s, a, b := 1.96 * standardError, day as real, later as real;
    MarginIs(standardError, day);
    MarginIs(standardError, later);
    Distribute(s / 60.0, b, -a);
    ProductSign(s / 60.0, b - a);
    assert Product(s / 60.0, b - a) == s / 60.0 * (b - a);
  }

  lemma MarginIs(standardError: real, day: nat)
    ensures Margin(standardError, day) == 1.96 * standardError + 1.96 * standardError / 60.0 * day as real
  {
    Distribute(1.96 * standardError, 1.0, day as real / 60.0);
  }

  /** A history that follows a line is extrapolated along that line, with a band of no width. */
  lemma CollinearForecastIsExact(
    report: Report, history: seq<Day>, ask: Ask, standardError: real, line: Line
  )
    requires |history| >= 3
    requires IsRoot(standardError, Variance(Costs(history)))
    requires ask.today.Valid() && IsForecast(report, history, ask, standardError)
    requires forall i :: 0 <= i < |history| ==> Costs(history)[i] == line.At(i as real)
    ensures forall d :: 0 <= d < |report.points| ==>
              var expected := Cents(Max(0.0, line.At((|history| + d) as real)));
              report.points[d] == Point(ask.start + d, expected, expected, expected, 0.95)
  {
    LongHistoryIsExtrapolated(report, history, ask, standardError);
    ZeroVariance(Costs(history), line, standardError);
    ExactPoints(report, line, Sort(ByDate, history), ask, MeanY(Costs(history)));
  }

  lemma LongHistoryIsExtrapolated(report: Report, history: seq<Day>, ask: Ask, standardError: real)
    requires ask.today.Valid() && IsForecast(report, history, ask, standardError)
    requires |history| >= 3
    ensures |Sort(ByDate, history)| == |history|
    ensures IsExtrapolated(report, Fit(Costs(history)), Sort(ByDate, history), ask, MeanY(Costs(history)), standardError)
  {
  }

  lemma ZeroVariance(y: seq<real>, line: Line, standardError: real)
    requires |y| >= 3 && IsRoot(standardError, Variance(y))
    requires forall i :: 0 <= i < |y| ==> y[i] == line.At(i as real)
    ensures Fit(y) == line && standardError == 0.0
  {
    CollinearHistoryIsRecovered(y, line);
    RootOfZero(standardError);
  }

  lemma ExactPoints(report: Report, line: Line, history: seq<Day>, ask: Ask, average: real)
    requires ask.today.Valid() && IsExtrapolated(report, line, history, ask, average, 0.0)
    ensures forall d :: 0 <= d < |report.points| ==>
              var expected := Cents(Max(0.0, line.At((|history| + d) as real)));
              report.points[d] == Point(ask.start + d, expected, expected, expected, 0.95)
  {
    ExactEstimate(line, |history|);
  }

  lemma ExactEstimate(line: Line, n: nat)
    ensures forall d: nat :: var e := LineEstimate(line, n, 0.0)(d);
              e.lower == e.predicted == e.upper == Max(0.0, line.At((n + d) as real))
  {
    forall d: nat ensures Margin(0.0, d) == 0.0 {
      MarginNonNegative(0.0, d);
    }
  }

  // ---- what the month-end projection covers

  lemma {:induction false} FilterPrefix<T>(keep: T -> bool, s: seq<T>, k: nat)
    requires k <= |s|
    requires forall i :: 0 <= i < |s| ==> (keep(s[i]) <==> i < k)
    ensures Filter(keep, s) == s[..k]
  {
    if s != [] {
      FilterPrefix(keep, s[1..], if k == 0 then 0 else k - 1);
      assert k > 0 ==> s[..k] == [s[0]] + s[1..][..k - 1];
    }
  }

  /** How many of the days left in the month a forecast from tomorrow on reaches. */
  function Covered(ask: Ask): nat
    requires ask.today.Valid()
  {
    if Length(ask.horizon) <= DaysLeft(ask.today) then Length(ask.horizon) else DaysLeft(ask.today)
  }

  lemma TomorrowOnwards(today: Calendar.Moment, d: nat)
    requires today.Valid()
    ensures ThisMonth(today, Calendar.DayNumber(today.year, today.month, today.day) + 1 + d) <==> d < DaysLeft(today)
  {
    Calendar.MonthFollowsMonth(today.year, today.month);
  }

  predicate StartsTomorrow(ask: Ask)
    requires ask.today.Valid()
  {
    ask.start == Calendar.DayNumber(ask.today.year, ask.today.month, ask.today.day) + 1
  }

  lemma PointsThisMonth(points: seq<Point>, ask: Ask)
    requires ask.today.Valid() && StartsTomorrow(ask)
    requires |points| == Length(ask.horizon)
    requires forall d :: 0 <= d < |points| ==> points[d].date == ask.start + d
    ensures Covered(ask) <= |points|
    ensures PredictedThisMonth(ask.today, points) == Shown(points[..Covered(ask)])
  {
    forall d | 0 <= d < |points| ensures ThisMonth(ask.today, points[d].date) <==> d < Covered(ask) {
      TomorrowOnwards(ask.today, d);
    }
    FilterPrefix((p: Point) => ThisMonth(ask.today, p.date), points, Covered(ask));
  }

  lemma ExtrapolatedParts(report: Report, history: seq<Day>, ask: Ask, standardError: real)
    requires ask.today.Valid() && IsForecast(report, history, ask, standardError)
    requires |history| >= 3
    ensures |report.points| == Length(ask.horizon)
    ensures forall d :: 0 <= d < |report.points| ==> report.points[d].date == ask.start + d
    ensures report.monthEnd == Cents(MonthEnd(ask.today, Sort(ByDate, history), report.points, MeanY(Costs(history))))
  {
  }

  /**
   A forecast that starts tomorrow projects the month as what was spent plus the predictions of the
   days it reaches. A horizon shorter than the days left leaves the rest of the month at nothing,
   as long as any prediction shows; only otherwise is every day left counted, at the average.
   */
  lemma MonthEndCoversHorizonOnly(report: Report, history: seq<Day>, ask: Ask, standardError: real)
    requires ask.today.Valid() && IsForecast(report, history, ask, standardError)
    requires |history| >= 3 && StartsTomorrow(ask)
    ensures Covered(ask) <= |report.points|
    ensures var spent, reached := SpentThisMonth(ask.today, Sort(ByDate, history)), Shown(report.points[..Covered(ask)]);
            report.monthEnd == Cents(Projected(spent, reached, MeanY(Costs(history)), DaysLeft(ask.today)))
  {
    ExtrapolatedParts(report, history, ask, standardError);
    PointsThisMonth(report.points, ask);
  }

  // ---- does the order of the history matter?

  lemma SameTwo(y: seq<real>, z: seq<real>)
    requires |y| == 2 && multiset(y) == multiset(z)
    ensures |z| == 2 && y[0] + y[1] == z[0] + z[1]
  {
    assert |multiset(y)| == |z|;
    assert y == [y[0], y[1]] && z == [z[0], z[1]];
    assert y[0] in multiset(z) && y[1] in multiset(z) && z[0] in multiset(y) && z[1] in multiset(y);
  }

  /** Two figures at most: their mean is the same either way. */
  lemma ShortMean(y: seq<real>, z: seq<real>)
    requires y != [] && |y| < 3 && multiset(y) == multiset(z)
    ensures z != [] && MeanY(y) == MeanY(z)
  {
    assert |multiset(y)| == |y| == |z|;
    if |y| == 2 {
      SameTwo(y, z);
      PairSum(y);
      PairSum(z);
    } else {
      assert y[0] in multiset(z);
      assert y == [y[0]] && z == [z[0]];
    }
  }

  lemma PairSum(y: seq<real>)
    requires |y| == 2
    ensures Sum(Y(y), 2) == y[0] + y[1]
  {
    assert Sum(Y(y), 1) == y[0];
  }

  /** With one figure per date, or too few to fit a line, the order in which the history arrives does not matter. */
  lemma ForecastOrderIndependent(report: Report, a: seq<Day>, b: seq<Day>, ask: Ask, standardError: real)
    requires ask.today.Valid()
    requires multiset(a) == multiset(b) && (|a| < 3 || NoTies(ByDate, a))
    ensures IsForecast(report, a, ask, standardError) <==> IsForecast(report, b, ask, standardError)
  {
    if |a| < 3 {
      assert |multiset(a)| == |a| == |b|;
      SortPermutes(ByDate, a);
      SortPermutes(ByDate, b);
      MapContents(Cost, Sort(ByDate, a), Sort(ByDate, b));
      if a != [] {
        ShortMean(Costs(a), Costs(b));
      }
    } else {
      SortOrderIndependent(ByDate, a, b);
      assert Costs(a) == Costs(b);
    }
  }

  /** No reordering of the history changes the fitted line. */
  ghost predicate LineOrderIndependent(a: seq<Day>)
    requires a != []
  {
    forall b: seq<Day> :: multiset(b) == multiset(a) ==> b != [] && Fit(Costs(b)) == Fit(Costs(a))
  }

  /** Where a day of this date is inserted. */
  function Place(s: seq<Day>, date: int): (p: nat)
    ensures p <= |s|
  {
    if s == [] || date <= s[0].date then 0 else 1 + Place(s[1..], date)
  }

  /** Two figures of one date stand next to each other in the sorted history, in the order they arrived. */
  lemma {:induction false} InsertPair(x: Day, y: Day, s: seq<Day>)
    requires x.date == y.date
    ensures Insert(ByDate, x, Insert(ByDate, y, s)) == s[..Place(s, x.date)] + [x, y] + s[Place(s, x.date)..]
  {
    if s == [] || ByDate(x, s[0]) {
      assert ([y] + s)[1..] == s;
    } else {
      InsertPair(x, y, s[1..]);
      assert ([s[0]] + Insert(ByDate, y, s[1..]))[1..] == Insert(ByDate, y, s[1..]);
    }
  }

  lemma CostsOfPair(x: Day, y: Day, rest: seq<Day>) returns (front: seq<real>, back: seq<real>)
    requires x.date == y.date
    ensures Costs([x, y] + rest) == Exchanged(front, x.cost, y.cost, back)
    ensures Costs([y, x] + rest) == Exchanged(front, y.cost, x.cost, back)
  {
    var sorted := Sort(ByDate, rest);
    var p := Place(sorted, x.date);
    InsertPair(x, y, sorted);
    InsertPair(y, x, sorted);
    SortPair(x, y, rest);
    SortPair(y, x, rest);
    MapPair(sorted[..p], x, y, sorted[p..]);
    MapPair(sorted[..p], y, x, sorted[p..]);
    front, back := Map(Cost, sorted[..p]), Map(Cost, sorted[p..]);
  }

  lemma MapPair(front: seq<Day>, x: Day, y: Day, back: seq<Day>)
    ensures Map(Cost, front + [x, y] + back) == Exchanged(Map(Cost, front), x.cost, y.cost, Map(Cost, back))
  {
    var days, costs := front + [x, y] + back, Exchanged(Map(Cost, front), x.cost, y.cost, Map(Cost, back));
    assert |days| == |costs|;
    forall i | 0 <= i < |days| ensures Cost(days[i]) == costs[i] {
    }
  }

  lemma SortPair(x: Day, y: Day, rest: seq<Day>)
    ensures Sort(ByDate, [x, y] + rest) == Insert(ByDate, x, Insert(ByDate, y, Sort(ByDate, rest)))
  {
    assert ([x, y] + rest)[1..] == [y] + rest && ([y] + rest)[1..] == rest;
  }

  lemma TieMovesLine(a: seq<Day>, i: nat, j: nat)
    requires i < j < |a| && a[i].date == a[j].date && a[i].cost != a[j].cost
    ensures !LineOrderIndependent(a)
  {
    var x, y, rest := a[i], a[j], WithoutTwo(a, i, j);
    TwoToFront(a, i, j);
    var front, back := CostsOfPair(x, y, rest);
    ExchangeMovesLine(front, x.cost, y.cost, back);
    assert [x, y] + rest != [] && [y, x] + rest != [];
    assert Fit(Costs([x, y] + rest)) != Fit(Costs(a)) || Fit(Costs([y, x] + rest)) != Fit(Costs(a));
  }

  /** The fitted line is independent of arrival order exactly when no date carries two different figures. */
  lemma LineOrderIndependentExactlyWhen(a: seq<Day>)
    requires a != []
    ensures LineOrderIndependent(a) <==> NoTies(ByDate, a)
  {
    if NoTies(ByDate, a) {
      forall b: seq<Day> | multiset(b) == multiset(a) ensures b != [] && Fit(Costs(b)) == Fit(Costs(a)) {
        assert a[0] in multiset(b);
        SortOrderIndependent(ByDate, a, b);
        assert Costs(a) == Costs(b);
      }
    } else {
      var i, j := TiedPair(ByDate, a);
      TieMovesLine(a, i, j);
    }
  }

  /** Two figures of one date, then a later one: the line depends on which of the two arrived first. */
  lemma TwoFiguresOfOneDate()
    ensures !LineOrderIndependent([Day(0, 1.0), Day(0, 2.0), Day(1, 5.0)])
  {
    TieMovesLine([Day(0, 1.0), Day(0, 2.0), Day(1, 5.0)], 0, 1);
  }

  // ---- a report, told from its history

  /** The squared distance of each day's cost from a line. */
  function Misses(y: seq<real>, line: Line): Column {
    (i: nat) =>
      if i < |y| then (y[i] - (line.intercept + line.slope * i as real)) * (y[i] - (line.intercept + line.slope * i as real)) else 0.0
  }

  lemma MissIsResidual(y: seq<real>, line: Line, i: nat)
    requires i < |y|
    ensures Misses(y, line)(i) == Times(Residual(y, line), Residual(y, line))(i)
  {
    var x := i as real;
    var miss, r := y[i] - (line.intercept + line.slope * x), Residual(y, line)(i);
    assert Y(y)(i) == y[i];
    assert r == Y(y)(i) - line.At(x);
    assert Times(Residual(y, line), Residual(y, line))(i) == r * r;
    assert Misses(y, line)(i) == miss * miss;
    SameSquare(r, miss);
  }

  lemma SameSquare(a: real, b: real)
    requires a == b
    ensures a * a == b * b
  {
  }

  lemma {:induction false} MissesAddUp(y: seq<real>, line: Line, k: nat)
    requires k <= |y|
    ensures Sum(Misses(y, line), k) == Dot(Residual(y, line), Residual(y, line), k)
  {
    if k > 0 {
      MissesAddUp(y, line, k - 1);
      MissIsResidual(y, line, k - 1);
    }
  }

  ghost predicate MissesLeast(y: seq<real>, line: Line) {
    forall other: Line :: Sum(Misses(y, line), |y|) <= Sum(Misses(y, other), |y|)
  }

  lemma FitMissesLeast(y: seq<real>)
    requires |y| >= 2
    ensures MissesLeast(y, Fit(y))
  {
    forall other: Line ensures Sum(Misses(y, Fit(y)), |y|) <= Sum(Misses(y, other), |y|) {
      MissesAddUp(y, Fit(y), |y|);
      MissesAddUp(y, other, |y|);
      if other != Fit(y) {
        FitIsLeastSquares(y, other);
      }
    }
  }

  /** A day's prediction on a line, floored at zero, and a band whose half-width grows by a sixtieth of the first day's each day. */
  function Around(line: Line, n: nat, width: real, d: nat): Estimate {
    var centre := Max(0.0, line.intercept + line.slope * (n + d) as real);
    var half := width * (1.0 + d as real / 60.0);
    Estimate(centre, Max(0.0, centre - half), centre + half)
  }

  /** Each point shows its day's estimate to the cent. */
  ghost predicate Banded(points: seq<Point>, n: nat, line: Line, width: real, start: int) {
    forall d :: 0 <= d < |points| ==> points[d] == PointOf(Around(line, n, width, d), start + d, 0.95)
  }

  lemma MarginFromFirst(standardError: real, width: real, d: nat)
    requires width == 1.96 * standardError
    ensures Margin(standardError, d) == width * (1.0 + d as real / 60.0)
  {
  }

  lemma EstimateIsAround(line: Line, n: nat, standardError: real, width: real, d: nat)
    requires width == 1.96 * standardError
    ensures LineEstimate(line, n, standardError)(d) == Around(line, n, width, d)
  {
    MarginFromFirst(standardError, width, d);
    var x := (n + d) as real;
    assert line.At(x) == line.intercept + line.slope * x;
  }

  lemma SamePoint(a: Estimate, b: Estimate, date: int)
    requires a == b
    ensures PointOf(a, date, 0.95) == PointOf(b, date, 0.95)
  {
  }

  lemma PointIsAround(line: Line, n: nat, standardError: real, width: real, d: nat, date: int)
    requires width == 1.96 * standardError
    ensures PointOf(LineEstimate(line, n, standardError)(d), date, 0.95) == PointOf(Around(line, n, width, d), date, 0.95)
  {
    EstimateIsAround(line, n, standardError, width, d);
    SamePoint(LineEstimate(line, n, standardError)(d), Around(line, n, width, d), date);
  }

  lemma WidthSquared(root: real, misses: real, n: real, width: real)
    requires n > 0.0 && root * root == misses / n && width == 1.96 * root
    ensures width * width * n == 1.96 * 1.96 * misses
  {
    assert misses / n * n == misses;
    assert width * width == 1.96 * 1.96 * (root * root);
  }

  /**
   The band of every report on three or more days: a line that no other line comes closer to the
   history than, and a first half-width whose square, times the days less two, is 1.96 squared times
   the sum of the squared distances.
   */
  ghost predicate BandedByError(report: Report, y: seq<real>, start: int) {
    exists line, width :: BandOfError(report, y, start, line, width)
  }

  ghost predicate BandOfError(report: Report, y: seq<real>, start: int, line: Line, width: real) {
    && MissesLeast(y, line)
    && width >= 0.0
    && width * width * (|y| - 2) as real == 1.96 * 1.96 * Sum(Misses(y, line), |y|)
    && Banded(report.points, |y|, line, width, start)
  }

  lemma BandedFrom(report: Report, line: Line, history: seq<Day>, ask: Ask, average: real, standardError: real, width: real)
    requires ask.today.Valid() && IsExtrapolated(report, line, history, ask, average, standardError)
    requires width == 1.96 * standardError
    ensures Banded(report.points, |history|, line, width, ask.start)
  {
    forall d | 0 <= d < |report.points|
      ensures report.points[d] == PointOf(Around(line, |history|, width, d), ask.start + d, 0.95) {
      PointIsAround(line, |history|, standardError, width, d, ask.start + d);
    }
  }

  lemma BandOfRoot(report: Report, y: seq<real>, start: int, line: Line, root: real, misses: real, width: real)
    requires |y| >= 3 && MissesLeast(y, line) && misses == Sum(Misses(y, line), |y|)
    requires root >= 0.0 && root * root == misses / (|y| - 2) as real && width == 1.96 * root
    requires Banded(report.points, |y|, line, width, start)
    ensures BandedByError(report, y, start)
  {
    WidthSquared(root, misses, (|y| - 2) as real, width);
    assert BandOfError(report, y, start, line, width);
  }

  lemma RootOfMisses(y: seq<real>, root: real)
    requires |y| >= 3 && IsRoot(root, Variance(y))
    ensures root >= 0.0 && root * root == Sum(Misses(y, Fit(y)), |y|) / (|y| - 2) as real
  {
    MissesAddUp(y, Fit(y), |y|);
  }

  lemma LongBand(report: Report, history: seq<Day>, ask: Ask, standardError: real, line: Line, width: real)
    requires ask.today.Valid() && IsForecast(report, history, ask, standardError)
    requires |history| >= 3 && line == Fit(Costs(history)) && width == 1.96 * standardError
    ensures Banded(report.points, |Costs(history)|, line, width, ask.start)
  {
    LongHistoryIsExtrapolated(report, history, ask, standardError);
    BandedFrom(report, line, Sort(ByDate, history), ask, MeanY(Costs(history)), standardError, width);
  }

  lemma ResidualBand(report: Report, y: seq<real>, start: int, standardError: real, width: real)
    requires |y| >= 3 && IsRoot(standardError, Variance(y)) && width == 1.96 * standardError
    requires Banded(report.points, |y|, Fit(y), width, start)
    ensures BandedByError(report, y, start)
  {
    FitMissesLeast(y);
    RootOfMisses(y, standardError);
    BandOfRoot(report, y, start, Fit(y), standardError, Sum(Misses(y, Fit(y)), |y|), width);
  }

  lemma BandIsResidualError(report: Report, history: seq<Day>, ask: Ask, standardError: real)
    requires ask.today.Valid() && IsForecast(report, history, ask, standardError)
    requires |history| >= 3 && IsRoot(standardError, Variance(Costs(history)))
    ensures BandedByError(report, Costs(history), ask.start)
  {
    var y, width := Costs(history), 1.96 * standardError;
    LongBand(report, history, ask, standardError, Fit(y), width);
    ResidualBand(report, y, ask.start, standardError, width);
  }

  /** The points of a flat forecast. */
  ghost predicate FlatPoints(points: seq<Point>, base: real, start: int, confidence: real) {
    forall d :: 0 <= d < |points| ==>
      var centre := if base > 0.0 then base else 0.0;
      points[d] == Point(start + d, Cents(centre), Cents(0.7 * centre), Cents(1.3 * centre), confidence)
  }

  lemma FlatForecastExactly(report: Report, ask: Ask, base: real, confidence: real, count: nat)
    requires IsFlat(report, ask, base, confidence, count)
    ensures FlatPoints(report.points, base, ask.start, confidence)
  {
  }

  function Added(y: seq<real>): real {
    if y == [] then 0.0 else Added(y[..|y| - 1]) + y[|y| - 1]
  }

  lemma {:induction false} AddedIsSum(y: seq<real>, k: nat)
    requires k <= |y|
    ensures Sum(Y(y), k) == Added(y[..k])
  {
    if k > 0 {
      AddedIsSum(y, k - 1);
      assert y[..k][..k - 1] == y[..k - 1];
    }
  }

  /** The costs a forecast works on: the history in order of dates. */
  lemma CostsAreByDate(history: seq<Day>)
    ensures var days := Sort(ByDate, history);
            && multiset(days) == multiset(history)
            && |Costs(history)| == |days|
            && (forall i :: 0 <= i < |days| ==> Costs(history)[i] == days[i].cost)
            && (forall i, j :: 0 <= i < j < |days| ==> days[i].date <= days[j].date)
  {
    var days := Sort(ByDate, history);
    SortPermutes(ByDate, history);
    SortSorts(ByDate, history);
    forall i | 0 <= i < |days| ensures Costs(history)[i] == days[i].cost {
      assert Cost(days[i]) == days[i].cost;
    }
    forall i, j | 0 <= i < j < |days| ensures days[i].date <= days[j].date {
      assert ByDate(days[i], days[j]);
    }
  }

  /**
   What any report says besides: as many points as the horizon has days, the history counted, the
   average shown to the cent, and the confidence that goes with the history's length; without three
   days it is flat, around the default cost or the average.
   */
  lemma ReportExactly(report: Report, history: seq<Day>, ask: Ask, standardError: real)
    requires ask.today.Valid() && IsForecast(report, history, ask, standardError)
    ensures |report.points| == if ask.horizon > 0 then ask.horizon else 0
    ensures report.historyCount == |history|
    ensures report.confidence == if |history| == 0 then 0.5 else if |history| < 3 then 0.7 else 0.95
    ensures report.average == Cents(if |history| == 0 then ask.defaultCost else Added(Costs(history)) / |history| as real)
    ensures |history| < 3 ==>
              FlatPoints(report.points, if |history| == 0 then ask.defaultCost else Added(Costs(history)) / |history| as real,
                         ask.start, report.confidence)
  {
    var y := Costs(history);
    AddedIsSum(y, |y|);
    assert y[..|y|] == y;
    if y == [] {
      FlatForecastExactly(report, ask, ask.defaultCost, 0.5, 0);
    } else if |y| < 3 {
      FlatForecastExactly(report, ask, MeanY(y), 0.7, |y|);
    } else {
      LongHistoryIsExtrapolated(report, history, ask, standardError);
    }
  }

  // ---- the month-end figure, from the history and the points shown

  /** The sum of a figure over the members wanted. */
  function AddedWhere<T>(figure: T -> real, wanted: T -> bool, s: seq<T>): real {
    if s == [] then 0.0
    else
      var n := |s| - 1;
      AddedWhere(figure, wanted, s[..n]) + if wanted(s[n]) then figure(s[n]) else 0.0
  }

  lemma FilterLast<T>(keep: T -> bool, s: seq<T>)
    requires s != []
    ensures var n := |s| - 1;
            Filter(keep, s) == Filter(keep, s[..n]) + if keep(s[n]) then [s[n]] else []
  {
    var n := |s| - 1;
    FilterConcat(keep, s[..n], s[n..]);
    assert s == s[..n] + s[n..];
  }

  lemma AddedLast<T>(f: T -> real, s: seq<T>, x: T)
    ensures Added(Map(f, s + [x])) == Added(Map(f, s)) + f(x)
  {
    var mapped := Map(f, s + [x]);
    assert mapped[..|s|] == Map(f, s) && mapped[|s|] == f(x);
  }

  lemma {:induction false} KeptAddUp<T(!new)>(figure: T -> real, keep: T -> bool, s: seq<T>, f: T -> real, wanted: T -> bool)
    requires forall x :: f(x) == figure(x)
    requires forall x :: keep(x) <==> wanted(x)
    ensures Added(Map(f, Filter(keep, s))) == AddedWhere(figure, wanted, s)
  {
    if s != [] {
      var n := |s| - 1;
      var x, front := s[n], Filter(keep, s[..n]);
      KeptAddUp(figure, keep, s[..n], f, wanted);
      FilterLast(keep, s);
      AddedLast(f, front, x);
      assert AddedWhere(figure, wanted, s) == AddedWhere(figure, wanted, s[..n]) + if wanted(x) then figure(x) else 0.0;
      assert front + [] == front;
    }
  }

  lemma TotalIsAdded(values: seq<real>)
    ensures Total(values) == Added(values)
  {
    AddedIsSum(values, |values|);
    assert values[..|values|] == values;
  }

  /** From the first day of the month of `today` to its last. */
  predicate InMonthOf(today: Calendar.Moment, date: int)
    requires today.Valid()
  {
    var first := Calendar.DayNumber(today.year, today.month, 1);
    first <= date < first + Calendar.DaysIn(today.year, today.month)
  }

  lemma MonthIsSpan(today: Calendar.Moment, date: int)
    requires today.Valid()
    ensures ThisMonth(today, date) <==> InMonthOf(today, date)
  {
    Calendar.MonthFollowsMonth(today.year, today.month);
  }

  /** What was spent, plus the predictions while days are left; without any, the average for each day left. */
  predicate EndsAt(monthEnd: real, spent: real, predicted: real, average: real, left: int) {
    && (left <= 0 ==> monthEnd == Cents(spent))
    && (left > 0 && predicted > 0.0 ==> monthEnd == Cents(spent + predicted))
    && (left > 0 && predicted <= 0.0 ==> monthEnd == Cents(spent + average * left as real))
  }

  lemma ProjectedEndsAt(spent: real, predicted: real, average: real, left: int)
    ensures EndsAt(Cents(Projected(spent, predicted, average, left)), spent, predicted, average, left)
  {
  }

  function Average(y: seq<real>): real
    requires y != []
  {
    Added(y) / |y| as real
  }

  lemma MeanIsAverage(y: seq<real>)
    requires y != []
    ensures MeanY(y) == Average(y)
  {
    TotalIsAdded(y);
  }

  function CostInMonth(today: Calendar.Moment, days: seq<Day>): real
    requires today.Valid()
  {
    AddedWhere((d: Day) => d.cost, (d: Day) => InMonthOf(today, d.date), days)
  }

  function ShownInMonth(today: Calendar.Moment, points: seq<Point>): real
    requires today.Valid()
  {
    AddedWhere((p: Point) => p.predicted, (p: Point) => InMonthOf(today, p.date), points)
  }

  lemma MonthFigures(today: Calendar.Moment, days: seq<Day>, points: seq<Point>)
    requires today.Valid()
    ensures SpentThisMonth(today, days) == CostInMonth(today, days)
    ensures PredictedThisMonth(today, points) == ShownInMonth(today, points)
  {
    forall date ensures ThisMonth(today, date) <==> InMonthOf(today, date) {
      MonthIsSpan(today, date);
    }
    TotalIsAdded(Map(Cost, Filter((d: Day) => ThisMonth(today, d.date), days)));
    TotalIsAdded(Map((p: Point) => p.predicted, Filter((p: Point) => ThisMonth(today, p.date), points)));
    KeptAddUp((d: Day) => d.cost, (d: Day) => ThisMonth(today, d.date), days, Cost, (d: Day) => InMonthOf(today, d.date));
    KeptAddUp((p: Point) => p.predicted, (p: Point) => ThisMonth(today, p.date), points,
              (p: Point) => p.predicted, (p: Point) => InMonthOf(today, p.date));
  }

  lemma ReportedEnd(report: Report, estimate: nat -> Estimate, ask: Ask, base: real, confidence: real, count: nat, monthEnd: real)
    requires Reports(report, estimate, ask, base, confidence, count, monthEnd)
    ensures report.monthEnd == Cents(monthEnd)
  {
  }

  lemma LongMonthEnd(report: Report, history: seq<Day>, ask: Ask, standardError: real)
    requires ask.today.Valid() && IsForecast(report, history, ask, standardError)
    requires |history| >= 3
    ensures report.monthEnd == Cents(MonthEnd(ask.today, Sort(ByDate, history), report.points, MeanY(Costs(history))))
  {
    var y, days := Costs(history), Sort(ByDate, history);
    ReportedEnd(report, LineEstimate(Fit(y), |days|, standardError), ask, MeanY(y), 0.95, |days|, MonthEnd(ask.today, days, report.points, MeanY(y)));
  }

  lemma MonthEndOf(
    report: Report, history: seq<Day>, ask: Ask, standardError: real, spent: real, predicted: real, average: real, left: int
  )
    requires ask.today.Valid() && IsForecast(report, history, ask, standardError)
    requires |history| >= 3
    requires spent == SpentThisMonth(ask.today, Sort(ByDate, history)) && predicted == PredictedThisMonth(ask.today, report.points)
    requires average == MeanY(Costs(history)) && left == DaysLeft(ask.today)
    ensures EndsAt(report.monthEnd, spent, predicted, average, left)
  {
    LongMonthEnd(report, history, ask, standardError);
    ProjectedEndsAt(spent, predicted, average, left);
  }

  /** Three days or more: the month ends at its costs in the history and the predictions shown for it, or the daily average in their place. */
  lemma MonthEndExactly(
    report: Report, history: seq<Day>, ask: Ask, standardError: real, spent: real, predicted: real, average: real, left: int
  )
    requires ask.today.Valid() && IsForecast(report, history, ask, standardError)
    requires |history| >= 3
    requires spent == CostInMonth(ask.today, Sort(ByDate, history)) && predicted == ShownInMonth(ask.today, report.points)
    requires average == Average(Costs(history)) && left == Calendar.DaysIn(ask.today.year, ask.today.month) - ask.today.day
    ensures EndsAt(report.monthEnd, spent, predicted, average, left)
  {
    MonthFigures(ask.today, Sort(ByDate, history), report.points);
    MeanIsAverage(Costs(history));
    MonthEndOf(report, history, ask, standardError, spent, predicted, average, left);
  }

  lemma FlatMonthEnd(report: Report, ask: Ask, base: real, confidence: real, count: nat, monthEnd: real)
    requires IsFlat(report, ask, base, confidence, count)
    requires monthEnd == base * Calendar.DaysIn(ask.today.year, ask.today.month) as real
    ensures report.monthEnd == Cents(monthEnd)
  {
    ReportedEnd(report, FlatEstimate(base), ask, base, confidence, count, monthEnd);
  }

  /** With fewer than three days it ends at the base, the default cost or the average, for each day of the whole month. */
  lemma FlatMonthEndExactly(report: Report, history: seq<Day>, ask: Ask, standardError: real, base: real)
    requires ask.today.Valid() && IsForecast(report, history, ask, standardError)
    requires |history| < 3
    requires base == if |history| == 0 then ask.defaultCost else Average(Costs(history))
    ensures report.monthEnd == Cents(base * Calendar.DaysIn(ask.today.year, ask.today.month) as real)
  {
    if |history| == 0 {
      FlatMonthEnd(report, ask, base, 0.5, 0, base * Calendar.DaysIn(ask.today.year, ask.today.month) as real);
    } else {
      MeanIsAverage(Costs(history));
      FlatMonthEnd(report, ask, base, 0.7, |history|, base * Calendar.DaysIn(ask.today.year, ask.today.month) as real);
    }
  }
}
