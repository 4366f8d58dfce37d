/**
 When the month-end projection of a forecast covers the month: the spend so far plus a prediction for
 each day left. Days of the month that the forecast predicts again and days left that it does not
 reach are what sets the two apart, whatever day the forecast starts on.
 */
module MonthProjection {
  import opened Ordering
  import opened LeastSquares
  import opened Forecast
  import Calendar

  type Figures = int -> real

  function SumRange(g: Figures, lo: int, hi: int): real
    decreases hi - lo
  {
    if hi <= lo then 0.0 else SumRange(g, lo, hi - 1) + g(hi - 1)
  }

  function Later(a: int, b: int): int {
    if a >= b then a else b
  }

  function Earlier(a: int, b: int): int {
    if a <= b then a else b
  }

  function Inside(g: Figures, lo: int, hi: int): Figures {
    (date: int) => if lo <= date < hi then g(date) else 0.0
  }

  function Outside(g: Figures, lo: int, hi: int): Figures {
    (date: int) => if lo <= date < hi then 0.0 else g(date)
  }

  lemma {:induction false} SumSplits(g: Figures, a: int, b: int, lo: int, hi: int)
    ensures SumRange(g, lo, hi) == SumRange(Inside(g, a, b), lo, hi) + SumRange(Outside(g, a, b), lo, hi)
    decreases hi - lo
  {
    if lo < hi {
      SumSplits(g, a, b, lo, hi - 1);
    }
  }

  /** What two ranges share sums the same from either side. */
  lemma {:induction false} InsideIsOverlap(g: Figures, a: int, b: int, lo: int, hi: int)
    ensures SumRange(Inside(g, a, b), lo, hi) == SumRange(g, Later(a, lo), Earlier(b, hi))
    decreases hi - lo
  {
    if lo < hi {
      InsideIsOverlap(g, a, b, lo, hi - 1);
    }
  }

  lemma {:induction false} SumNonNegative(g: Figures, lo: int, hi: int)
    requires forall d: int :: g(d) >= 0.0
    ensures SumRange(g, lo, hi) >= 0.0
    ensures SumRange(g, lo, hi) == 0.0 <==> (forall d :: lo <= d < hi ==> g(d) == 0.0)
    decreases hi - lo
  {
    if lo < hi {
      SumNonNegative(g, lo, hi - 1);
    }
  }

  // ---- the predictions that fall in the month

  /** The figure shown for a date, on the line extended in either direction. */
  function FigureAt(line: Line, n: nat, start: int): Figures {
    (date: int) => Cents(Max(0.0, line.At((n + date - start) as real)))
  }

  lemma {:induction false} PrefixIsRange(values: seq<real>, g: Figures, first: int, k: nat)
    requires k <= |values| && forall d :: 0 <= d < |values| ==> values[d] == g(first + d)
    ensures Sum(Y(values), k) == SumRange(g, first, first + k)
  {
    if k > 0 {
      PrefixIsRange(values, g, first, k - 1);
    }
  }

  lemma ShownIsRange(points: seq<Point>, g: Figures, first: int)
    requires forall d :: 0 <= d < |points| ==> points[d].predicted == g(first + d)
    ensures Shown(points) == SumRange(g, first, first + |points|)
  {
    PrefixIsRange(Map((p: Point) => p.predicted, points), g, first, |points|);
  }

  lemma {:induction false} FilterSlice<T>(keep: T -> bool, s: seq<T>, a: nat, b: nat)
    requires a <= b <= |s| && forall i :: 0 <= i < |s| ==> (keep(s[i]) <==> a <= i < b)
    ensures Filter(keep, s) == s[a..b]
  {
    if s != [] {
      if a > 0 {
        FilterSlice(keep, s[1..], a - 1, b - 1);
      } else if b > 0 {
        FilterSlice(keep, s[1..], 0, b - 1);
        assert s[0..b] == [s[0]] + s[1..][..b - 1];
      } else {
        FilterSlice(keep, s[1..], 0, 0);
      }
    }
  }

  function Within(x: int, bound: nat): nat {
    if x < 0 then 0 else if x > bound then bound else x
  }

  lemma ShownSlice(points: seq<Point>, g: Figures, start: int, a: nat, b: nat)
    requires a <= b <= |points|
    requires forall d :: 0 <= d < |points| ==> points[d].predicted == g(start + d)
    ensures Shown(points[a..b]) == SumRange(g, start + a, start + b)
  {
    forall d | 0 <= d < b - a ensures points[a..b][d].predicted == g(start + a + d) {
      assert points[a..b][d] == points[a + d] && start + a + d == start + (a + d);
    }
    ShownIsRange(points[a..b], g, start + a);
    assert start + a + (b - a) == start + b;
  }

  /** The positions of the dates of an interval among `n` consecutive ones. */
  lemma OverlapIsSlice(g: Figures, start: int, n: nat, first: int, next: int) returns (a: nat, b: nat)
    requires first <= next
    ensures a <= b <= n && a == Within(first - start, n) && b == Within(next - start, n)
    ensures SumRange(g, start + a, start + b) == SumRange(g, Later(start, first), Earlier(start + n, next))
  {
    a, b := Within(first - start, n), Within(next - start, n);
  }

  /** What is kept are the positions from `a` on and before `b`. */
  ghost predicate KeepsBetween<T>(keep: T -> bool, s: seq<T>, a: int, b: int) {
    forall d :: 0 <= d < |s| ==> (keep(s[d]) <==> a <= d < b)
  }

  lemma KeptSlice<T>(keep: T -> bool, s: seq<T>, x: int, y: int, a: nat, b: nat)
    requires x <= y && KeepsBetween(keep, s, x, y)
    requires a == Within(x, |s|) && b == Within(y, |s|)
    ensures a <= b <= |s| && Filter(keep, s) == s[a..b]
  {
    FilterSlice(keep, s, a, b);
  }

  /** Of consecutive points, those dated in an interval show the figures of its overlap with them. */
  lemma SliceOfDates(points: seq<Point>, keep: Point -> bool, start: int, first: int, next: int, g: Figures)
    requires first <= next
    requires forall d :: 0 <= d < |points| ==> points[d].predicted == g(start + d)
    requires KeepsBetween(keep, points, first - start, next - start)
    ensures Shown(Filter(keep, points)) == SumRange(g, Later(start, first), Earlier(start + |points|, next))
  {
    var a, b := OverlapIsSlice(g, start, |points|, first, next);
    KeptSlice(keep, points, first - start, next - start, a, b);
    ShownSlice(points, g, start, a, b);
  }

  lemma SliceThisMonth(points: seq<Point>, today: Calendar.Moment, start: int, g: Figures)
    requires today.Valid()
    requires forall d :: 0 <= d < |points| ==> points[d].date == start + d && points[d].predicted == g(start + d)
    ensures var (first, next) := Calendar.DaySpan(Calendar.Monthly, today);
            PredictedThisMonth(today, points) == SumRange(g, Later(start, first), Earlier(start + |points|, next))
  {
    var (first, next) := Calendar.DaySpan(Calendar.Monthly, today);
    Calendar.MonthFollowsMonth(today.year, today.month);
    var keep := (p: Point) => ThisMonth(today, p.date);
    assert KeepsBetween(keep, points, first - start, next - start);
    SliceOfDates(points, keep, start, first, next, g);
  }

  /** The figures a forecast projects the month from. */
  function Reached(g: Figures, ask: Ask): real
    requires ask.today.Valid()
  {
    var (first, next) := Calendar.DaySpan(Calendar.Monthly, ask.today);
    SumRange(g, Later(ask.start, first), Earlier(ask.start + Length(ask.horizon), next))
  }

  function Tomorrow(today: Calendar.Moment): int
    requires today.Valid()
  {
    Calendar.DayNumber(today.year, today.month, today.day) + 1
  }

  /** A figure for each day left in the month. */
  function WholeRest(g: Figures, today: Calendar.Moment): real
    requires today.Valid()
  {
    SumRange(g, Tomorrow(today), Calendar.DaySpan(Calendar.Monthly, today).1)
  }

  lemma ExtrapolatedFigures(report: Report, line: Line, history: seq<Day>, ask: Ask, average: real, standardError: real)
    requires ask.today.Valid() && IsExtrapolated(report, line, history, ask, average, standardError)
    ensures |report.points| == Length(ask.horizon)
    ensures var g := FigureAt(line, |history|, ask.start);
            forall d :: 0 <= d < |report.points| ==>
              report.points[d].date == ask.start + d && report.points[d].predicted == g(ask.start + d)
  {
    var g := FigureAt(line, |history|, ask.start);
    forall d | 0 <= d < |report.points|
      ensures report.points[d].date == ask.start + d && report.points[d].predicted == g(ask.start + d) {
      assert report.points[d] == PointOf(LineEstimate(line, |history|, standardError)(d), ask.start + d, 0.95);
      PointIsFigure(line, |history|, standardError, ask.start, d);
    }
  }

  lemma PointIsFigure(line: Line, n: nat, standardError: real, start: int, d: nat)
    ensures var p := PointOf(LineEstimate(line, n, standardError)(d), start + d, 0.95);
            p.date == start + d && p.predicted == FigureAt(line, n, start)(start + d)
  {
    assert n + (start + d) - start == n + d;
  }

  lemma MonthEndOf(today: Calendar.Moment, history: seq<Day>, points: seq<Point>, average: real, predicted: real)
    requires today.Valid() && PredictedThisMonth(today, points) == predicted
    ensures MonthEnd(today, history, points, average) == Projected(SpentThisMonth(today, history), predicted, average, DaysLeft(today))
  {
  }

  lemma ExtrapolatedMonthEnd(report: Report, line: Line, history: seq<Day>, ask: Ask, average: real, standardError: real)
    requires ask.today.Valid() && IsExtrapolated(report, line, history, ask, average, standardError)
    ensures report.monthEnd == Cents(Projected(
              SpentThisMonth(ask.today, history), Reached(FigureAt(line, |history|, ask.start), ask), average, DaysLeft(ask.today)))
  {
    ExtrapolatedFigures(report, line, history, ask, average, standardError);
    MonthEndOfFigures(report.points, history, ask, average, FigureAt(line, |history|, ask.start));
  }

  lemma MonthEndOfFigures(points: seq<Point>, history: seq<Day>, ask: Ask, average: real, g: Figures)
    requires ask.today.Valid() && |points| == Length(ask.horizon)
    requires forall d :: 0 <= d < |points| ==> points[d].date == ask.start + d && points[d].predicted == g(ask.start + d)
    ensures MonthEnd(ask.today, history, points, average)
         == Projected(SpentThisMonth(ask.today, history), Reached(g, ask), average, DaysLeft(ask.today))
  {
    SliceThisMonth(points, ask.today, ask.start, g);
    MonthEndOf(ask.today, history, points, average, Reached(g, ask));
  }

  /** Whatever day the forecast starts on, the month is projected from the figures whose dates fall in it. */
  lemma MonthEndIsReached(report: Report, history: seq<Day>, ask: Ask, standardError: real)
    requires ask.today.Valid() && IsForecast(report, history, ask, standardError)
    requires |history| >= 3
    ensures report.monthEnd == Cents(Projected(
              SpentThisMonth(ask.today, Sort(ByDate, history)), Reached(FigureAt(Fit(Costs(history)), |history|, ask.start), ask),
              MeanY(Costs(history)), DaysLeft(ask.today)))
  {
    LongHistoryIsExtrapolated(report, history, ask, standardError);
    ExtrapolatedMonthEnd(report, Fit(Costs(history)), Sort(ByDate, history), ask, MeanY(Costs(history)), standardError);
  }

  // ---- when that is the whole month

  /** Predicted for days of the month that are not left any more: they are counted with the spend already. */
  function CountedTwice(g: Figures, ask: Ask): real
    requires ask.today.Valid()
  {
    var (first, next) := Calendar.DaySpan(Calendar.Monthly, ask.today);
    SumRange(Outside(g, Tomorrow(ask.today), next), Later(ask.start, first), Earlier(ask.start + Length(ask.horizon), next))
  }

  /** Due on days left that the forecast does not reach. */
  function Missed(g: Figures, ask: Ask): real
    requires ask.today.Valid()
  {
    var (first, next) := Calendar.DaySpan(Calendar.Monthly, ask.today);
    SumRange(Outside(g, Later(ask.start, first), Earlier(ask.start + Length(ask.horizon), next)), Tomorrow(ask.today), next)
  }

  lemma ReachedBalances(g: Figures, ask: Ask)
    requires ask.today.Valid()
    ensures Reached(g, ask) - CountedTwice(g, ask) == WholeRest(g, ask.today) - Missed(g, ask)
  {
    var (first, next) := Calendar.DaySpan(Calendar.Monthly, ask.today);
    var a, b, tomorrow := Later(ask.start, first), Earlier(ask.start + Length(ask.horizon), next), Tomorrow(ask.today);
    SumSplits(g, tomorrow, next, a, b);
    SumSplits(g, a, b, tomorrow, next);
    InsideIsOverlap(g, tomorrow, next, a, b);
    InsideIsOverlap(g, a, b, tomorrow, next);
  }

  lemma FiguresNonNegative(line: Line, n: nat, start: int)
    ensures forall d: int :: FigureAt(line, n, start)(d) >= 0.0
  {
    forall d: int ensures FigureAt(line, n, start)(d) >= 0.0 {
      CentsMonotone(0.0, Max(0.0, line.At((n + d - start) as real)));
      assert Cents(0.0) == 0.0;
    }
  }

  lemma ProjectionsAgree(spent: real, reached: real, whole: real, average: real, daysLeft: int)
    requires reached >= 0.0 && whole >= 0.0 && daysLeft > 0
    ensures Projected(spent, reached, average, daysLeft) == Projected(spent, whole, average, daysLeft) <==>
      || reached == whole
      || (reached == 0.0 && whole == average * daysLeft as real)
      || (whole == 0.0 && reached == average * daysLeft as real)
  {
  }

  /**
   The projection is that of the whole month exactly when no day is left, or what is counted twice
   makes up for what is missed, or one of the two sums is nothing and the other happens to be the
   average for each day left.
   */
  lemma CoversMonthExactlyWhen(line: Line, n: nat, ask: Ask, spent: real, average: real)
    requires ask.today.Valid()
    ensures var g := FigureAt(line, n, ask.start);
            var rest := average * DaysLeft(ask.today) as real;
            Projected(spent, Reached(g, ask), average, DaysLeft(ask.today))
            == Projected(spent, WholeRest(g, ask.today), average, DaysLeft(ask.today)) <==>
              || DaysLeft(ask.today) <= 0
              || CountedTwice(g, ask) == Missed(g, ask)
              || (Reached(g, ask) == 0.0 && WholeRest(g, ask.today) == rest)
              || (WholeRest(g, ask.today) == 0.0 && Reached(g, ask) == rest)
  {
    var g := FigureAt(line, n, ask.start);
    var (first, next) := Calendar.DaySpan(Calendar.Monthly, ask.today);
    FiguresNonNegative(line, n, ask.start);
    SumNonNegative(g, Later(ask.start, first), Earlier(ask.start + Length(ask.horizon), next));
    SumNonNegative(g, Tomorrow(ask.today), next);
    ReachedBalances(g, ask);
    if DaysLeft(ask.today) > 0 {
      ProjectionsAgree(spent, Reached(g, ask), WholeRest(g, ask.today), average, DaysLeft(ask.today));
    }
  }

  /** From tomorrow on nothing is counted twice, and nothing is missed exactly when every day left beyond the horizon shows zero. */
  lemma FromTomorrow(line: Line, n: nat, ask: Ask)
    requires ask.today.Valid() && StartsTomorrow(ask)
    ensures var g := FigureAt(line, n, ask.start);
            && CountedTwice(g, ask) == 0.0
            && Missed(g, ask) >= 0.0
            && (Missed(g, ask) == 0.0 <==>
                  forall d :: ask.start + Length(ask.horizon) <= d < Calendar.DaySpan(Calendar.Monthly, ask.today).1 ==> g(d) == 0.0)
            && Reached(g, ask) + Missed(g, ask) == WholeRest(g, ask.today)
  {
    var g := FigureAt(line, n, ask.start);
    var (first, next) := Calendar.DaySpan(Calendar.Monthly, ask.today);
    var a, b := Later(ask.start, first), Earlier(ask.start + Length(ask.horizon), next);
    FiguresNonNegative(line, n, ask.start);
    Calendar.MonthFollowsMonth(ask.today.year, ask.today.month);
    SumNonNegative(Outside(g, ask.start, next), a, b);
    SumNonNegative(Outside(g, a, b), ask.start, next);
    ReachedBalances(g, ask);
    assert forall d :: a <= d < b ==> Outside(g, ask.start, next)(d) == 0.0;
    assert forall d :: ask.start <= d < next ==> Outside(g, a, b)(d) == if d < ask.start + Length(ask.horizon) then 0.0 else g(d);
  }

  /**
   A forecast from tomorrow on projects the whole month exactly when no day is left, or every day left
   beyond its horizon shows zero, or it reaches nothing and the days left amount to their average.
   */
  lemma CoversMonthFromTomorrowExactlyWhen(line: Line, n: nat, ask: Ask, spent: real, average: real)
    requires ask.today.Valid() && StartsTomorrow(ask)
    ensures var g := FigureAt(line, n, ask.start);
            Projected(spent, Reached(g, ask), average, DaysLeft(ask.today))
            == Projected(spent, WholeRest(g, ask.today), average, DaysLeft(ask.today)) <==>
              || DaysLeft(ask.today) <= 0
              || (forall d :: ask.start + Length(ask.horizon) <= d < Calendar.DaySpan(Calendar.Monthly, ask.today).1 ==> g(d) == 0.0)
              || (Reached(g, ask) == 0.0 && WholeRest(g, ask.today) == average * DaysLeft(ask.today) as real)
  {
    var g := FigureAt(line, n, ask.start);
    var (first, next) := Calendar.DaySpan(Calendar.Monthly, ask.today);
    CoversMonthExactlyWhen(line, n, ask, spent, average);
    FromTomorrow(line, n, ask);
    FiguresNonNegative(line, n, ask.start);
    SumNonNegative(g, Later(ask.start, first), Earlier(ask.start + Length(ask.horizon), next));
  }

  // ---- ten a day for three days, in a month of thirty-one

  const TEN_A_DAY := [Day(0, 10.0), Day(1, 10.0), Day(2, 10.0)]
  const THIRD := Calendar.Moment(1, 1, 3, 0)
  const TEN := Line(10.0, 0.0)

  const TENS := [10.0, 10.0, 10.0]

  lemma SumOfTens()
    ensures Sum(Y(TENS), 3) == 30.0
  {
    var f := Y(TENS);
    assert f(0) == 10.0 && f(1) == 10.0 && f(2) == 10.0;
    assert Sum(f, 1) == Sum(f, 0) + f(0);
    assert Sum(f, 2) == Sum(f, 1) + f(1);
  }

  lemma CostsOfTens()
    ensures Map(Cost, TEN_A_DAY) == TENS
  {
    forall i | 0 <= i < 3 ensures Cost(TEN_A_DAY[i]) == TENS[i] {
    }
  }

  lemma TenADayIsSorted()
    ensures Sort(ByDate, TEN_A_DAY) == TEN_A_DAY && Costs(TEN_A_DAY) == TENS
  {
    AlreadySorted(ByDate, TEN_A_DAY);
    CostsOfTens();
  }

  lemma TenADay()
    ensures Sort(ByDate, TEN_A_DAY) == TEN_A_DAY
    ensures Fit(Costs(TEN_A_DAY)) == TEN && MeanY(Costs(TEN_A_DAY)) == 10.0
  {
    TenADayIsSorted();
    SumOfTens();
    CollinearHistoryIsRecovered(TENS, TEN);
  }

  lemma TenSpent()
    ensures THIRD.Valid() && DaysLeft(THIRD) == 28
    ensures Calendar.DaySpan(Calendar.Monthly, THIRD) == (0, 31) && Tomorrow(THIRD) == 3
    ensures SpentThisMonth(THIRD, TEN_A_DAY) == 30.0
  {
    var inMonth := (day: Day) => ThisMonth(THIRD, day.date);
    FilterSlice(inMonth, TEN_A_DAY, 0, 3);
    assert TEN_A_DAY[0..3] == TEN_A_DAY;
    CostsOfTens();
    SumOfTens();
  }

  lemma TenOnAnyDay(start: int, date: int)
    ensures FigureAt(TEN, 3, start)(date) == 10.0
  {
    var x := (3 + date - start) as real;
    assert FigureAt(TEN, 3, start)(date) == Cents(Max(0.0, TEN.At(x)));
    assert TEN.At(x) == 10.0;
    assert Cents(10.0) == 10.0;
  }

  lemma {:induction false} TensAddUp(start: int, lo: int, hi: int)
    requires lo <= hi
    ensures SumRange(FigureAt(TEN, 3, start), lo, hi) == 10.0 * (hi - lo) as real
    decreases hi - lo
  {
    if lo < hi {
      TensAddUp(start, lo, hi - 1);
      TenOnAnyDay(start, hi - 1);
      assert 10.0 * (hi - lo) as real == 10.0 * (hi - 1 - lo) as real + 10.0;
    }
  }

  /** A week's forecast made on the third projects the month at 100, where a figure for each of the 28 days left makes 310. */
  lemma WeekLeavesDaysOut(report: Report)
    requires THIRD.Valid() && IsForecast(report, TEN_A_DAY, Ask(7, 3, THIRD, 10.0), 0.0)
    ensures report.monthEnd == 100.0
    ensures Projected(SpentThisMonth(THIRD, TEN_A_DAY), WholeRest(FigureAt(TEN, 3, 3), THIRD), 10.0, DaysLeft(THIRD)) == 310.0
  {
    TenADay();
    TenSpent();
    MonthEndIsReached(report, TEN_A_DAY, Ask(7, 3, THIRD, 10.0), 0.0);
    TensAddUp(3, 3, 10);
    TensAddUp(3, 3, 31);
    assert Cents(100.0) == 100.0;
  }

  /** Starting on the third itself and reaching to the end, it projects 320: the third is both spent and predicted. */
  lemma TodayCountsTwice(report: Report)
    requires THIRD.Valid() && IsForecast(report, TEN_A_DAY, Ask(30, 2, THIRD, 10.0), 0.0)
    ensures report.monthEnd == 320.0
    ensures Projected(SpentThisMonth(THIRD, TEN_A_DAY), WholeRest(FigureAt(TEN, 3, 2), THIRD), 10.0, DaysLeft(THIRD)) == 310.0
  {
    TenADay();
    TenSpent();
    MonthEndIsReached(report, TEN_A_DAY, Ask(30, 2, THIRD, 10.0), 0.0);
    TensAddUp(2, 2, 31);
    TensAddUp(2, 3, 31);
    assert Cents(320.0) == 320.0;
  }

  /** Without any horizon the average stands in for each of the 28 days left: 310. */
  lemma NoHorizonTakesTheAverage(report: Report)
    requires THIRD.Valid() && IsForecast(report, TEN_A_DAY, Ask(0, 3, THIRD, 10.0), 0.0)
    ensures report.monthEnd == 310.0
  {
    TenADay();
    TenSpent();
    MonthEndIsReached(report, TEN_A_DAY, Ask(0, 3, THIRD, 10.0), 0.0);
    assert SumRange(FigureAt(TEN, 3, 3), 3, 3) == 0.0;
    assert Cents(310.0) == 310.0;
  }
}
