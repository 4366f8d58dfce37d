/**
 Budget period windows over the proleptic Gregorian calendar of ISO 8601:2004 section 3.2.1, in
 UTC and at microsecond resolution, for every representable moment (years 1 to 9999).
 */
module Calendar {
  import opened Wrappers

  const DAY := 86400000000
  const MAX_YEAR := 9999

  predicate IsLeap(year: int) {
    year % 4 == 0 && (year % 100 != 0 || year % 400 == 0)
  }

  /** `monthrange(year, month)[1]`. */
  function DaysIn(year: int, month: int): int {
    if month == 2 then (if IsLeap(year) then 29 else 28)
    else if month == 4 || month == 6 || month == 9 || month == 11 then 30
    else 31
  }

  /** `second` and smaller units are folded into the microsecond of the day. */
  datatype Moment = Moment(year: int, month: int, day: int, micros: int) {
    predicate Valid() {
      && 1 <= year <= MAX_YEAR
      && 1 <= month <= 12
      && 1 <= day <= DaysIn(year, month)
      && 0 <= micros < DAY
    }
  }

  function DaysBeforeYear(year: int): int {
    365 * (year - 1) + (year - 1) / 4 - (year - 1) / 100 + (year - 1) / 400
  }

  function DaysBeforeMonth(year: int, month: int): int
    requires 1 <= month <= 13
  {
    [0, 31, 59, 90, 120, 151, 181, 212, 243, 273, 304, 334, 365][month - 1] + if month > 2 && IsLeap(year) then 1 else 0
  }

  /** Days since 1 January of year 1. */
  function DayNumber(year: int, month: int, day: int): int
    requires 1 <= month <= 13
  {
    DaysBeforeYear(year) + DaysBeforeMonth(year, month) + day - 1
  }

  /** Microseconds since the start of year 1. */
  function Instant(m: Moment): int
    requires 1 <= m.month <= 12
  {
    DayNumber(m.year, m.month, m.day) * DAY + m.micros
  }

  // ---- the calendar is consistent

  lemma MonthFollowsMonth(year: int, month: int)
    requires 1 <= month <= 12
    ensures DaysBeforeMonth(year, month + 1) == DaysBeforeMonth(year, month) + DaysIn(year, month)
  {
  }

  lemma FourthYears(year: int)
    ensures year / 4 == (year - 1) / 4 + if year % 4 == 0 then 1 else 0
  {
  }

  lemma HundredthYears(year: int)
    ensures year / 100 == (year - 1) / 100 + if year % 100 == 0 then 1 else 0
    ensures year % 100 == 0 ==> year % 4 == 0
  {
    assert year == 4 * (25 * (year / 100)) + year % 100;
  }

  lemma FourHundredthYears(year: int)
    ensures year / 400 == (year - 1) / 400 + if year % 400 == 0 then 1 else 0
    ensures year % 400 == 0 ==> year % 100 == 0
  {
    assert year == 100 * (4 * (year / 400)) + year % 400;
  }

  lemma YearFollowsYear(year: int)
    ensures DaysBeforeYear(year + 1) == DaysBeforeYear(year) + DaysBeforeMonth(year, 13)
  {
    FourthYears(year);
    HundredthYears(year);
    FourHundredthYears(year);
    assert DaysBeforeMonth(year, 13) == 365 + if IsLeap(year) then 1 else 0;
  }

  lemma {:induction false} YearsAscend(a: int, b: int)
    requires a <= b
    ensures DaysBeforeYear(a) <= DaysBeforeYear(b)
    ensures a < b ==> DaysBeforeYear(a + 1) <= DaysBeforeYear(b)
    decreases b - a
  {
    if a < b {
      YearsAscend(a, b - 1);
      YearFollowsYear(b - 1);
    }
  }

  lemma {:induction false} MonthsAscend(year: int, a: int, b: int)
    requires 1 <= a <= b <= 13
    ensures DaysBeforeMonth(year, a) <= DaysBeforeMonth(year, b)
    ensures a < b ==> DaysBeforeMonth(year, a + 1) <= DaysBeforeMonth(year, b)
    decreases b - a
  {
    if a < b {
      MonthsAscend(year, a, b - 1);
      MonthFollowsMonth(year, b - 1);
    }
  }

  /** A day number lies inside its year exactly when it belongs to that year; likewise for months. */
  lemma DayWithinYear(m: Moment, year: int)
    requires m.Valid()
    ensures DaysBeforeYear(year) <= DayNumber(m.year, m.month, m.day) < DaysBeforeYear(year + 1) <==> m.year == year
  {
    MonthFollowsMonth(m.year, m.month);
    MonthsAscend(m.year, 1, m.month);
    MonthsAscend(m.year, m.month + 1, 13);
    YearFollowsYear(m.year);
    if m.year < year {
      YearsAscend(m.year, year);
    } else if year < m.year {
      YearsAscend(year, m.year);
    }
  }

  lemma DayWithinMonths(m: Moment, year: int, first: int, last: int)
    requires m.Valid() && 1 <= first <= last <= 12
    ensures DayNumber(year, first, 1) <= DayNumber(m.year, m.month, m.day) < DayNumber(year, last + 1, 1)
       <==> m.year == year && first <= m.month <= last
  {
    DayWithinYear(m, year);
    MonthsAscend(year, 1, first);
    MonthsAscend(year, last + 1, 13);
    YearFollowsYear(year);
    if m.year == year {
      MonthFollowsMonth(year, m.month);
      if m.month < first {
        MonthsAscend(year, m.month, first);
      } else if m.month > last {
        MonthsAscend(year, last, m.month);
      } else {
        MonthsAscend(year, first, m.month);
        MonthsAscend(year, m.month, last + 1);
      }
    }
  }

  lemma SameDayNumber(a: Moment, b: Moment)
    requires a.Valid() && b.Valid()
    ensures DayNumber(a.year, a.month, a.day) == DayNumber(b.year, b.month, b.day)
       <==> a.year == b.year && a.month == b.month && a.day == b.day
  {
    DayWithinMonths(b, a.year, a.month, a.month);
    DayWithinMonths(a, a.year, a.month, a.month);
  }

  // ---- windows

  datatype Period = Daily | Monthly | Quarterly | Annual

  datatype Window = Window(start: int, end: int)

  datatype CalendarError = OutOfRange

  function FirstMonth(m: Moment): int {
    3 * ((m.month - 1) / 3) + 1
  }

  /** The last representable date; one day past it is an error. */
  predicate IsLastDate(year: int, month: int, day: int) {
    year == MAX_YEAR && month == 12 && day == 31
  }

  /** From midnight of the first date to one microsecond before the midnight after the last. */
  function Through(start: Moment, year: int, month: int, day: int): Result<Window, CalendarError>
    requires 1 <= start.month <= 12 && 1 <= month <= 12
  {
    if IsLastDate(year, month, day) then Err(OutOfRange)
    else Ok(Window(Instant(start), Instant(Moment(year, month, day, 0)) + DAY - 1))
  }

  function PeriodWindow(period: Period, now: Moment): Result<Window, CalendarError>
    requires now.Valid()
  {
    match period
    case Daily => Through(now.(micros := 0), now.year, now.month, now.day)
    case Monthly => Through(now.(day := 1, micros := 0), now.year, now.month, DaysIn(now.year, now.month))
    case Quarterly =>
      var first := FirstMonth(now);
      Through(now.(month := first, day := 1, micros := 0), now.year, first + 2, DaysIn(now.year, first + 2))
    case Annual =>
      if now.year + 1 > MAX_YEAR then Err(OutOfRange)
      else Ok(Window(Instant(Moment(now.year, 1, 1, 0)), Instant(Moment(now.year + 1, 1, 1, 0)) - 1))
  }

  /** Read off the calendar page: the same day, month, quarter or year. */
  predicate SamePeriod(period: Period, a: Moment, b: Moment) {
    && a.year == b.year
    && match period
       case Daily => a.month == b.month && a.day == b.day
       case Monthly => a.month == b.month
       case Quarterly => (a.month - 1) / 3 == (b.month - 1) / 3
       case Annual => true
  }

  const LAST_MOMENT := Moment(MAX_YEAR, 12, 31, DAY - 1)

  /** There is no window exactly for the periods that contain the last representable date. */
  lemma WindowFailsExactlyWhen(period: Period, now: Moment)
    requires now.Valid()
    ensures PeriodWindow(period, now).Err? <==> SamePeriod(period, now, LAST_MOMENT)
  {
  }

  /** The first and the following day of a period, as day numbers. */
  function DaySpan(period: Period, now: Moment): (int, int)
    requires now.Valid()
  {
    match period
    case Daily => (DayNumber(now.year, now.month, now.day), DayNumber(now.year, now.month, now.day) + 1)
    case Monthly => (DayNumber(now.year, now.month, 1), DayNumber(now.year, now.month + 1, 1))
    case Quarterly => (DayNumber(now.year, FirstMonth(now), 1), DayNumber(now.year, FirstMonth(now) + 3, 1))
    case Annual => (DaysBeforeYear(now.year), DaysBeforeYear(now.year + 1))
  }

  lemma WindowIsDaySpan(period: Period, now: Moment)
    requires now.Valid() && PeriodWindow(period, now).Ok?
    ensures PeriodWindow(period, now).value == Window(DaySpan(period, now).0 * DAY, DaySpan(period, now).1 * DAY - 1)
  {
    match period
    case Daily =>
    case Monthly => MonthFollowsMonth(now.year, now.month);
    case Quarterly => MonthFollowsMonth(now.year, FirstMonth(now) + 2);
    case Annual =>
  }

  lemma FourthQuarterSpan(now: Moment)
    requires now.Valid()
    ensures Moment(now.year, 10, 1, 0).Valid()
    ensures DaySpan(Quarterly, Moment(now.year, 10, 1, 0)).1 == DaySpan(Annual, now).1
  {
    assert FirstMonth(Moment(now.year, 10, 1, 0)) + 3 == 13;
    YearFollowsYear(now.year);
  }

  lemma DaySpanIsPeriod(period: Period, now: Moment, other: Moment)
    requires now.Valid() && other.Valid()
    ensures DaySpan(period, now).0 <= DayNumber(other.year, other.month, other.day) < DaySpan(period, now).1
       <==> SamePeriod(period, now, other)
  {
    match period
    case Daily => SameDayNumber(now, other);
    case Monthly => DayWithinMonths(other, now.year, now.month, now.month);
    case Quarterly => DayWithinMonths(other, now.year, FirstMonth(now), FirstMonth(now) + 2);
    case Annual => DayWithinYear(other, now.year);
  }

  /**
   A moment lies in the window of `now` exactly when the two share the day, month, quarter or
   year; `now` itself therefore does. Leap years are no exception.
   */
  lemma WindowIsPeriod(period: Period, now: Moment, other: Moment)
    requires now.Valid() && other.Valid() && PeriodWindow(period, now).Ok?
    ensures var w := PeriodWindow(period, now).value;
            w.start <= Instant(other) <= w.end <==> SamePeriod(period, now, other)
  {
    WindowIsDaySpan(period, now);
    DaySpanIsPeriod(period, now, other);
  }

  /** Every moment of a window has that same window. */
  lemma WindowIsStable(period: Period, now: Moment, other: Moment)
    requires now.Valid() && other.Valid() && PeriodWindow(period, now).Ok?
    requires PeriodWindow(period, now).value.start <= Instant(other) <= PeriodWindow(period, now).value.end
    ensures PeriodWindow(period, other) == PeriodWindow(period, now)
  {
    WindowIsPeriod(period, now, other);
    SamePeriodSameWindow(period, now, other);
  }

  lemma SamePeriodSameWindow(period: Period, now: Moment, other: Moment)
    requires now.Valid() && other.Valid() && SamePeriod(period, now, other)
    ensures PeriodWindow(period, other) == PeriodWindow(period, now)
  {
  }

  // ---- windows tile time

  function NextMonth(year: int, month: int): Moment {
    if month >= 12 then Moment(year + 1, 1, 1, 0) else Moment(year, month + 1, 1, 0)
  }

  /** Midnight at the start of the following period. */
  function NextStart(period: Period, now: Moment): Moment {
    match period
    case Daily =>
      if now.day < DaysIn(now.year, now.month) then Moment(now.year, now.month, now.day + 1, 0) else NextMonth(now.year, now.month)
    case Monthly => NextMonth(now.year, now.month)
    case Quarterly => NextMonth(now.year, FirstMonth(now) + 2)
    case Annual => Moment(now.year + 1, 1, 1, 0)
  }

  lemma NextMonthFollows(year: int, month: int)
    requires 1 <= month <= 12
    ensures var n := NextMonth(year, month);
            DayNumber(n.year, n.month, n.day) == DayNumber(year, month + 1, 1) == DayNumber(year, month, DaysIn(year, month)) + 1
  {
    MonthFollowsMonth(year, month);
    YearFollowsYear(year);
  }

  /** Midnight of a first of a month, no later than the calendar runs. */
  lemma NextMonthIsValid(year: int, month: int)
    requires 1 <= year <= MAX_YEAR && 1 <= month <= 12 && !(year == MAX_YEAR && month == 12)
    ensures NextMonth(year, month).Valid()
    ensures month % 3 == 0 ==> FirstMonth(NextMonth(year, month)) == NextMonth(year, month).month
  {
  }

  lemma NextDayEndsSpan(now: Moment)
    requires now.Valid() && PeriodWindow(Daily, now).Ok?
    ensures var next := NextStart(Daily, now);
            next.Valid() && next.micros == 0 && DayNumber(next.year, next.month, next.day) == DaySpan(Daily, now).1
  {
    if now.day == DaysIn(now.year, now.month) {
      NextMonthIsValid(now.year, now.month);
      NextMonthFollows(now.year, now.month);
    }
  }

  lemma NextMonthEndsSpan(now: Moment)
    requires now.Valid() && PeriodWindow(Monthly, now).Ok?
    ensures var next := NextStart(Monthly, now);
            next.Valid() && next.micros == 0 && DayNumber(next.year, next.month, next.day) == DaySpan(Monthly, now).1
  {
    NextMonthIsValid(now.year, now.month);
    NextMonthFollows(now.year, now.month);
  }

  lemma NextQuarterEndsSpan(now: Moment)
    requires now.Valid() && PeriodWindow(Quarterly, now).Ok?
    ensures var next := NextStart(Quarterly, now);
            && next.Valid() && next.micros == 0 && DayNumber(next.year, next.month, next.day) == DaySpan(Quarterly, now).1
            && FirstMonth(next) == next.month
  {
    var last := FirstMonth(now) + 2;
    assert 3 <= last <= 12 && last % 3 == 0;
    NextMonthIsValid(now.year, last);
    NextMonthFollows(now.year, last);
  }

  lemma NextStartEndsSpan(period: Period, now: Moment)
    requires now.Valid() && PeriodWindow(period, now).Ok?
    ensures var next := NextStart(period, now);
            next.Valid() && next.micros == 0 && DayNumber(next.year, next.month, next.day) == DaySpan(period, now).1
  {
    match period
    case Daily => NextDayEndsSpan(now);
    case Monthly => NextMonthEndsSpan(now);
    case Quarterly => NextQuarterEndsSpan(now);
    case Annual =>
  }

  lemma NextStartBeginsSpan(period: Period, now: Moment)
    requires now.Valid() && PeriodWindow(period, now).Ok?
    requires NextStart(period, now).Valid()
    ensures var next := NextStart(period, now);
            DaySpan(period, next).0 == DayNumber(next.year, next.month, next.day)
  {
    match period
    case Daily =>
    case Monthly =>
    case Quarterly => NextQuarterEndsSpan(now);
    case Annual =>
  }

  /** Consecutive windows touch: the next period begins one microsecond after this one ends. */
  lemma WindowsTouch(period: Period, now: Moment)
    requires now.Valid() && PeriodWindow(period, now).Ok?
    ensures var next := NextStart(period, now);
            && next.Valid()
            && Instant(next) == PeriodWindow(period, now).value.end + 1
            && (PeriodWindow(period, next).Ok? ==> PeriodWindow(period, next).value.start == PeriodWindow(period, now).value.end + 1)
  {
    WindowIsDaySpan(period, now);
    NextStartEndsSpan(period, now);
    NextStartBeginsSpan(period, now);
    if PeriodWindow(period, NextStart(period, now)).Ok? {
      WindowIsDaySpan(period, NextStart(period, now));
    }
  }

  predicate SpanInside(inner: (int, int), outer: (int, int)) {
    outer.0 <= inner.0 < inner.1 <= outer.1
  }

  lemma DayInMonth(now: Moment)
    requires now.Valid()
    ensures SpanInside(DaySpan(Daily, now), DaySpan(Monthly, now))
  {
    MonthFollowsMonth(now.year, now.month);
  }

  lemma MonthInQuarter(now: Moment)
    requires now.Valid()
    ensures SpanInside(DaySpan(Monthly, now), DaySpan(Quarterly, now))
  {
    MonthFollowsMonth(now.year, now.month);
    MonthsAscend(now.year, FirstMonth(now), now.month);
    MonthsAscend(now.year, now.month + 1, FirstMonth(now) + 3);
  }

  lemma QuarterInYear(now: Moment)
    requires now.Valid()
    ensures SpanInside(DaySpan(Quarterly, now), DaySpan(Annual, now))
  {
    var first := FirstMonth(now);
    MonthsAscend(now.year, 1, first);
    MonthsAscend(now.year, first, first + 3);
    MonthFollowsMonth(now.year, first);
    MonthsAscend(now.year, first + 1, first + 3);
    MonthsAscend(now.year, first + 3, 13);
    YearFollowsYear(now.year);
  }

  predicate Inside(inner: Result<Window, CalendarError>, outer: Result<Window, CalendarError>) {
    outer.Ok? ==> inner.Ok? && outer.value.start <= inner.value.start <= inner.value.end <= outer.value.end
  }

  lemma SpanInsideIsInside(inner: Period, outer: Period, now: Moment)
    requires now.Valid()
    requires SpanInside(DaySpan(inner, now), DaySpan(outer, now))
    requires PeriodWindow(outer, now).Ok? ==> PeriodWindow(inner, now).Ok?
    ensures Inside(PeriodWindow(inner, now), PeriodWindow(outer, now))
  {
    if PeriodWindow(outer, now).Ok? {
      WindowIsDaySpan(inner, now);
      WindowIsDaySpan(outer, now);
    }
  }

  /** Days nest in months, months in quarters, quarters in years. */
  lemma WindowsNest(now: Moment)
    requires now.Valid()
    ensures Inside(PeriodWindow(Daily, now), PeriodWindow(Monthly, now))
    ensures Inside(PeriodWindow(Monthly, now), PeriodWindow(Quarterly, now))
    ensures Inside(PeriodWindow(Quarterly, now), PeriodWindow(Annual, now))
  {
    DayInMonth(now);
    MonthInQuarter(now);
    QuarterInYear(now);
    SpanInsideIsInside(Daily, Monthly, now);
    SpanInsideIsInside(Monthly, Quarterly, now);
    SpanInsideIsInside(Quarterly, Annual, now);
  }

  /** Every instant of the calendar is the instant of exactly one moment, so the windows cover all of them. */
  lemma {:induction false} EveryDayHasADate(n: nat) returns (m: Moment)
    requires n <= DayNumber(MAX_YEAR, 12, 31)
    ensures m.Valid() && m.micros == 0 && DayNumber(m.year, m.month, m.day) == n
  {
    if n == 0 {
      m := Moment(1, 1, 1, 0);
    } else {
      var before := EveryDayHasADate(n - 1);
      assert !IsLastDate(before.year, before.month, before.day);
      WindowsTouch(Daily, before);
      m := NextStart(Daily, before);
    }
  }

  lemma EveryInstantHasOneMoment(t: int) returns (m: Moment)
    requires 0 <= t <= Instant(LAST_MOMENT)
    ensures m.Valid() && Instant(m) == t
    ensures forall other: Moment :: other.Valid() && Instant(other) == t ==> other == m
  {
    var date := EveryDayHasADate(t / DAY);
    m := date.(micros := t % DAY);
    forall other: Moment | other.Valid() && Instant(other) == t ensures other == m {
      assert DayNumber(other.year, other.month, other.day) == t / DAY;
      SameDayNumber(other, m);
    }
  }

  /** On the last representable day every period is without a window. */
  lemma LastDayHasNoWindow(period: Period)
    ensures LAST_MOMENT.Valid() && PeriodWindow(period, LAST_MOMENT) == Err(OutOfRange)
  {
    WindowFailsExactlyWhen(period, LAST_MOMENT);
  }
}
