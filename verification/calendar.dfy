/** The proleptic Gregorian calendar as Python's `datetime.date` implements
    it: dates are (year, month, day) triples in years 1..9999, compared in
    that lexicographic order, and numbered by `toordinal()` (0001-01-01 is
    day 1). Date arithmetic (`today - timedelta(days=365)`, `today - date`)
    is arithmetic on ordinals, and `isocalendar()` is computed from the
    ordinal exactly as CPython's pure-Python `date.isocalendar` does. */
module Calendar {

  datatype Civil = Civil(year: int, month: int, day: int)

  predicate IsLeap(y: int) {
    y % 4 == 0 && (y % 100 != 0 || y % 400 == 0)
  }

  function DaysInYear(y: int): int {
    if IsLeap(y) then 366 else 365
  }

  function DaysInMonth(y: int, m: int): (n: int)
    requires 1 <= m <= 12
    ensures 28 <= n <= 31
  {
    if m == 2 then (if IsLeap(y) then 29 else 28)
    else if m == 4 || m == 6 || m == 9 || m == 11 then 30
    else 31
  }

  /** Days of year `y` that lie before the first of month `m`. */
  function DaysBeforeMonth(y: int, m: int): int
    requires 1 <= m <= 12
  {
    [0, 31, 59, 90, 120, 151, 181, 212, 243, 273, 304, 334][m - 1]
      + (if m > 2 && IsLeap(y) then 1 else 0)
  }

  /** Days before January 1st of year `y`, counted from 0001-01-01.
      Division by a positive constant floors, as Python's `//` does. */
  function DaysBeforeYear(y: int): int {
    var y1 := y - 1;
    y1 * 365 + y1 / 4 - y1 / 100 + y1 / 400
  }

  /** Python's MINYEAR..MAXYEAR and the month-length rule. */
  predicate ValidCivil(c: Civil) {
    1 <= c.year <= 9999 && 1 <= c.month <= 12 && 1 <= c.day <= DaysInMonth(c.year, c.month)
  }

  type Date = c: Civil | ValidCivil(c) witness Civil(2000, 1, 1)

  /** `date.toordinal()`. */
  function Ordinal(d: Date): int {
    DaysBeforeYear(d.year) + DaysBeforeMonth(d.year, d.month) + d.day
  }

  /** The order of Python's date comparison operators. */
  predicate Before(a: Date, b: Date) {
    a.year < b.year
    || (a.year == b.year && (a.month < b.month || (a.month == b.month && a.day < b.day)))
  }

  lemma YearStep(y: int)
    ensures DaysBeforeYear(y + 1) == DaysBeforeYear(y) + DaysInYear(y)
  {
    var y1 := y - 1;
    assert DaysBeforeYear(y + 1) == y * 365 + y / 4 - y / 100 + y / 400;
    assert DaysBeforeYear(y) == y1 * 365 + y1 / 4 - y1 / 100 + y1 / 400;
    DivStep(y, 4);
    DivStep(y, 100);
    DivStep(y, 400);
    LeapDivisors(y);
  }

  /** A multiple of 400 is one of 100, and a multiple of 100 is one of 4. */
  lemma LeapDivisors(y: int)
    ensures y % 400 == 0 ==> y % 100 == 0
    ensures y % 100 == 0 ==> y % 4 == 0
  {
  }

  /** Stepping from `y - 1` to `y` adds one to `y / k` exactly at
      multiples of `k`, for the divisors of the leap-year rule. */
  lemma DivStep(y: int, k: int)
    requires k == 4 || k == 100 || k == 400
    ensures y / k == (y - 1) / k + (if y % k == 0 then 1 else 0)
  {
  }

  lemma {:induction false} YearsApart(a: int, b: int)
    requires a <= b
    ensures DaysBeforeYear(a) + 365 * (b - a) <= DaysBeforeYear(b)
    decreases b - a
  {
    if a < b {
      YearsApart(a, b - 1);
      YearStep(b - 1);
    }
  }

  lemma MonthsApart(y: int, m1: int, m2: int)
    requires 1 <= m1 < m2 <= 12
    ensures DaysBeforeMonth(y, m1) + DaysInMonth(y, m1) <= DaysBeforeMonth(y, m2)
  {
  }

  lemma DayOfYearBounds(d: Date)
    ensures 1 <= DaysBeforeMonth(d.year, d.month) + d.day <= DaysInYear(d.year)
  {
  }

  /** The ordinal of a date lies within its year: between January 1st and
      December 31st. */
  lemma OrdinalInYear(d: Date)
    ensures DaysBeforeYear(d.year) + 1 <= Ordinal(d) <= DaysBeforeYear(d.year + 1)
  {
    DayOfYearBounds(d);
    YearStep(d.year);
  }

  lemma {:induction false} BeforeOrdinal(a: Date, b: Date)
    requires Before(a, b)
    ensures Ordinal(a) < Ordinal(b)
  {
    if a.year < b.year {
      OrdinalInYear(a);
      OrdinalInYear(b);
      YearsApart(a.year + 1, b.year);
    } else if a.month < b.month {
      MonthsApart(a.year, a.month, b.month);
    }
  }

  /** `toordinal()` is an order isomorphism: comparing dates is comparing
      their ordinals. */
  lemma OrdinalOrder(a: Date, b: Date)
    ensures Before(a, b) <==> Ordinal(a) < Ordinal(b)
    ensures a == b <==> Ordinal(a) == Ordinal(b)
  {
    if Before(a, b) {
      BeforeOrdinal(a, b);
    } else if Before(b, a) {
      BeforeOrdinal(b, a);
    }
  }

  /** `date.weekday()`: Monday is 0, Sunday is 6. */
  function Weekday(d: Date): (w: int)
    ensures 0 <= w < 7
  {
    (Ordinal(d) + 6) % 7
  }

  /** Ordinal of the Monday that starts ISO week 1 of `y` (CPython's
      `_isoweek1monday`): the Monday of the week holding January 4th. */
  function IsoWeek1Monday(y: int): (r: int)
    ensures DaysBeforeYear(y) + 1 - 3 <= r <= DaysBeforeYear(y) + 1 + 3
    ensures (r + 6) % 7 == 0
  {
    Week1MondayFrom(DaysBeforeYear(y) + 1)
  }

  /** The Monday of the ISO week-1 that `first` (the ordinal of a January
      1st) determines: the Monday on or before it when it falls Monday to
      Thursday, the next Monday otherwise. */
  function Week1MondayFrom(first: int): (r: int)
    ensures first - 3 <= r <= first + 3
    ensures (r + 6) % 7 == 0
  {
    var firstWeekday := (first + 6) % 7;
    var monday := first - firstWeekday;
    assert monday + 6 == 7 * ((first + 6) / 7);
    if firstWeekday > 3 then monday + 7 else monday
  }

  datatype IsoDate = IsoDate(year: int, week: int, weekday: int)

  /** The ordinal of the day an ISO (year, week, weekday) triple names. */
  function IsoOrdinal(iso: IsoDate): int {
    IsoWeek1Monday(iso.year) + 7 * (iso.week - 1) + (iso.weekday - 1)
  }

  /** `date.isocalendar()`: (ISO year, ISO week, ISO weekday). The ISO
      year differs from the calendar year for a few days around New Year. */
  function IsoCalendar(d: Date): (r: IsoDate)
    ensures 1 <= r.week <= 53 && 1 <= r.weekday <= 7
    ensures IsoOrdinal(r) == Ordinal(d)
  {
    OrdinalInYear(d);
    IsoOfOrdinal(Ordinal(d), d.year)
  }

  /** The ISO weekday is the weekday, and the ISO year is the calendar year
      or a neighbour: the previous one exactly for the days before week 1
      starts, the next one exactly from the next year's week 1 on. */
  lemma IsoCalendarYear(d: Date)
    ensures IsoCalendar(d).weekday == Weekday(d) + 1
    ensures d.year - 1 <= IsoCalendar(d).year <= d.year + 1
    ensures IsoCalendar(d).year == d.year - 1 <==> Ordinal(d) < IsoWeek1Monday(d.year)
    ensures IsoCalendar(d).year == d.year + 1 <==> Ordinal(d) >= IsoWeek1Monday(d.year + 1)
  {
    IsoCalendarUnfold(d);
    IsoWeekdayIsWeekday(d);
    IsoPreviousYear(d);
    IsoNextYear(d);
  }

  lemma IsoCalendarUnfold(d: Date)
    ensures DaysBeforeYear(d.year) + 1 <= Ordinal(d) <= DaysBeforeYear(d.year + 1)
    ensures IsoCalendar(d) == IsoOfOrdinal(Ordinal(d), d.year)
  {
    OrdinalInYear(d);
  }

  lemma IsoWeekdayIsWeekday(d: Date)
    ensures IsoCalendar(d).weekday == Weekday(d) + 1
  {
    IsoCalendarUnfold(d);
  }

  lemma IsoPreviousYear(d: Date)
    ensures IsoCalendar(d).year == d.year - 1 <==> Ordinal(d) < IsoWeek1Monday(d.year)
  {
    IsoCalendarUnfold(d);
  }

  lemma IsoNextYear(d: Date)
    ensures IsoCalendar(d).year == d.year + 1 <==> Ordinal(d) >= IsoWeek1Monday(d.year + 1)
  {
    IsoCalendarUnfold(d);
  }

  /** Two dates in the same ISO week of the same ISO year are at most six days apart. */
  lemma SameIsoWeek(a: Date, b: Date)
    requires IsoCalendar(a).year == IsoCalendar(b).year && IsoCalendar(a).week == IsoCalendar(b).week
    ensures -6 <= Ordinal(a) - Ordinal(b) <= 6
  {
    var ia, ib := IsoCalendar(a), IsoCalendar(b);
    assert IsoOrdinal(ia) - IsoOrdinal(ib) == ia.weekday - ib.weekday;
  }

  /** `isocalendar()` of the day with ordinal `today`, which lies in year `y`. */
  function IsoOfOrdinal(today: int, y: int): (r: IsoDate)
    requires DaysBeforeYear(y) + 1 <= today <= DaysBeforeYear(y + 1)
    ensures 1 <= r.week <= 53
    ensures 1 <= r.weekday <= 7 && r.weekday == (today + 6) % 7 + 1
    ensures y - 1 <= r.year <= y + 1
    ensures r.year == y - 1 <==> today < IsoWeek1Monday(y)
    ensures r.year == y + 1 <==> today >= IsoWeek1Monday(y + 1)
    ensures IsoOrdinal(r) == today
  {
    IsoMondaysFit(today, y);
    IsoSplit(today, y, IsoWeek1Monday(y - 1), IsoWeek1Monday(y), IsoWeek1Monday(y + 1))
  }

  /** The week-1 Mondays around year `y` satisfy what IsoSplit needs. */
  lemma IsoMondaysFit(today: int, y: int)
    requires DaysBeforeYear(y) + 1 <= today <= DaysBeforeYear(y + 1)
    ensures var m0, m, m2 := IsoWeek1Monday(y - 1), IsoWeek1Monday(y), IsoWeek1Monday(y + 1);
      m0 <= today < m2 + 7 && m - m0 <= 371 && 364 <= m2 - m <= 371
  {
    YearStep(y - 1);
    YearStep(y);
    MondayGap(IsoWeek1Monday(y - 1), IsoWeek1Monday(y));
    MondayGap(IsoWeek1Monday(y), IsoWeek1Monday(y + 1));
  }

  /** Two Mondays 359 to 372 days apart are 52 or 53 weeks apart. */
  lemma MondayGap(m0: int, m: int)
    requires (m0 + 6) % 7 == 0 && (m + 6) % 7 == 0
    requires 359 <= m - m0 <= 372
    ensures 364 <= m - m0 <= 371
  {
    var a, b := (m + 6) / 7, (m0 + 6) / 7;
    assert m + 6 == 7 * a && m0 + 6 == 7 * b;
    assert m - m0 == 7 * (a - b);
  }

  /** The body of CPython's `isocalendar` on the ordinal `today` of a date
      in year `y`, given the week-1 Mondays of years `y - 1`, `y` and
      `y + 1`. The facts it needs about them (all Mondays, at most 53 weeks
      apart, `today` no earlier than the first and less than a week past
      the last) hold for every date; see IsoCalendar. */
  function IsoSplit(today: int, y: int, prevMonday: int, monday: int, nextMonday: int): (r: IsoDate)
    requires (prevMonday + 6) % 7 == 0 && (monday + 6) % 7 == 0 && (nextMonday + 6) % 7 == 0
    requires prevMonday <= today < nextMonday + 7
    requires monday - prevMonday <= 371 && 364 <= nextMonday - monday <= 371
    ensures 1 <= r.week <= 53
    ensures 1 <= r.weekday <= 7 && r.weekday == (today + 6) % 7 + 1
    ensures r.year == y - 1 || r.year == y || r.year == y + 1
    ensures r.year == y - 1 <==> today < monday
    ensures r.year == y + 1 <==> today >= nextMonday
    ensures today == (if r.year == y - 1 then prevMonday else if r.year == y then monday else nextMonday)
                     + 7 * (r.week - 1) + (r.weekday - 1)
  {
    var week := (today - monday) / 7;
    var day := (today - monday) % 7;
    WeeksFromMonday(today, monday);
    if week < 0 then
      PreviousYearWeeks(today, prevMonday, monday);
      IsoDate(y - 1, (today - prevMonday) / 7 + 1, (today - prevMonday) % 7 + 1)
    else if week >= 52 && today >= nextMonday then
      NextYearFirstWeek(today, monday, nextMonday);
      IsoDate(y + 1, 1, day + 1)
    else
      ThisYearWeeks(today, monday, nextMonday);
      IsoDate(y, week + 1, day + 1)
  }

  /** A day before this year's week 1 lies in one of the previous ISO
      year's at most 53 weeks. */
  lemma PreviousYearWeeks(today: int, prevMonday: int, monday: int)
    requires (prevMonday + 6) % 7 == 0
    requires prevMonday <= today < monday && monday - prevMonday <= 371
    ensures var w, k := (today - prevMonday) / 7, (today - prevMonday) % 7;
      0 <= w <= 52 && k == (today + 6) % 7 && today == prevMonday + 7 * w + k
  {
    WeeksFromMonday(today, prevMonday);
  }

  /** A day in the week starting at next year's week-1 Monday is that
      many days past it. */
  lemma NextYearFirstWeek(today: int, monday: int, nextMonday: int)
    requires (monday + 6) % 7 == 0 && (nextMonday + 6) % 7 == 0
    requires nextMonday <= today < nextMonday + 7
    ensures (today - monday) % 7 == today - nextMonday
  {
    WeeksFromMonday(today, monday);
    WeeksFromMonday(today, nextMonday);
  }

  /** A day of this ISO year lies in one of its at most 53 weeks. */
  lemma ThisYearWeeks(today: int, monday: int, nextMonday: int)
    requires monday <= today && nextMonday - monday <= 371 && today < nextMonday + 7
    requires (today - monday) / 7 < 52 || today < nextMonday
    ensures 0 <= (today - monday) / 7 <= 52
  {
  }

  /** Splitting the days since a Monday into whole weeks and a remainder;
      the remainder is the weekday. */
  lemma WeeksFromMonday(today: int, monday: int)
    requires (monday + 6) % 7 == 0
    ensures today - monday == 7 * ((today - monday) / 7) + (today - monday) % 7
    ensures (today + 6) % 7 == (today - monday) % 7
  {
    assert monday + 6 == 7 * ((monday + 6) / 7);
  }
}
