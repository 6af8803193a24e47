/** The calendar arithmetic behind `new Date(year, month - 1, day)` as the
    date rules of the sign-up form use it: a constructed date is compared with
    the current moment, so only its position on the proleptic Gregorian day line
    matters. Days are numbered from 1 January of year 0. */
module Calendar {

  datatype CivilDate = CivilDate(year: int, month: int, day: int)

  predicate IsLeapYear(y: int) {
    y % 4 == 0 && (y % 100 != 0 || y % 400 == 0)
  }

  function DaysInYear(y: int): int {
    if IsLeapYear(y) then 366 else 365
  }

  function DaysInMonth(y: int, m: int): int
    requires 1 <= m <= 12
  {
    if m == 2 then (if IsLeapYear(y) then 29 else 28)
    else if m == 4 || m == 6 || m == 9 || m == 11 then 30
    else 31
  }

  /** A real calendar date: the month exists and the day exists in that month. */
  predicate IsValidDate(d: CivilDate) {
    d.year >= 0 && 1 <= d.month <= 12 && 1 <= d.day <= DaysInMonth(d.year, d.month)
  }

  /** Days of the years 0 .. y-1: 365 each, plus one per leap year among them
      (multiples of 4, minus multiples of 100, plus multiples of 400). */
  function DaysBeforeYear(y: nat): int {
    365 * y + (y + 3) / 4 - (y + 99) / 100 + (y + 399) / 400
  }

  /** Days of the months 1 .. m-1 of year y. */
  function DaysBeforeMonth(y: int, m: int): int
    requires 1 <= m <= 12
  {
    var common := [0, 31, 59, 90, 120, 151, 181, 212, 243, 273, 304, 334][m - 1];
    if m > 2 && IsLeapYear(y) then common + 1 else common
  }

  /** Position on the day line of day `d.day` counted from the first of the
      month; a day outside the month simply runs into the neighbouring months. */
  function DayNumber(d: CivilDate): int
    requires d.year >= 0 && 1 <= d.month <= 12
  {
    DaysBeforeYear(d.year) + DaysBeforeMonth(d.year, d.month) + d.day - 1
  }

  /** The date `new Date(year, month - 1, day)` builds from the three captured
      fields: a year 0..99 means 1900..1999, an out-of-range month index moves
      whole years, and an out-of-range day moves into neighbouring months. */
  function ConstructedDate(year: nat, month: nat, day: nat): (r: CivilDate)
    ensures r.year >= 0 && 1 <= r.month <= 12 && r.day == day
  {
    var fullYear := if year <= 99 then 1900 + year else year;
    var monthIndex := month - 1;
    CivilDate(fullYear + monthIndex / 12, monthIndex % 12 + 1, day)
  }

  /** `new Date(year, month - 1, day) > new Date()`: midnight at the start of the
      constructed day is later than the current moment exactly when that day
      comes after the current calendar day. */
  predicate IsAfterToday(d: CivilDate, today: CivilDate)
    requires d.year >= 0 && 1 <= d.month <= 12
    requires IsValidDate(today)
  {
    DayNumber(d) > DayNumber(today)
  }

  /** Strict lexicographic order on (year, month, day). */
  predicate Precedes(a: CivilDate, b: CivilDate) {
    a.year < b.year
    || (a.year == b.year && a.month < b.month)
    || (a.year == b.year && a.month == b.month && a.day < b.day)
  }

  lemma DaysBeforeYearStep(y: nat)
    ensures DaysBeforeYear(y + 1) == DaysBeforeYear(y) + DaysInYear(y)
  {
    assert (y + 4) / 4 - (y + 3) / 4 == if y % 4 == 0 then 1 else 0;
    assert (y + 100) / 100 - (y + 99) / 100 == if y % 100 == 0 then 1 else 0;
    assert (y + 400) / 400 - (y + 399) / 400 == if y % 400 == 0 then 1 else 0;
  }

  /** Every year before `y2` contributes a whole year of days before `y2`. */
  lemma {:induction false} DaysBeforeLaterYear(y1: nat, y2: nat)
    requires y1 < y2
    ensures DaysBeforeYear(y1) + DaysInYear(y1) <= DaysBeforeYear(y2)
    decreases y2 - y1
  {
    DaysBeforeYearStep(y1);
    if y1 + 1 < y2 {
      DaysBeforeLaterYear(y1 + 1, y2);
      DaysBeforeYearStep(y1 + 1);
    }
  }

  lemma DaysBeforeLaterMonth(y: int, m1: int, m2: int)
    requires 1 <= m1 < m2 <= 12
    ensures DaysBeforeMonth(y, m1) + DaysInMonth(y, m1) <= DaysBeforeMonth(y, m2)
  {
  }

  lemma DayOfYearBounds(d: CivilDate)
    requires IsValidDate(d)
    ensures 0 <= DaysBeforeMonth(d.year, d.month) + d.day - 1 < DaysInYear(d.year)
  {
  }

  /** On real dates the day line runs in calendar order. */
  lemma DayNumberMonotone(a: CivilDate, b: CivilDate)
    requires IsValidDate(a) && IsValidDate(b)
    requires Precedes(a, b)
    ensures DayNumber(a) < DayNumber(b)
  {
    DayOfYearBounds(a);
    DayOfYearBounds(b);
    if a.year < b.year {
      DaysBeforeLaterYear(a.year, b.year);
    } else if a.month < b.month {
      DaysBeforeLaterMonth(a.year, a.month, b.month);
    }
  }

  /** For a real date, being after today on the day line is being later in the calendar. */
  lemma AfterTodayIsCalendarOrder(d: CivilDate, today: CivilDate)
    requires IsValidDate(d) && IsValidDate(today)
    ensures IsAfterToday(d, today) <==> Precedes(today, d)
  {
    if Precedes(today, d) {
      DayNumberMonotone(today, d);
    } else if Precedes(d, today) {
      DayNumberMonotone(d, today);
    } else {
      assert d == today;
    }
  }

  /** Example: 31/02/2023 is built as 3 March 2023. */
  lemma RolloverPastMonthEnd()
    ensures DayNumber(ConstructedDate(2023, 2, 31)) == DayNumber(CivilDate(2023, 3, 3))
  {
  }

  /** Example: day 00 of January 2020 is built as 31 December 2019. */
  lemma RolloverDayZero()
    ensures DayNumber(ConstructedDate(2020, 1, 0)) == DayNumber(CivilDate(2019, 12, 31))
  {
  }

  /** Example: a two-digit year field such as 0050 means 1950. */
  lemma TwoDigitYear()
    ensures ConstructedDate(50, 6, 15) == CivilDate(1950, 6, 15)
  {
  }

  /** From year 100 on, a real date is built as itself. */
  lemma ConstructedRealDate(year: nat, month: nat, day: nat)
    requires year >= 100 && IsValidDate(CivilDate(year, month, day))
    ensures ConstructedDate(year, month, day) == CivilDate(year, month, day)
  {
  }
}
