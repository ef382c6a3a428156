/**
  Civil dates and times in the proleptic Gregorian calendar, as Python's
  `datetime` module counts them: day 1 is 0001-01-01, a Monday, and
  `weekday()` numbers Monday 0 through Sunday 6.
 */
module Calendar {

  function IsLeap(year: int): bool {
    year % 4 == 0 && (year % 100 != 0 || year % 400 == 0)
  }

  function DaysInMonth(year: int, month: int): (n: int)
    requires 1 <= month <= 12
    ensures 28 <= n <= 31
  {
    if month == 2 then (if IsLeap(year) then 29 else 28)
    else if month in {4, 6, 9, 11} then 30
    else 31
  }

  datatype Date = Date(year: int, month: int, day: int) {
    /** Python's `date` accepts years 1 through 9999. */
    predicate Valid() {
      1 <= year <= 9999 && 1 <= month <= 12 && 1 <= day <= DaysInMonth(year, month)
    }
  }

  datatype Time = Time(hour: int, minute: int, second: int, microsecond: int) {
    predicate Valid() {
      0 <= hour < 24 && 0 <= minute < 60 && 0 <= second < 60 && 0 <= microsecond < 1000000
    }
  }

  type CivilDate = d: Date | d.Valid() witness Date(1, 1, 1)
  type CivilTime = t: Time | t.Valid() witness Time(0, 0, 0, 0)

  /** A naive date-time value, `datetime.combine(date, time)`. */
  datatype DateTime = DateTime(date: CivilDate, time: CivilTime)

  function DaysInYear(year: int): int {
    if IsLeap(year) then 366 else 365
  }

  /** Days in the years 1 through `year - 1`. */
  function DaysBeforeYear(year: int): int
    decreases year
  {
    if year <= 1 then 0 else DaysBeforeYear(year - 1) + DaysInYear(year - 1)
  }

  /** Days in the months of `year` before `month`. */
  function DaysBeforeMonth(year: int, month: int): int
    requires 1 <= month <= 12
    decreases month
  {
    if month == 1 then 0 else DaysBeforeMonth(year, month - 1) + DaysInMonth(year, month - 1)
  }

  /** Python's closed form `_days_before_year`. */
  function DaysBeforeYearFormula(year: int): int {
    var y := year - 1;
    y * 365 + y / 4 - y / 100 + y / 400
  }

  /** Python's table form `_days_before_month`. */
  function DaysBeforeMonthTable(year: int, month: int): int
    requires 1 <= month <= 12
  {
    [0, 31, 59, 90, 120, 151, 181, 212, 243, 273, 304, 334][month - 1]
      + (if month > 2 && IsLeap(year) then 1 else 0)
  }

  lemma FormulaStep(year: int)
    requires year >= 1
    ensures DaysBeforeYearFormula(year + 1) == DaysBeforeYearFormula(year) + DaysInYear(year)
  {
    var y := year - 1;
    assert (y + 1) / 4 - y / 4 == (if year % 4 == 0 then 1 else 0);
    assert (y + 1) / 100 - y / 100 == (if year % 100 == 0 then 1 else 0);
    assert (y + 1) / 400 - y / 400 == (if year % 400 == 0 then 1 else 0);
  }

  /** The closed form counts the same days as summing the year lengths. */
  lemma {:induction false} DaysBeforeYearAgrees(year: int)
    requires year >= 1
    ensures DaysBeforeYear(year) == DaysBeforeYearFormula(year)
    decreases year
  {
    if year > 1 {
      DaysBeforeYearAgrees(year - 1);
      FormulaStep(year - 1);
    }
  }

  /** The month table counts the same days as summing the month lengths. */
  lemma {:induction false} DaysBeforeMonthAgrees(year: int, month: int)
    requires 1 <= month <= 12
    ensures DaysBeforeMonth(year, month) == DaysBeforeMonthTable(year, month)
    decreases month
  {
    if month > 1 {
      DaysBeforeMonthAgrees(year, month - 1);
    }
  }

  /** Day number of `d`, 0001-01-01 being day 1 (Python's `toordinal`). */
  function Ordinal(d: CivilDate): int {
    DaysBeforeYear(d.year) + DaysBeforeMonth(d.year, d.month) + d.day
  }

  /** Python's `date.weekday()`: 0 = Monday, ..., 6 = Sunday. */
  function Weekday(d: CivilDate): (w: int)
    ensures 0 <= w <= 6
  {
    (Ordinal(d) + 6) % 7
  }

  /** The last day Python can represent. */
  const LastDay: CivilDate := Date(9999, 12, 31)

  /** The calendar day after `d`. */
  function NextDay(d: CivilDate): (e: CivilDate)
    requires d != LastDay
  {
    if d.day < DaysInMonth(d.year, d.month) then Date(d.year, d.month, d.day + 1)
    else if d.month < 12 then Date(d.year, d.month + 1, 1)
    else Date(d.year + 1, 1, 1)
  }

  /** Consecutive calendar days have consecutive day numbers. */
  lemma NextDayOrdinal(d: CivilDate)
    requires d != LastDay
    ensures Ordinal(NextDay(d)) == Ordinal(d) + 1
  {
  }

  /** Weekday numbering on day numbers: the next day number has the next weekday. */
  lemma ShiftedModStep(a: int, b: int)
    requires b == a + 1
    ensures (b + 6) % 7 == ((a + 6) % 7 + 1) % 7
  {
  }

  /** A day after a day with the next day number falls on the next weekday. */
  lemma WeekdayStep(d: CivilDate, e: CivilDate)
    requires Ordinal(e) == Ordinal(d) + 1
    ensures Weekday(e) == (Weekday(d) + 1) % 7
  {
    ShiftedModStep(Ordinal(d), Ordinal(e));
  }

  /** The weekday advances by one, modulo 7, from each day to the next. */
  lemma NextDayWeekday(d: CivilDate)
    requires d != LastDay
    ensures Weekday(NextDay(d)) == (Weekday(d) + 1) % 7
  {
    NextDayOrdinal(d);
    WeekdayStep(d, NextDay(d));
  }

  /** 0001-01-01 is day 1 of the calendar. */
  lemma FirstDayOrdinal(d: CivilDate)
    requires d == Date(1, 1, 1)
    ensures Ordinal(d) == 1
  {
  }

  /** Day number 1 has weekday 0. */
  lemma DayOneWeekday(d: CivilDate)
    requires Ordinal(d) == 1
    ensures Weekday(d) == 0
  {
  }

  /** 0001-01-01 is a Monday. */
  lemma FirstDayIsMonday(d: CivilDate)
    requires d == Date(1, 1, 1)
    ensures Weekday(d) == 0
  {
    FirstDayOrdinal(d);
    DayOneWeekday(d);
  }
}
