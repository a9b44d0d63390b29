/**
  The proleptic Gregorian calendar as ECMA-262 section 21.4.1 defines it: day
  numbers count from 1 January 1970, and `Date.UTC` accepts months and days out
  of range.
 */
module Calendar {

  datatype Civil = Civil(year: int, month: int, day: int)

  predicate IsLeap(y: int) { (y % 4 == 0 && y % 100 != 0) || y % 400 == 0 }

  /** DayFromYear. */
  function YearStart(y: int): int {
    365 * (y - 1970) + (y - 1969) / 4 - (y - 1901) / 100 + (y - 1601) / 400
  }

  function DaysInYear(y: int): int { if IsLeap(y) then 366 else 365 }

  function DaysInMonth(y: int, m: int): int {
    if m == 2 then (if IsLeap(y) then 29 else 28)
    else if m == 4 || m == 6 || m == 9 || m == 11 then 30
    else 31
  }

  /** Days of year `y` before month `m`; 13 stands for the end of the year. */
  function MonthStart(y: int, m: int): int {
    if m <= 1 then 0 else MonthStart(y, m - 1) + DaysInMonth(y, m - 1)
  }

  predicate Valid(c: Civil) { 1 <= c.month <= 12 && 1 <= c.day <= DaysInMonth(c.year, c.month) }

  function DayNumber(c: Civil): int {
    YearStart(c.year) + MonthStart(c.year, c.month) + c.day - 1
  }

  // --- from a day number back to a date ------------------------------------------

  lemma FourStep(y: int)
    ensures (y - 1968) / 4 == (y - 1969) / 4 + if y % 4 == 0 then 1 else 0
  {
  }

  lemma HundredStep(y: int)
    ensures (y - 1900) / 100 == (y - 1901) / 100 + if y % 100 == 0 then 1 else 0
  {
  }

  lemma FourHundredStep(y: int)
    ensures (y - 1600) / 400 == (y - 1601) / 400 + if y % 400 == 0 then 1 else 0
  {
  }

  lemma LeapCases(y: int)
    ensures y % 400 == 0 ==> y % 100 == 0
    ensures y % 100 == 0 ==> y % 4 == 0
  {
  }

  lemma YearLength(y: int)
    ensures YearStart(y + 1) == YearStart(y) + DaysInYear(y)
  {
    FourStep(y);
    HundredStep(y);
    FourHundredStep(y);
    LeapCases(y);
  }

  lemma MonthLengths(y: int)
    ensures MonthStart(y, 2) == 31 && MonthStart(y, 3) == 31 + DaysInMonth(y, 2)
    ensures MonthStart(y, 4) == MonthStart(y, 3) + 31 && MonthStart(y, 5) == MonthStart(y, 3) + 61
    ensures MonthStart(y, 6) == MonthStart(y, 3) + 92 && MonthStart(y, 7) == MonthStart(y, 3) + 122
    ensures MonthStart(y, 8) == MonthStart(y, 3) + 153 && MonthStart(y, 9) == MonthStart(y, 3) + 184
    ensures MonthStart(y, 10) == MonthStart(y, 3) + 214 && MonthStart(y, 11) == MonthStart(y, 3) + 245
    ensures MonthStart(y, 12) == MonthStart(y, 3) + 275 && MonthStart(y, 13) == DaysInYear(y)
  {
    assert MonthStart(y, 5) == MonthStart(y, 4) + 30;
    assert MonthStart(y, 7) == MonthStart(y, 6) + 30;
    assert MonthStart(y, 9) == MonthStart(y, 8) + 31;
    assert MonthStart(y, 11) == MonthStart(y, 10) + 31;
    assert MonthStart(y, 13) == MonthStart(y, 12) + 31;
  }

  function YearUp(n: int, y: int): int
    decreases n - YearStart(y)
  {
    YearLength(y);
    if n < YearStart(y + 1) then y else YearUp(n, y + 1)
  }

  function YearDown(n: int, y: int): int
    decreases YearStart(y + 1) - n
  {
    YearLength(y);
    if YearStart(y) <= n then y else YearDown(n, y - 1)
  }

  /** YearFromTime: the year whose days include `n`. */
  function YearOf(n: int): int {
    if 0 <= n then YearUp(n, 1970) else YearDown(n, 1969)
  }

  function MonthUp(y: int, d: int, m: int): int
    decreases 12 - m
  {
    if m >= 12 || d < MonthStart(y, m + 1) then m else MonthUp(y, d, m + 1)
  }

  /** getUTCFullYear, getUTCMonth and getUTCDate of a day. */
  function CivilOf(n: int): Civil {
    var y := YearOf(n);
    var m := MonthUp(y, n - YearStart(y), 1);
    Civil(y, m, n - YearStart(y) - MonthStart(y, m) + 1)
  }

  lemma {:induction false} YearUpFacts(n: int, y: int)
    requires YearStart(y) <= n
    ensures YearStart(YearUp(n, y)) <= n < YearStart(YearUp(n, y) + 1)
    decreases n - YearStart(y)
  {
    YearLength(y);
    hide YearStart;
    if n >= YearStart(y + 1) {
      YearUpFacts(n, y + 1);
    }
  }

  lemma {:induction false} YearDownFacts(n: int, y: int)
    requires n < YearStart(y + 1)
    ensures YearStart(YearDown(n, y)) <= n < YearStart(YearDown(n, y) + 1)
    decreases YearStart(y + 1) - n
  {
    YearLength(y);
    hide YearStart;
    if n < YearStart(y) {
      YearDownFacts(n, y - 1);
    }
  }

  lemma {:induction false} MonthUpFacts(y: int, d: int, m: int)
    requires 1 <= m <= 12 && MonthStart(y, m) <= d < MonthStart(y, 13)
    ensures m <= MonthUp(y, d, m) <= 12
    ensures MonthStart(y, MonthUp(y, d, m)) <= d < MonthStart(y, MonthUp(y, d, m) + 1)
    decreases 12 - m
  {
    if m < 12 && d >= MonthStart(y, m + 1) {
      MonthUpFacts(y, d, m + 1);
    }
  }

  lemma YearOfFacts(n: int)
    ensures YearStart(YearOf(n)) <= n < YearStart(YearOf(n)) + DaysInYear(YearOf(n))
  {
    if 0 <= n { YearUpFacts(n, 1970); } else { YearDownFacts(n, 1969); }
    YearLength(YearOf(n));
  }

  lemma MonthOfFacts(y: int, d: int)
    requires 0 <= d < DaysInYear(y)
    ensures 1 <= MonthUp(y, d, 1) <= 12
    ensures MonthStart(y, MonthUp(y, d, 1)) <= d < MonthStart(y, MonthUp(y, d, 1)) + DaysInMonth(y, MonthUp(y, d, 1))
  {
    MonthLengths(y);
    MonthUpFacts(y, d, 1);
  }

  /** Every day has a valid date, and that date's number is the day. */
  lemma CivilOfFacts(n: int)
    ensures Valid(CivilOf(n)) && DayNumber(CivilOf(n)) == n
  {
    hide YearStart, MonthStart, YearOf, MonthUp;
    YearOfFacts(n);
    MonthOfFacts(YearOf(n), n - YearStart(YearOf(n)));
  }

  // --- order ----------------------------------------------------------------------

  predicate Before(a: Civil, b: Civil) {
    a.year < b.year || (a.year == b.year && (a.month < b.month || (a.month == b.month && a.day < b.day)))
  }

  lemma {:induction false} YearsIncrease(a: int, b: int)
    requires a <= b
    ensures YearStart(a) + 365 * (b - a) <= YearStart(b)
    decreases b - a
  {
    if a < b {
      YearLength(a);
      YearsIncrease(a + 1, b);
    }
  }

  lemma {:induction false} MonthsIncrease(y: int, a: int, b: int)
    requires 1 <= a <= b <= 13
    ensures MonthStart(y, a) + 28 * (b - a) <= MonthStart(y, b)
    decreases b - a
  {
    if a < b {
      MonthsIncrease(y, a, b - 1);
    }
  }

  lemma DayInYear(c: Civil)
    requires Valid(c)
    ensures 0 <= MonthStart(c.year, c.month) + c.day - 1 < MonthStart(c.year, c.month + 1) <= DaysInYear(c.year)
  {
    hide YearStart;
    MonthsIncrease(c.year, 1, c.month);
    MonthsIncrease(c.year, c.month + 1, 13);
    MonthLengths(c.year);
  }

  /** Day numbers order dates as year, month, day do. */
  lemma DayNumberMonotone(a: Civil, b: Civil)
    requires Valid(a) && Valid(b) && Before(a, b)
    ensures DayNumber(a) < DayNumber(b)
  {
    hide YearStart;
    DayInYear(a);
    DayInYear(b);
    if a.year < b.year {
      YearLength(a.year);
      YearsIncrease(a.year + 1, b.year);
    } else if a.month < b.month {
      MonthsIncrease(a.year, a.month + 1, b.month);
    }
  }

  lemma BeforeTotal(a: Civil, b: Civil)
    ensures a == b || Before(a, b) || Before(b, a)
  {
  }

  /** A valid date is the only one with its day number. */
  lemma CivilOfDayNumber(c: Civil)
    requires Valid(c)
    ensures CivilOf(DayNumber(c)) == c
  {
    var b := CivilOf(DayNumber(c));
    CivilOfFacts(DayNumber(c));
    BeforeTotal(b, c);
    if Before(b, c) {
      DayNumberMonotone(b, c);
    } else if Before(c, b) {
      DayNumberMonotone(c, b);
    }
  }

  lemma CivilOfMonotone(m: int, n: int)
    requires m < n
    ensures Before(CivilOf(m), CivilOf(n))
  {
    CivilOfFacts(m);
    CivilOfFacts(n);
    BeforeTotal(CivilOf(m), CivilOf(n));
    if Before(CivilOf(n), CivilOf(m)) {
      DayNumberMonotone(CivilOf(n), CivilOf(m));
    }
  }

  // --- weekdays and MakeDay -----------------------------------------------------------

  /** getUTCDay: 0 is Sunday; 1 January 1970 was a Thursday. */
  function Weekday(n: int): int { (n + 4) % 7 }

  /**
    The day of the week of a date by Zeller's congruence, 0 for Sunday: January
    and February count as months 13 and 14 of the year before.
   */
  function DayOfWeek(c: Civil): int {
    var y := if c.month <= 2 then c.year - 1 else c.year;
    var m := if c.month <= 2 then c.month + 12 else c.month;
    (c.day + 13 * (m + 1) / 5 + y + y / 4 - y / 100 + y / 400 + 6) % 7
  }

  lemma YearShift(y: int)
    ensures YearStart(y + 1) == 365 * y + y / 4 - y / 100 + y / 400 - 719162
  {
    assert (y + 1 - 1969) / 4 == y / 4 - 492;
    assert (y + 1 - 1901) / 100 == y / 100 - 19;
    assert (y + 1 - 1601) / 400 == y / 400 - 4;
  }

  /** The days from 1 March on, as Zeller counts them. */
  lemma ZellerMonths(y: int, m: int)
    requires 1 <= m <= 12
    ensures m <= 2 ==> MonthStart(y, m) == 13 * (m + 13) / 5 + 28 * (m + 12) - 400
    ensures m > 2 ==> MonthStart(y, m) == DaysInYear(y) + 13 * (m + 1) / 5 + 28 * m - 400
  {
    MonthLengths(y);
  }

  /** The weekday counted from the epoch is the date's own, whatever the year. */
  lemma WeekdayOfDate(c: Civil)
    requires Valid(c)
    ensures Weekday(DayNumber(c)) == DayOfWeek(c)
  {
    var y := if c.month <= 2 then c.year - 1 else c.year;
    var m := if c.month <= 2 then c.month + 12 else c.month;
    var z := c.day + 13 * (m + 1) / 5 + y + y / 4 - y / 100 + y / 400;
    ZellerMonths(c.year, c.month);
    YearLength(c.year);
    YearShift(y);
    hide YearStart, MonthStart, DaysInYear;
    assert DayNumber(c) == z + 7 * (52 * y + 4 * m - 102_795) + 2;
    SevenApart(z + 6, 52 * y + 4 * m - 102_795);
  }

  lemma WeekdayOfDay(n: int)
    ensures DayOfWeek(CivilOf(n)) == Weekday(n)
  {
    hide CivilOf, DayOfWeek, DayNumber;
    CivilOfFacts(n);
    WeekdayOfDate(CivilOf(n));
  }

  lemma SevenApart(a: int, k: int)
    ensures (a + 7 * k) % 7 == a % 7
  {
  }

  /** How far back the Monday on or before day `n` is. */
  function DaysFromMonday(n: int): int { if Weekday(n) == 0 then 6 else Weekday(n) - 1 }

  function MondayOf(n: int): int { n - DaysFromMonday(n) }

  lemma MondayFacts(n: int)
    ensures Weekday(MondayOf(n)) == 1 && MondayOf(n) <= n <= MondayOf(n) + 6
  {
  }

  /** The Monday of a day is the date of a Monday, at most six days back. */
  lemma MondayIsMonday(n: int)
    ensures DayOfWeek(CivilOf(MondayOf(n))) == 1 && MondayOf(n) <= n <= MondayOf(n) + 6
  {
    hide CivilOf, DayOfWeek;
    MondayFacts(n);
    WeekdayOfDay(MondayOf(n));
  }

  lemma MondayMonotone(m: int, n: int)
    requires m <= n
    ensures MondayOf(m) <= MondayOf(n)
  {
  }

  lemma MondayUnique(n: int, monday: int)
    requires Weekday(monday) == 1 && monday <= n <= monday + 6
    ensures MondayOf(n) == monday
  {
  }

  /** MakeDay with `month` counted from 1: months and days carry over. */
  function MakeDay(year: int, month: int, day: int): int {
    var ym := year + (month - 1) / 12;
    var mn := (month - 1) % 12 + 1;
    DayNumber(Civil(ym, mn, 1)) + day - 1
  }

  /** Twelve months are a year and a day is a day, also out of range; with `MakeDayInRange` this is all of MakeDay. */
  lemma MonthsCarry(year: int, month: int, day: int, days: int)
    ensures MakeDay(year, month + 12, day) == MakeDay(year + 1, month, day)
    ensures MakeDay(year, month, day + days) == MakeDay(year, month, day) + days
  {
    assert (month + 11) / 12 == (month - 1) / 12 + 1 && (month + 11) % 12 == (month - 1) % 12;
  }

  /** `Date.UTC` reads years 0 to 99 as 1900 to 1999. */
  function FullYear(year: int): int { if 0 <= year <= 99 then 1900 + year else year }

  function DateUtcDay(year: int, month: int, day: int): int { MakeDay(FullYear(year), month, day) }

  lemma MakeDayInRange(year: int, month: int, day: int)
    requires 1 <= month <= 12
    ensures MakeDay(year, month, day) == DayNumber(Civil(year, month, day))
  {
  }
}
