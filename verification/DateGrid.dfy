/** The month grid of the date picker (date-grid.ts); months count from 1. */
module DateGrid {
  import opened Prelude
  import opened Calendar
  import Buckets
  import Text

  /** `date` is None where the code's three fields are NaN. */
  datatype MonthCell = MonthCell(iso: string, date: Option<Civil>, inMonth: bool)

  datatype YearMonth = YearMonth(year: int, month: int)

  /** Time values reach this many days from the epoch either way (section 21.4.1.1 of ECMA-262). */
  const MAX_DAY := 100_000_000

  predicate Representable(day: int) { -MAX_DAY <= day <= MAX_DAY }

  /** `Date.UTC`, in days; None is NaN. */
  function UtcDay(year: int, month: int, day: int): Option<int> {
    if Representable(DateUtcDay(year, month, day)) then Some(DateUtcDay(year, month, day)) else None
  }

  /** `padYear`, `pad2` and `pad2` of the date. */
  function IsoOf(c: Civil): string {
    Text.PadStart(Text.IntText(c.year), 4) + "-" + Text.PadStart(Text.IntText(c.month), 2) + "-" + Text.PadStart(Text.IntText(c.day), 2)
  }

  /** Monday = 0 up to Sunday = 6. */
  function FirstWeekday(year: int, month: int): Option<int> {
    match UtcDay(year, month, 1)
    case None => None
    case Some(first) => Some((Weekday(first) + 6) % 7)
  }

  function CellOf(day: Option<int>, month: int): MonthCell {
    match day
    case None => MonthCell("0NaN-NaN-NaN", None, false)
    case Some(d) =>
      var c := CivilOf(d);
      MonthCell(IsoOf(c), Some(c), c.month == month)
  }

  /** The day in cell `i`: the grid starts on the Monday on or before the first. */
  function CellDay(year: int, month: int, i: int): Option<int> {
    match FirstWeekday(year, month)
    case None => None
    case Some(lead) => UtcDay(year, month, i + 1 - lead)
  }

  function Cell(year: int, month: int, i: int): MonthCell { CellOf(CellDay(year, month, i), month) }

  lemma CellsConsecutive(year: int, month: int, i: int, j: int)
    requires CellDay(year, month, i).Some? && CellDay(year, month, j).Some?
    ensures CellDay(year, month, j).value - CellDay(year, month, i).value == j - i
  {
    hide YearStart, MonthStart;
  }

  /** 42 cells holding consecutive days, as far as dates go, for any arguments. */
  method MonthGrid(year: int, month: int) returns (cells: seq<MonthCell>)
    ensures |cells| == 42
    ensures forall i :: 0 <= i < 42 ==> cells[i] == Cell(year, month, i)
    ensures forall i, j :: 0 <= i < 42 && 0 <= j < 42 && CellDay(year, month, i).Some? && CellDay(year, month, j).Some? ==>
      CellDay(year, month, j).value - CellDay(year, month, i).value == j - i
  {
    hide CivilOf, IsoOf, UtcDay, FirstWeekday;
    var lead := FirstWeekday(year, month);
    cells := [];
    for i := 0 to 42
      invariant |cells| == i
      invariant forall k :: 0 <= k < i ==> cells[k] == Cell(year, month, k)
    {
      var day := if lead == None then None else UtcDay(year, month, i + 1 - lead.value);
      if day == None {
        cells := cells + [MonthCell("0NaN-NaN-NaN", None, false)];
      } else {
        var date := CivilOf(day.value);
        cells := cells + [MonthCell(IsoOf(date), Some(date), date.month == month)];
      }
    }
    forall i, j | 0 <= i < 42 && 0 <= j < 42 && CellDay(year, month, i).Some? && CellDay(year, month, j).Some?
      ensures CellDay(year, month, j).value - CellDay(year, month, i).value == j - i
    {
      CellsConsecutive(year, month, i, j);
    }
  }

  // --- what the cells are ---------------------------------------------------------------

  lemma DayOf(c: Civil, day: int)
    requires Valid(c) && DayNumber(c) == day
    ensures CivilOf(day) == c
  {
    CivilOfDayNumber(c);
  }

  function Previous(year: int, month: int): YearMonth {
    if month == 1 then YearMonth(year - 1, 12) else YearMonth(year, month - 1)
  }

  function Next(year: int, month: int): YearMonth {
    if month == 12 then YearMonth(year + 1, 1) else YearMonth(year, month + 1)
  }

  lemma MonthBoundaries(year: int, month: int)
    requires 1 <= month <= 12
    ensures var p := Previous(year, month);
      DayNumber(Civil(year, month, 1)) == DayNumber(Civil(p.year, p.month, 1)) + DaysInMonth(p.year, p.month)
    ensures var n := Next(year, month);
      DayNumber(Civil(n.year, n.month, 1)) == DayNumber(Civil(year, month, 1)) + DaysInMonth(year, month)
  {
    hide YearStart;
    YearLength(year - 1);
    YearLength(year);
    MonthLengths(year - 1);
    MonthLengths(year);
  }

  /** A day near the first of a month is in that month exactly when it is one of its days. */
  lemma NearbyDay(year: int, month: int, k: int)
    requires 1 <= month <= 12 && -7 <= k < DaysInMonth(year, month) + 15
    ensures var c := CivilOf(DayNumber(Civil(year, month, 1)) + k);
      if 0 <= k < DaysInMonth(year, month) then c == Civil(year, month, k + 1) else c.month != month
  {
    hide YearStart, MonthStart, CivilOf;
    var day := DayNumber(Civil(year, month, 1)) + k;
    MonthBoundaries(year, month);
    if k < 0 {
      var p := Previous(year, month);
      DayOf(Civil(p.year, p.month, DaysInMonth(p.year, p.month) + k + 1), day);
    } else if k < DaysInMonth(year, month) {
      DayOf(Civil(year, month, k + 1), day);
    } else {
      var n := Next(year, month);
      DayOf(Civil(n.year, n.month, k - DaysInMonth(year, month) + 1), day);
    }
  }

  /** The first of the month, for the years that `Date.UTC` takes as they are. */
  function First(year: int, month: int): int { DayNumber(Civil(year, month, 1)) }

  lemma GridDays(year: int, month: int, i: int)
    requires 1 <= month <= 12 && !(0 <= year <= 99) && Representable(First(year, month))
    ensures FirstWeekday(year, month) == Some((Weekday(First(year, month)) + 6) % 7)
    ensures var day := First(year, month) + i - FirstWeekday(year, month).value;
      CellDay(year, month, i) == if Representable(day) then Some(day) else None
  {
    hide YearStart, MonthStart;
    MakeDayInRange(year, month, 1);
    MakeDayInRange(year, month, i + 1 - FirstWeekday(year, month).value);
  }

  /** The columns run from Monday to Sunday. */
  lemma GridColumns(year: int, month: int, i: int)
    requires 1 <= month <= 12 && !(0 <= year <= 99) && Representable(First(year, month))
    ensures FirstWeekday(year, month).Some?
    ensures DayOfWeek(CivilOf(First(year, month) - FirstWeekday(year, month).value)) == 1
    ensures Cell(year, month, i).date.Some? ==> DayOfWeek(Cell(year, month, i).date.value) == (i + 1) % 7
  {
    hide YearStart, MonthStart, CivilOf, DayNumber, IsoOf, DayOfWeek, UtcDay;
    GridDays(year, month, i);
    var monday := First(year, month) - FirstWeekday(year, month).value;
    WeekdayOfDay(monday);
    WeekdayOfDay(monday + i);
    hide FirstWeekday;
  }

  /** The first cell is a Monday, and the cells of the month are its days 1 to the last, in order, as far as dates go. */
  lemma GridShowsMonth(year: int, month: int, i: int)
    requires 1 <= month <= 12 && !(0 <= year <= 99) && Representable(First(year, month)) && 0 <= i < 42
    ensures FirstWeekday(year, month).Some?
    ensures var lead := FirstWeekday(year, month).value;
      && 0 <= lead <= 6 && lead + DaysInMonth(year, month) <= 42 && DayOfWeek(CivilOf(First(year, month) - lead)) == 1
    ensures Cell(year, month, i).date.Some? ==> DayOfWeek(Cell(year, month, i).date.value) == (i + 1) % 7
    ensures var cell, k := Cell(year, month, i), i - FirstWeekday(year, month).value;
      if 0 <= k < DaysInMonth(year, month) && Representable(First(year, month) + k)
      then cell == MonthCell(IsoOf(Civil(year, month, k + 1)), Some(Civil(year, month, k + 1)), true)
      else !cell.inMonth
  {
    hide YearStart, MonthStart, CivilOf, DayNumber, IsoOf, DayOfWeek, UtcDay;
    GridColumns(year, month, i);
    GridDays(year, month, i);
    hide FirstWeekday;
    NearbyDay(year, month, i - FirstWeekday(year, month).value);
  }

  /** Every day of the month has its own cell in the grid. */
  ghost predicate ShowsMonth(year: int, month: int) {
    forall d :: 1 <= d <= DaysInMonth(year, month) ==> ShowsDay(year, month, d)
  }

  ghost predicate ShowsDay(year: int, month: int, d: int) {
    exists i :: 0 <= i < 42 && Cell(year, month, i).inMonth && Cell(year, month, i).date == Some(Civil(year, month, d))
  }

  /**
    The grid shows the month asked for exactly when `Date.UTC` takes its year as
    it is, so not 0 to 99, and the month lies within the dates there are.
   */
  lemma MonthShownExactlyWhen(year: int, month: int)
    requires 1 <= month <= 12
    ensures ShowsMonth(year, month) <==>
      !(0 <= year <= 99) && -100_000_000 <= First(year, month) && First(year, month) + DaysInMonth(year, month) - 1 <= 100_000_000
  {
    hide YearStart, MonthStart, CivilOf, DayNumber, IsoOf, FirstWeekday, Cell, ShowsDay;
    var first, length := First(year, month), DaysInMonth(year, month);
    if 0 <= year <= 99 {
      RemappedYear(year, month);
    } else if !Representable(first) {
      NoDates(year, month);
    } else if Representable(first + length - 1) {
      forall d | 1 <= d <= length ensures ShowsDay(year, month, d) {
        DayShownExactlyWhen(year, month, d);
      }
    } else {
      DayShownExactlyWhen(year, month, length);
    }
  }

  lemma DayShownExactlyWhen(year: int, month: int, d: int)
    requires 1 <= month <= 12 && !(0 <= year <= 99) && Representable(First(year, month)) && 1 <= d <= DaysInMonth(year, month)
    ensures ShowsDay(year, month, d) <==> Representable(First(year, month) + d - 1)
  {
    hide YearStart, MonthStart, CivilOf, DayNumber, IsoOf, FirstWeekday, Cell, First;
    GridShowsMonth(year, month, 0);
    var at := d - 1 + FirstWeekday(year, month).value;
    GridShowsMonth(year, month, at);
    forall i | 0 <= i < 42 && Cell(year, month, i).inMonth && Cell(year, month, i).date == Some(Civil(year, month, d))
      ensures Representable(First(year, month) + d - 1)
    {
      GridShowsMonth(year, month, i);
    }
  }

  /** The years 0 to 99 are shown as 1900 to 1999. */
  lemma RemappedYear(year: int, month: int)
    requires 1 <= month <= 12 && 0 <= year <= 99
    ensures !ShowsDay(year, month, 1)
  {
    hide YearStart, MonthStart, CivilOf, IsoOf;
    TwentiethCentury(year, month);
    forall i | 0 <= i < 42 && Cell(year, month, i).inMonth ensures Cell(year, month, i).date != Some(Civil(year, month, 1)) {
      SameGrid(year, month, i);
      GridShowsMonth(1900 + year, month, i);
    }
  }

  lemma SameGrid(year: int, month: int, i: int)
    requires 0 <= year <= 99
    ensures Cell(year, month, i) == Cell(1900 + year, month, i)
  {
    hide YearStart, MonthStart, CivilOf, IsoOf;
  }

  lemma TwentiethCentury(year: int, month: int)
    requires 1 <= month <= 12 && 0 <= year <= 99
    ensures Representable(First(1900 + year, month))
  {
    assert YearStart(1900) == -25567 && YearStart(2000) == 10957;
    hide YearStart;
    YearsIncrease(1900, 1900 + year);
    YearsIncrease(1900 + year, 2000);
    MonthsIncrease(1900 + year, 1, month);
    MonthsIncrease(1900 + year, month, 13);
    MonthLengths(1900 + year);
  }

  lemma NoDates(year: int, month: int)
    requires 1 <= month <= 12 && !(0 <= year <= 99) && !Representable(First(year, month))
    ensures !ShowsDay(year, month, 1)
  {
    hide YearStart, MonthStart, CivilOf, IsoOf;
    MakeDayInRange(year, month, 1);
  }

  lemma PadTwo(n: nat)
    requires n <= 99
    ensures Text.PadStart(Text.Decimal(n), 2) == Buckets.Two(n)
  {
    if n < 10 {
      PadOnce(Text.Decimal(n), 2);
    } else {
      assert Text.Decimal(n) == Text.Decimal(n / 10) + [Text.Digit(n % 10)];
    }
  }

  lemma PadOnce(s: string, width: nat)
    requires |s| < width
    ensures Text.PadStart(s, width) == Text.PadStart("0" + s, width)
  {
  }

  /** Padding to four places pads the number of hundreds and the rest to two each. */
  lemma PadFour(n: nat)
    requires n <= 9999
    ensures Text.PadStart(Text.Decimal(n), 4) == Buckets.Two(n / 100) + Buckets.Two(n % 100)
  {
    if n < 10 {
      PadDigit(n);
    } else if n < 100 {
      PadTens(n);
    } else if n < 1000 {
      PadHundreds(n);
    } else {
      Text.DecimalLength(n);
      Buckets.DecimalOfFour(n);
    }
  }

  lemma PadDigit(n: nat)
    requires n < 10
    ensures Text.PadStart(Text.Decimal(n), 4) == Buckets.Two(0) + Buckets.Two(n)
  {
    var s := Text.Decimal(n);
    PadOnce(s, 4);
    PadOnce("0" + s, 4);
    PadOnce("0" + ("0" + s), 4);
    assert "0" + ("0" + ("0" + s)) == Buckets.Two(0) + Buckets.Two(n);
  }

  lemma PadTens(n: nat)
    requires 10 <= n < 100
    ensures Text.PadStart(Text.Decimal(n), 4) == Buckets.Two(0) + Buckets.Two(n)
  {
    var s := Text.Decimal(n);
    assert s == Text.Decimal(n / 10) + [Text.Digit(n % 10)];
    PadOnce(s, 4);
    PadOnce("0" + s, 4);
    assert "0" + ("0" + s) == Buckets.Two(0) + Buckets.Two(n);
  }

  lemma PadHundreds(n: nat)
    requires 100 <= n < 1000
    ensures Text.PadStart(Text.Decimal(n), 4) == Buckets.Two(n / 100) + Buckets.Two(n % 100)
  {
    var s := Text.Decimal(n);
    assert s == Text.Decimal(n / 10) + [Text.Digit(n % 10)];
    assert Text.Decimal(n / 10) == Text.Decimal(n / 10 / 10) + [Text.Digit(n / 10 % 10)];
    assert n / 10 / 10 == n / 100 && n / 10 % 10 == n % 100 / 10 && n % 10 == n % 100 % 10;
    PadOnce(s, 4);
    assert "0" + s == Buckets.Two(n / 100) + Buckets.Two(n % 100);
  }

  /** A cell's text is the ISO date, so different days of the years 0 to 9999 have different texts. */
  lemma IsoIsPrintedDate(c: Civil)
    requires Valid(c) && 0 <= c.year <= 9999
    ensures Buckets.FourDigits(Buckets.DateKey(c)) && IsoOf(c) == Buckets.Printed(Buckets.DateKey(c))
    ensures forall d: Civil :: Valid(d) && 0 <= d.year <= 9999 && IsoOf(d) == IsoOf(c) ==> d == c
  {
    IsoIsPrinted(c);
    forall d: Civil | Valid(d) && 0 <= d.year <= 9999 && IsoOf(d) == IsoOf(c) ensures d == c {
      IsoIsPrinted(d);
      Buckets.PrintedInjective(Buckets.DateKey(c), Buckets.DateKey(d));
    }
  }

  lemma IsoIsPrinted(c: Civil)
    requires Valid(c) && 0 <= c.year <= 9999
    ensures Buckets.FourDigits(Buckets.DateKey(c)) && IsoOf(c) == Buckets.Printed(Buckets.DateKey(c))
  {
    hide Text.Decimal, Text.PadStart, Buckets.Two;
    PadFour(c.year);
    PadTwo(c.month);
    PadTwo(c.day);
  }

  // --- month arithmetic ----------------------------------------------------------------------

  /** The remainder operator of ECMA-262, which truncates towards zero. */
  function JsRem(a: int, b: int): int
    requires b > 0
  {
    if a >= 0 then a % b else -(-a % b)
  }

  function AddMonths(year: int, month: int, delta: int): YearMonth {
    var total := year * 12 + (month - 1) + delta;
    YearMonth(total / 12, JsRem(JsRem(total, 12) + 12, 12) + 1)
  }

  /** The months since year 0, which `addMonths` shifts by exactly `delta`. */
  function MonthCount(m: YearMonth): int { 12 * m.year + m.month - 1 }

  lemma AddMonthsCounts(year: int, month: int, delta: int)
    ensures 1 <= AddMonths(year, month, delta).month <= 12
    ensures MonthCount(AddMonths(year, month, delta)) == MonthCount(YearMonth(year, month)) + delta
  {
    var total := year * 12 + (month - 1) + delta;
    if total < 0 {
      assert -total == 12 * (-total / 12) + -total % 12;
    }
  }

  lemma SameCountSameMonth(a: YearMonth, b: YearMonth)
    requires 1 <= a.month <= 12 && 1 <= b.month <= 12 && MonthCount(a) == MonthCount(b)
    ensures a == b
  {
  }

  /** Shifts add up for all deltas, and a zero shift is the identity exactly on real months. */
  lemma AddMonthsComposes(year: int, month: int, a: int, b: int)
    ensures var m := AddMonths(year, month, a); AddMonths(m.year, m.month, b) == AddMonths(year, month, a + b)
    ensures AddMonths(year, month, 0) == YearMonth(year, month) <==> 1 <= month <= 12
  {
    hide AddMonths;
    var m := AddMonths(year, month, a);
    AddMonthsCounts(year, month, a);
    AddMonthsCounts(m.year, m.month, b);
    AddMonthsCounts(year, month, a + b);
    AddMonthsCounts(year, month, 0);
    SameCountSameMonth(AddMonths(m.year, m.month, b), AddMonths(year, month, a + b));
    if 1 <= month <= 12 {
      SameCountSameMonth(AddMonths(year, month, 0), YearMonth(year, month));
    }
  }
}
