/** The previous-year column of the sales series (analytics.shared.ts, sales.service.ts). */
module PreviousYear {
  import opened Prelude
  import opened Calendar
  import opened Buckets
  import opened Grouping
  import opened Sales
  import Text

  predicate IsLeapDay(c: Civil) { c.month == 2 && c.day == 29 }

  /** `setUTCFullYear(year - 1)` on a date: 29 February carries over to 1 March. */
  function YearBack(c: Civil): int { MakeDay(c.year - 1, c.month, c.day) }

  /** The same key one year later, whether or not that date exists. */
  function ShiftKey(k: Key): Key {
    match k
    case DateKey(c) => DateKey(c.(year := c.year + 1))
    case MonthKey(y, m) => MonthKey(y + 1, m)
  }

  // --- shiftKey, on the text of a key ---------------------------------------------------

  /** `${Number(key.slice(0, 4)) + 1}${key.slice(4)}`: leading zeros of the year are lost. */
  function ShiftText(key: string): string
    requires |key| >= 4 && Text.AreDigits(key[..4])
  {
    Text.Decimal(Text.NumberOf(key[..4]) + 1) + key[4..]
  }

  lemma NumberOfFour(s: string)
    requires |s| == 4 && Text.AreDigits(s)
    ensures Text.NumberOf(s) == 1000 * Text.DigitValue(s[0]) + 100 * Text.DigitValue(s[1]) + 10 * Text.DigitValue(s[2]) + Text.DigitValue(s[3])
  {
    assert s[..3][..2] == s[..2] && s[..2][..1] == s[..1] && s[..1][..0] == "";
    assert Text.NumberOf(s[..1]) == 10 * Text.NumberOf("") + Text.DigitValue(s[0]);
    assert Text.NumberOf(s[..2]) == 10 * Text.NumberOf(s[..1]) + Text.DigitValue(s[1]);
    assert Text.NumberOf(s[..3]) == 10 * Text.NumberOf(s[..2]) + Text.DigitValue(s[2]);
  }

  lemma PrintedYear(k: Key)
    requires FourDigits(k)
    ensures |Printed(k)| >= 7 && Text.AreDigits(Printed(k)[..4])
    ensures Text.NumberOf(Printed(k)[..4]) == YearOfKey(k)
  {
    var y := YearOfKey(k);
    TwoLengths(k);
    assert Printed(k)[..4] == Two(y / 100) + Two(y % 100);
    NumberOfFour(Printed(k)[..4]);
    assert y == 100 * (y / 100) + y % 100;
  }

  /** The shifted text is the text of the shifted key exactly from the year 999 on; below, it is too short for a key. */
  lemma ShiftTextExactlyWhen(k: Key)
    requires FourDigits(k) && YearOfKey(k) <= 9998
    ensures FourDigits(ShiftKey(k))
    ensures |Printed(k)| >= 7 && Text.AreDigits(Printed(k)[..4])
    ensures ShiftText(Printed(k)) == Printed(ShiftKey(k)) <==> YearOfKey(k) >= 999
    ensures YearOfKey(k) < 999 ==> |ShiftText(Printed(k))| < |Printed(k)|
  {
    hide Two;
    var y := YearOfKey(k);
    PrintedYear(k);
    TwoLengths(k);
    TwoLengths(ShiftKey(k));
    Text.DecimalLength(y + 1);
    assert Printed(k)[4..] == Printed(ShiftKey(k))[4..];
    if y >= 999 {
      DecimalOfFour(y + 1);
      assert Printed(ShiftKey(k)) == Printed(ShiftKey(k))[..4] + Printed(ShiftKey(k))[4..];
    }
  }

  /** The key of a day, and of the same date a year later, print with four digits. */
  predicate Shiftable(day: int, g: Granularity) { FourDigits(KeyOfDay(day, g)) && YearOfKey(KeyOfDay(day, g)) <= 9998 }

  function ShiftedText(day: int, g: Granularity): string
    requires Shiftable(day, g)
  {
    PrintedYear(KeyOfDay(day, g));
    ShiftText(Printed(KeyOfDay(day, g)))
  }

  ghost predicate AllShiftable(items: seq<Entry>, g: Granularity) {
    forall i :: 0 <= i < |items| ==> Shiftable(BogotaDay(items[i].date), g)
  }

  function Shifted(items: seq<Entry>, g: Granularity): seq<(string, int)>
    requires AllShiftable(items, g)
  {
    seq(|items|, i requires 0 <= i < |items| => (ShiftedText(BogotaDay(items[i].date), g), items[i].value))
  }

  ghost predicate HasKey(items: seq<(string, int)>, k: string) { exists i :: 0 <= i < |items| && items[i].0 == k }

  function Get(m: map<string, int>, k: string): int { if k in m then m[k] else 0 }

  method FillPrevious(orders: seq<Entry>, refunds: seq<Entry>, g: Granularity) returns (previous: map<string, int>)
    requires AllShiftable(orders, g) && AllShiftable(refunds, g)
    ensures forall k ::
      (if k in previous then previous[k] else 0) == SumOf(Shifted(orders, g), k) - SumOf(Shifted(refunds, g), k)
    ensures forall k :: k in previous ==> HasKey(Shifted(orders, g), k) || HasKey(Shifted(refunds, g), k)
  {
    hide KeyOfDay, ShiftedText, Shiftable;
    previous := map[];
    ghost var sold, given := Shifted(orders, g), Shifted(refunds, g);
    for i := 0 to |orders|
      invariant forall k :: Get(previous, k) == SumOf(sold[..i], k)
      invariant forall k :: k in previous ==> HasKey(sold, k)
    {
      var key := ShiftedText(BogotaDay(orders[i].date), g);
      assert sold[i] == (key, orders[i].value);
      previous := previous[key := Get(previous, key) + orders[i].value];
      assert sold[..i + 1] == sold[..i] + [sold[i]];
      forall k: string { SumOfAppend(sold[..i], k, sold[i]); }
    }
    assert sold[..|orders|] == sold;
    for i := 0 to |refunds|
      invariant forall k :: Get(previous, k) == SumOf(sold, k) - SumOf(given[..i], k)
      invariant forall k :: k in previous ==> HasKey(sold, k) || HasKey(given, k)
    {
      var key := ShiftedText(BogotaDay(refunds[i].date), g);
      assert given[i] == (key, refunds[i].value);
      previous := previous[key := Get(previous, key) - refunds[i].value];
      assert given[..i + 1] == given[..i] + [given[i]];
      forall k: string { SumOfAppend(given[..i], k, given[i]); }
    }
    assert given[..|refunds|] == given;
  }

  // --- the shifted range --------------------------------------------------------------

  /** The date `YearBack` lands on. */
  function LastYear(c: Civil): Civil {
    if IsLeapDay(c) then Civil(c.year - 1, 3, 1) else c.(year := c.year - 1)
  }

  lemma YearBackDate(c: Civil)
    requires Valid(c)
    ensures Valid(LastYear(c)) && CivilOf(YearBack(c)) == LastYear(c)
  {
    hide CivilOf, YearStart;
    MakeDayInRange(c.year - 1, c.month, c.day);
    if IsLeapDay(c) {
      LeapCases(c.year);
      LeapYearsApart(c.year);
      MonthLengths(c.year - 1);
    }
    assert DayNumber(LastYear(c)) == YearBack(c);
    CivilOfDayNumber(LastYear(c));
  }

  lemma LeapYearsApart(y: int)
    requires IsLeap(y)
    ensures !IsLeap(y - 1) && !IsLeap(y + 1)
  {
    LeapCases(y);
    LeapCases(y - 1);
    LeapCases(y + 1);
  }

  lemma YearBackMonotone(m: int, n: int)
    requires m <= n
    ensures YearBack(CivilOf(m)) <= YearBack(CivilOf(n))
  {
    hide CivilOf, YearBack, DayNumber;
    var a, b := CivilOf(m), CivilOf(n);
    CivilOfFacts(m);
    CivilOfFacts(n);
    if m < n {
      CivilOfMonotone(m, n);
      YearBackDate(a);
      YearBackDate(b);
      CivilOfFacts(YearBack(a));
      CivilOfFacts(YearBack(b));
      assert LastYear(a) == LastYear(b) || Before(LastYear(a), LastYear(b));
      if LastYear(a) != LastYear(b) {
        DayNumberMonotone(LastYear(a), LastYear(b));
      }
    }
  }

  function MonthIndex(n: int): int { 12 * CivilOf(n).year + CivilOf(n).month }

  /** Every month between two days has a day between them. */
  lemma MonthHasDay(a: int, b: int, year: int, month: int)
    requires a <= b && 1 <= month <= 12 && MonthIndex(a) <= 12 * year + month <= MonthIndex(b)
    ensures MonthKey(year, month) in DayKeys(a, b - a + 1, Month)
  {
    hide CivilOf, YearStart;
    CivilOfFacts(a);
    CivilOfFacts(b);
    DayKeysFacts(a, b - a + 1, Month);
    if MonthIndex(a) == 12 * year + month {
      assert KeyOfDay(a, Month) == MonthKey(year, month);
    } else {
      var first := Civil(year, month, 1);
      var d := DayNumber(first);
      CivilOfDayNumber(first);
      DayNumberMonotone(CivilOf(a), first);
      if first != CivilOf(b) {
        assert Before(first, CivilOf(b));
        DayNumberMonotone(first, CivilOf(b));
      }
      assert KeyOfDay(d, Month) == MonthKey(year, month);
    }
  }

  // --- which prior-year days meet a current bucket ---------------------------------------

  /** Years of four digits, with a year before the first. */
  predicate Supported(fromDay: int, toDay: int) {
    fromDay <= toDay && 1 <= CivilOf(fromDay).year && CivilOf(toDay).year <= 9999
  }

  /** The prior-year range. */
  predicate InPriorRange(fromDay: int, toDay: int, d: int) { YearBack(CivilOf(fromDay)) <= d <= YearBack(CivilOf(toDay)) }

  lemma YearsMonotone(m: int, n: int)
    requires m <= n
    ensures CivilOf(m).year <= CivilOf(n).year
  {
    hide CivilOf;
    if m < n {
      CivilOfMonotone(m, n);
    }
  }

  lemma MondayYear(d: int)
    ensures CivilOf(d).year - 1 <= CivilOf(MondayOf(d)).year <= CivilOf(d).year
  {
    hide YearStart, YearOf, MonthUp, MondayOf, MonthStart;
    MondayFacts(d);
    YearOfFacts(d);
    YearOfFacts(MondayOf(d));
    YearsMonotone(MondayOf(d), d);
    if YearOf(MondayOf(d)) < YearOf(d) - 1 {
      YearsIncrease(YearOf(MondayOf(d)), YearOf(d) - 1);
      YearsIncrease(YearOf(MondayOf(d)) + 1, YearOf(d) - 1);
      YearsIncrease(YearOf(d) - 1, YearOf(d));
      YearLength(YearOf(MondayOf(d)));
    }
  }

  lemma DayKeyPrints(d: int, g: Granularity)
    requires (if g == Week then 1 else 0) <= CivilOf(d).year <= 9999
    ensures FourDigits(KeyOfDay(d, g))
    ensures YearOfKey(KeyOfDay(d, g)) <= CivilOf(d).year
    ensures g != Week ==> YearOfKey(KeyOfDay(d, g)) == CivilOf(d).year
    ensures KeyOfDay(d, g).DateKey? <==> g != Month
  {
    hide CivilOf, MondayOf;
    CivilOfFacts(d);
    CivilOfFacts(MondayOf(d));
    MondayYear(d);
  }

  lemma RangeKeysPrint(fromDay: int, toDay: int, g: Granularity)
    requires Supported(fromDay, toDay)
    ensures forall k :: k in DayKeys(fromDay, toDay - fromDay + 1, g) ==> FourDigits(k) && (k.DateKey? <==> g != Month)
  {
    hide CivilOf, KeyOfDay, FourDigits, DayKeys, Increasing;
    DayKeysFacts(fromDay, toDay - fromDay + 1, g);
    forall k | k in DayKeys(fromDay, toDay - fromDay + 1, g) ensures FourDigits(k) && (k.DateKey? <==> g != Month) {
      var d :| fromDay <= d < fromDay + (toDay - fromDay + 1) && k == KeyOfDay(d, g);
      YearsMonotone(fromDay, d);
      YearsMonotone(d, toDay);
      DayKeyPrints(d, g);
    }
  }

  function PrintedKeys(keys: seq<Key>): seq<string>
    requires forall k :: k in keys ==> FourDigits(k)
  {
    seq(|keys|, i requires 0 <= i < |keys| => Printed(keys[i]))
  }

  /** The bucket keys of the current range, as text. */
  function RangeTexts(fromDay: int, toDay: int, g: Granularity): seq<string>
    requires Supported(fromDay, toDay)
  {
    RangeKeysPrint(fromDay, toDay, g);
    PrintedKeys(DayKeys(fromDay, toDay - fromDay + 1, g))
  }

  /** A shifted text meets a current key exactly when the year is 999 or later and the shifted key is one. */
  lemma MeetsExactlyWhen(fromDay: int, toDay: int, g: Granularity, d: int)
    requires Supported(fromDay, toDay) && Shiftable(d, g)
    ensures ShiftedText(d, g) in RangeTexts(fromDay, toDay, g)
       <==> YearOfKey(KeyOfDay(d, g)) >= 999 && ShiftKey(KeyOfDay(d, g)) in DayKeys(fromDay, toDay - fromDay + 1, g)
  {
    var k, keys := KeyOfDay(d, g), DayKeys(fromDay, toDay - fromDay + 1, g);
    assert k.DateKey? <==> g != Month;
    hide KeyOfDay, DayKeys, Printed, FourDigits, CivilOf, ShiftKey, ShiftText;
    RangeKeysPrint(fromDay, toDay, g);
    ShiftTextExactlyWhen(k);
    TwoLengths(k);
    if ShiftedText(d, g) in RangeTexts(fromDay, toDay, g) {
      var i :| 0 <= i < |keys| && Printed(keys[i]) == ShiftedText(d, g);
      assert keys[i] in keys;
      TwoLengths(keys[i]);
      if YearOfKey(k) >= 999 {
        PrintedInjective(keys[i], ShiftKey(k));
      }
    }
    if YearOfKey(k) >= 999 && ShiftKey(k) in keys {
      var i :| 0 <= i < |keys| && keys[i] == ShiftKey(k);
      assert RangeTexts(fromDay, toDay, g)[i] == ShiftedText(d, g);
    }
  }

  /** Every day of the prior range is shifted onto a current bucket. */
  ghost predicate ColumnComplete(fromDay: int, toDay: int, g: Granularity)
    requires Supported(fromDay, toDay)
  {
    forall d :: InPriorRange(fromDay, toDay, d) ==> Shiftable(d, g) && ShiftedText(d, g) in RangeTexts(fromDay, toDay, g)
  }

  lemma PriorDay(fromDay: int, toDay: int, d: int, g: Granularity)
    requires Supported(fromDay, toDay) && InPriorRange(fromDay, toDay, d) && g != Week
    ensures CivilOf(fromDay).year - 1 <= CivilOf(d).year <= CivilOf(toDay).year - 1
    ensures Shiftable(d, g) && YearOfKey(KeyOfDay(d, g)) == CivilOf(d).year
  {
    hide CivilOf, YearBack, KeyOfDay, FourDigits;
    var a, b := CivilOf(fromDay), CivilOf(toDay);
    CivilOfFacts(fromDay);
    CivilOfFacts(toDay);
    YearBackDate(a);
    YearBackDate(b);
    YearsMonotone(YearBack(a), d);
    YearsMonotone(d, YearBack(b));
    DayKeyPrints(d, g);
  }

  lemma MonthInside(fromDay: int, toDay: int, d: int)
    requires fromDay <= toDay && !IsLeapDay(CivilOf(toDay)) && InPriorRange(fromDay, toDay, d)
    ensures ShiftKey(KeyOfDay(d, Month)) in DayKeys(fromDay, toDay - fromDay + 1, Month)
  {
    hide CivilOf, YearBack, DayKeys;
    var a, b := CivilOf(fromDay), CivilOf(toDay);
    CivilOfFacts(fromDay);
    CivilOfFacts(toDay);
    YearBackDate(a);
    YearBackDate(b);
    MonthsMonotone(YearBack(a), d);
    MonthsMonotone(d, YearBack(b));
    CivilOfFacts(d);
    MonthHasDay(fromDay, toDay, CivilOf(d).year + 1, CivilOf(d).month);
  }

  /** Days keep their order when read as dates. */
  lemma DatesOrdered(m: int, n: int)
    requires m <= n
    ensures CivilOf(m) == CivilOf(n) || Before(CivilOf(m), CivilOf(n))
  {
    hide CivilOf;
    if m < n {
      CivilOfMonotone(m, n);
    }
  }

  /** A date between two days is a day between them. */
  lemma DateInside(a: int, b: int, e: Civil)
    requires Valid(e)
    requires CivilOf(a) == e || Before(CivilOf(a), e)
    requires e == CivilOf(b) || Before(e, CivilOf(b))
    ensures a <= DayNumber(e) <= b && CivilOf(DayNumber(e)) == e
  {
    hide CivilOf, DayNumber;
    CivilOfFacts(a);
    CivilOfFacts(b);
    CivilOfDayNumber(e);
    if CivilOf(a) != e {
      DayNumberMonotone(CivilOf(a), e);
    }
    if e != CivilOf(b) {
      DayNumberMonotone(e, CivilOf(b));
    }
  }

  /** Shifting a year on undoes the shift back, but for 29 February. */
  lemma YearOn(a: Civil, b: Civil, c: Civil)
    requires Valid(a) && Valid(b) && Valid(c) && !IsLeapDay(b) && !IsLeapDay(c)
    requires LastYear(a) == c || Before(LastYear(a), c)
    requires c == LastYear(b) || Before(c, LastYear(b))
    ensures var e := c.(year := c.year + 1); Valid(e) && (a == e || Before(a, e)) && (e == b || Before(e, b))
  {
    hide IsLeap;
  }

  lemma DayInside(fromDay: int, toDay: int, d: int)
    requires fromDay <= toDay && InPriorRange(fromDay, toDay, d)
    requires !IsLeapDay(CivilOf(toDay)) && !IsLeapDay(CivilOf(d))
    ensures ShiftKey(KeyOfDay(d, Day)) in DayKeys(fromDay, toDay - fromDay + 1, Day)
  {
    hide CivilOf, YearBack, DayKeys, DayNumber, Valid, Before, LastYear;
    var a, b, c := CivilOf(fromDay), CivilOf(toDay), CivilOf(d);
    CivilOfFacts(fromDay);
    CivilOfFacts(toDay);
    CivilOfFacts(d);
    YearBackDate(a);
    YearBackDate(b);
    DatesOrdered(YearBack(a), d);
    DatesOrdered(d, YearBack(b));
    YearOn(a, b, c);
    var e := c.(year := c.year + 1);
    DateInside(fromDay, toDay, e);
    DayKeysFacts(fromDay, toDay - fromDay + 1, Day);
    assert KeyOfDay(DayNumber(e), Day) == ShiftKey(KeyOfDay(d, Day));
  }

  /** A range that ends on 29 February puts its last prior-year day, 1 March, beyond its last bucket. */
  lemma LeapEndOutside(fromDay: int, toDay: int, g: Granularity)
    requires fromDay <= toDay && IsLeapDay(CivilOf(toDay)) && g != Week
    ensures InPriorRange(fromDay, toDay, YearBack(CivilOf(toDay)))
    ensures ShiftKey(KeyOfDay(YearBack(CivilOf(toDay)), g)) !in DayKeys(fromDay, toDay - fromDay + 1, g)
  {
    hide CivilOf, YearBack, DayKeys, YearStart, MonthStart;
    var b := CivilOf(toDay);
    CivilOfFacts(toDay);
    YearBackDate(b);
    YearBackMonotone(fromDay, toDay);
    DayKeysFacts(fromDay, toDay - fromDay + 1, g);
    var march := Civil(b.year, 3, 1);
    assert Before(b, march);
    assert ShiftKey(KeyOfDay(YearBack(b), g)) == if g == Day then DateKey(march) else MonthKey(b.year, 3);
    forall d | fromDay <= d < fromDay + (toDay - fromDay + 1)
      ensures KeyOfDay(d, g) != ShiftKey(KeyOfDay(YearBack(b), g))
    {
      DatesOrdered(d, toDay);
    }
  }

  /** A prior-year 29 February is shifted to a date that does not exist. */
  lemma LeapDayOutside(fromDay: int, toDay: int, d: int)
    requires IsLeapDay(CivilOf(d)) && fromDay <= toDay
    ensures ShiftKey(KeyOfDay(d, Day)) !in DayKeys(fromDay, toDay - fromDay + 1, Day)
  {
    hide CivilOf, DayKeys;
    CivilOfFacts(d);
    LeapCases(CivilOf(d).year);
    LeapYearsApart(CivilOf(d).year);
    DayKeysFacts(fromDay, toDay - fromDay + 1, Day);
    forall e | fromDay <= e < fromDay + (toDay - fromDay + 1) ensures KeyOfDay(e, Day) != ShiftKey(KeyOfDay(d, Day)) {
      CivilOfFacts(e);
    }
  }

  lemma FirstPriorDay(fromDay: int, toDay: int)
    requires fromDay <= toDay
    ensures InPriorRange(fromDay, toDay, YearBack(CivilOf(fromDay)))
    ensures CivilOf(YearBack(CivilOf(fromDay))).year == CivilOf(fromDay).year - 1
  {
    hide CivilOf, YearBack;
    CivilOfFacts(fromDay);
    YearBackDate(CivilOf(fromDay));
    YearBackMonotone(fromDay, toDay);
  }

  lemma DayMet(fromDay: int, toDay: int, d: int, g: Granularity)
    requires Supported(fromDay, toDay) && InPriorRange(fromDay, toDay, d) && g != Week
    requires CivilOf(fromDay).year >= 1000 && !IsLeapDay(CivilOf(toDay)) && (g == Day ==> !IsLeapDay(CivilOf(d)))
    ensures Shiftable(d, g) && ShiftedText(d, g) in RangeTexts(fromDay, toDay, g)
  {
    hide CivilOf, YearBack, KeyOfDay, DayKeys, FourDigits, ShiftedText, RangeTexts, InPriorRange, ShiftKey;
    PriorDay(fromDay, toDay, d, g);
    if g == Day {
      DayInside(fromDay, toDay, d);
    } else {
      MonthInside(fromDay, toDay, d);
    }
    MeetsExactlyWhen(fromDay, toDay, g, d);
  }

  lemma DayMissed(fromDay: int, toDay: int, d: int, g: Granularity)
    requires Supported(fromDay, toDay) && InPriorRange(fromDay, toDay, d) && g != Week
    requires CivilOf(d).year < 999 || ShiftKey(KeyOfDay(d, g)) !in DayKeys(fromDay, toDay - fromDay + 1, g)
    ensures !ColumnComplete(fromDay, toDay, g)
  {
    hide CivilOf, YearBack, KeyOfDay, DayKeys, FourDigits, ShiftedText, RangeTexts, Supported, InPriorRange, ShiftKey;
    PriorDay(fromDay, toDay, d, g);
    MeetsExactlyWhen(fromDay, toDay, g, d);
  }

  /**
    At month granularity every prior-year day meets a current bucket exactly
    when the range begins in the year 1000 or later and does not end on 29 February.
   */
  lemma MonthColumnExactlyWhen(fromDay: int, toDay: int)
    requires Supported(fromDay, toDay)
    ensures ColumnComplete(fromDay, toDay, Month) <==> CivilOf(fromDay).year >= 1000 && !IsLeapDay(CivilOf(toDay))
  {
    hide CivilOf, YearBack, KeyOfDay, DayKeys, FourDigits, ShiftedText, RangeTexts, InPriorRange, ShiftKey, Shiftable;
    FirstPriorDay(fromDay, toDay);
    if CivilOf(fromDay).year < 1000 {
      DayMissed(fromDay, toDay, YearBack(CivilOf(fromDay)), Month);
    } else if IsLeapDay(CivilOf(toDay)) {
      LeapEndOutside(fromDay, toDay, Month);
      DayMissed(fromDay, toDay, YearBack(CivilOf(toDay)), Month);
    } else {
      forall d | InPriorRange(fromDay, toDay, d)
        ensures Shiftable(d, Month) && ShiftedText(d, Month) in RangeTexts(fromDay, toDay, Month)
      {
        DayMet(fromDay, toDay, d, Month);
      }
    }
  }

  ghost predicate NoPriorLeapDay(fromDay: int, toDay: int) {
    forall d :: InPriorRange(fromDay, toDay, d) ==> !IsLeapDay(CivilOf(d))
  }

  /** By day the prior range must not contain a 29 February either. */
  lemma DayColumnExactlyWhen(fromDay: int, toDay: int)
    requires Supported(fromDay, toDay)
    ensures ColumnComplete(fromDay, toDay, Day)
       <==> CivilOf(fromDay).year >= 1000 && !IsLeapDay(CivilOf(toDay)) && NoPriorLeapDay(fromDay, toDay)
  {
    hide CivilOf, YearBack, KeyOfDay, DayKeys, FourDigits, ShiftedText, RangeTexts, InPriorRange, ShiftKey, Shiftable;
    FirstPriorDay(fromDay, toDay);
    if CivilOf(fromDay).year < 1000 {
      DayMissed(fromDay, toDay, YearBack(CivilOf(fromDay)), Day);
    } else if IsLeapDay(CivilOf(toDay)) {
      LeapEndOutside(fromDay, toDay, Day);
      DayMissed(fromDay, toDay, YearBack(CivilOf(toDay)), Day);
    } else if !NoPriorLeapDay(fromDay, toDay) {
      var d :| InPriorRange(fromDay, toDay, d) && IsLeapDay(CivilOf(d));
      LeapDayOutside(fromDay, toDay, d);
      DayMissed(fromDay, toDay, d, Day);
    } else {
      forall d | InPriorRange(fromDay, toDay, d)
        ensures Shiftable(d, Day) && ShiftedText(d, Day) in RangeTexts(fromDay, toDay, Day)
      {
        DayMet(fromDay, toDay, d, Day);
      }
    }
  }

  // --- what the column adds up to -----------------------------------------------------------

  function PreviousColumn(texts: seq<string>, previous: map<string, int>): seq<int> {
    seq(|texts|, i requires 0 <= i < |texts| => Get(previous, texts[i]))
  }

  lemma TextsDistinct(fromDay: int, toDay: int, g: Granularity)
    requires Supported(fromDay, toDay)
    ensures Distinct(RangeTexts(fromDay, toDay, g))
  {
    hide CivilOf, KeyOfDay, DayKeys, Printed, FourDigits, Rank;
    var keys := DayKeys(fromDay, toDay - fromDay + 1, g);
    DayKeysFacts(fromDay, toDay - fromDay + 1, g);
    RangeKeysPrint(fromDay, toDay, g);
    forall i, j | 0 <= i < j < |keys| ensures Printed(keys[i]) != Printed(keys[j]) {
      if Printed(keys[i]) == Printed(keys[j]) {
        PrintedInjective(keys[i], keys[j]);
      }
    }
  }

  lemma PriorEntries(fromDay: int, toDay: int, g: Granularity, items: seq<Entry>)
    requires Supported(fromDay, toDay) && ColumnComplete(fromDay, toDay, g)
    requires InRange(items, YearBack(CivilOf(fromDay)), YearBack(CivilOf(toDay)))
    ensures AllShiftable(items, g)
    ensures Total(Column(RangeTexts(fromDay, toDay, g), Shifted(items, g))) == Total(Amounts(items))
  {
    hide CivilOf, YearBack, KeyOfDay, DayKeys, FourDigits, ShiftedText, RangeTexts, Shiftable, BogotaDay, SumOf, Supported;
    forall i | 0 <= i < |items|
      ensures Shiftable(BogotaDay(items[i].date), g)
      ensures ShiftedText(BogotaDay(items[i].date), g) in RangeTexts(fromDay, toDay, g)
    {
      DayBoundaries(BogotaDay(items[i].date), items[i].date);
      EntryInPriorRange(fromDay, toDay, items[i].date);
    }
    TextsDistinct(fromDay, toDay, g);
    PartitionSum(RangeTexts(fromDay, toDay, g), Shifted(items, g));
    assert Values(Shifted(items, g)) == Amounts(items);
  }

  lemma EntryInPriorRange(fromDay: int, toDay: int, instant: int)
    requires DayStart(YearBack(CivilOf(fromDay))) <= instant <= DayEnd(YearBack(CivilOf(toDay)))
    ensures InPriorRange(fromDay, toDay, BogotaDay(instant))
  {
    hide CivilOf, YearBack;
  }

  /** A complete column adds up to the prior year's net revenue. */
  lemma ColumnConserves(
    fromDay: int, toDay: int, g: Granularity, orders: seq<Entry>, refunds: seq<Entry>, previous: map<string, int>)
    requires Supported(fromDay, toDay) && ColumnComplete(fromDay, toDay, g)
    requires InRange(orders, YearBack(CivilOf(fromDay)), YearBack(CivilOf(toDay)))
    requires InRange(refunds, YearBack(CivilOf(fromDay)), YearBack(CivilOf(toDay)))
    requires AllShiftable(orders, g) && AllShiftable(refunds, g)
    requires forall k :: Get(previous, k) == SumOf(Shifted(orders, g), k) - SumOf(Shifted(refunds, g), k)
    ensures Total(PreviousColumn(RangeTexts(fromDay, toDay, g), previous)) == Total(Amounts(orders)) - Total(Amounts(refunds))
  {
    hide CivilOf, YearBack, Shifted, RangeTexts, Supported, ColumnComplete, AllShiftable, InRange, SumOf;
    PriorEntries(fromDay, toDay, g, orders);
    PriorEntries(fromDay, toDay, g, refunds);
    var texts := RangeTexts(fromDay, toDay, g);
    TotalDifference(PreviousColumn(texts, previous), Column(texts, Shifted(orders, g)), Column(texts, Shifted(refunds, g)));
  }

  // --- weeks -----------------------------------------------------------------------------

  lemma {:induction false} YearShiftsMonths(y: int, m: int)
    requires 1 <= m <= 12
    ensures MonthStart(y + 1, m) - MonthStart(y, m)
         == if m <= 2 then 0 else DaysInMonth(y + 1, 2) - DaysInMonth(y, 2)
  {
    if m > 1 {
      YearShiftsMonths(y, m - 1);
    }
  }

  /** The same date a year later falls one or two weekdays on. */
  lemma YearLaterWeekday(c: Civil)
    requires 1 <= c.month <= 12
    ensures DayNumber(c.(year := c.year + 1)) - DayNumber(c) in {365, 366}
  {
    hide YearStart, MonthStart;
    YearLength(c.year);
    YearShiftsMonths(c.year, c.month);
    if IsLeap(c.year) {
      LeapYearsApart(c.year);
    }
    if IsLeap(c.year + 1) {
      LeapYearsApart(c.year + 1);
    }
  }

  /** A Monday's date one year later is never the date of a Monday. */
  lemma ShiftedWeekIsNoWeek(d: int, e: int)
    ensures ShiftKey(KeyOfDay(d, Week)) != KeyOfDay(e, Week)
  {
    hide CivilOf, DayNumber;
    var monday := MondayOf(d);
    MondayFacts(d);
    MondayFacts(e);
    CivilOfFacts(monday);
    CivilOfFacts(MondayOf(e));
    YearLaterWeekday(CivilOf(monday));
  }

  /** So at week granularity the column is null in every bucket. */
  lemma WeekColumnIsNull(fromDay: int, toDay: int, orders: seq<Entry>, refunds: seq<Entry>, previous: map<string, int>, i: nat)
    requires Supported(fromDay, toDay) && AllShiftable(orders, Week) && AllShiftable(refunds, Week)
    requires forall x :: x in previous ==> HasKey(Shifted(orders, Week), x) || HasKey(Shifted(refunds, Week), x)
    requires i < |RangeTexts(fromDay, toDay, Week)|
    ensures RangeTexts(fromDay, toDay, Week)[i] !in previous
  {
    hide KeyOfDay, ShiftedText, RangeTexts, Shiftable, Supported;
    var texts := RangeTexts(fromDay, toDay, Week);
    forall j | 0 <= j < |orders| ensures Shifted(orders, Week)[j].0 !in texts {
      WeekNeverMeets(fromDay, toDay, BogotaDay(orders[j].date));
    }
    forall j | 0 <= j < |refunds| ensures Shifted(refunds, Week)[j].0 !in texts {
      WeekNeverMeets(fromDay, toDay, BogotaDay(refunds[j].date));
    }
  }

  lemma WeekNeverMeets(fromDay: int, toDay: int, d: int)
    requires Supported(fromDay, toDay) && Shiftable(d, Week)
    ensures ShiftedText(d, Week) !in RangeTexts(fromDay, toDay, Week)
  {
    hide KeyOfDay, DayKeys, ShiftedText, RangeTexts, CivilOf, ShiftKey, Increasing;
    MeetsExactlyWhen(fromDay, toDay, Week, d);
    DayKeysFacts(fromDay, toDay - fromDay + 1, Week);
    forall e | fromDay <= e < fromDay + (toDay - fromDay + 1) ensures KeyOfDay(e, Week) != ShiftKey(KeyOfDay(d, Week)) {
      ShiftedWeekIsNoWeek(d, e);
    }
  }
}
