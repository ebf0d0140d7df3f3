/**
 * The proleptic Gregorian calendar behind DateOnly, and the two exact formats
 * the system reads and writes: "yyyy-MM-dd" for dates and "HH:mm" for times
 * (reply ids of the chat bot, the admin forms and their query strings).
 */
module Dates {
  import opened Domain
  import opened Text

  datatype Ymd = Ymd(year: int, month: int, day: int)

  predicate IsLeapYear(y: int)
  {
    y % 4 == 0 && (y % 100 != 0 || y % 400 == 0)
  }

  function DaysInYear(y: int): int
  {
    if IsLeapYear(y) then 366 else 365
  }

  function DaysInMonth(y: int, m: int): (r: int)
    requires 1 <= m <= 12
    ensures 28 <= r <= 31
    ensures r == 29 <==> m == 2 && IsLeapYear(y)
  {
    if m == 2 then (if IsLeapYear(y) then 29 else 28)
    else if m == 4 || m == 6 || m == 9 || m == 11 then 30
    else 31
  }

  const MaxYear: int := 9999

  /** A year, month and day DateOnly accepts. */
  predicate ValidYmd(t: Ymd)
  {
    1 <= t.year <= MaxYear && 1 <= t.month <= 12 && 1 <= t.day <= DaysInMonth(t.year, t.month)
  }

  /** Days from 0001-01-01 to January 1st of year y. */
  function DaysBeforeYear(y: int): int
    requires y >= 1
  {
    var p := y - 1;
    p * 365 + p / 4 - p / 100 + p / 400
  }

  /** Days from January 1st to the first of month m (m = 13 stands for the next January 1st). */
  function DaysBeforeMonth(y: int, m: int): int
    requires 1 <= m <= 13
  {
    [0, 31, 59, 90, 120, 151, 181, 212, 243, 273, 304, 334, 365][m - 1]
    + (if m > 2 && IsLeapYear(y) then 1 else 0)
  }

  lemma DaysBeforeNextMonth(y: int, m: int)
    requires 1 <= m <= 12
    ensures DaysBeforeMonth(y, m + 1) == DaysBeforeMonth(y, m) + DaysInMonth(y, m)
    ensures DaysBeforeMonth(y, 13) == DaysInYear(y)
  {
  }

  lemma DaysBeforeNextYear(y: int)
    requires y >= 1
    ensures DaysBeforeYear(y + 1) == DaysBeforeYear(y) + DaysInYear(y)
  {
    var p := y - 1;
    assert (p + 1) / 4 == p / 4 + (if y % 4 == 0 then 1 else 0);
    assert (p + 1) / 100 == p / 100 + (if y % 100 == 0 then 1 else 0);
    assert (p + 1) / 400 == p / 400 + (if y % 400 == 0 then 1 else 0);
  }

  lemma {:induction false} DaysBeforeYearMonotone(a: int, b: int)
    requires 1 <= a <= b
    ensures DaysBeforeYear(a) + 365 * (b - a) <= DaysBeforeYear(b)
    decreases b - a
  {
    if a < b {
      DaysBeforeNextYear(a);
      DaysBeforeYearMonotone(a + 1, b);
    }
  }

  /** DateOnly.DayNumber of a valid year, month and day. */
  function DayNumber(t: Ymd): (n: Date)
    requires ValidYmd(t)
    ensures DaysBeforeYear(t.year) <= n < DaysBeforeYear(t.year + 1)
  {
    DaysBeforeNextMonth(t.year, t.month);
    DaysBeforeNextYear(t.year);
    DaysBeforeYear(t.year) + DaysBeforeMonth(t.year, t.month) + t.day - 1
  }

  /** The day number of 9999-12-31, the last day DateOnly represents. */
  const MaxDayNumber: int := 3652058

  predicate ValidDate(n: Date)
  {
    0 <= n <= MaxDayNumber
  }

  /** The year holding day n, found by walking forward from year y. */
  function YearFrom(n: int, y: int): (r: int)
    requires y >= 1 && DaysBeforeYear(y) <= n
    ensures r >= y && DaysBeforeYear(r) <= n < DaysBeforeYear(r + 1)
    decreases n - DaysBeforeYear(y)
  {
    DaysBeforeNextYear(y);
    if n < DaysBeforeYear(y + 1) then y else YearFrom(n, y + 1)
  }

  /** The month holding day-of-year k of year y, found by walking forward from month m. */
  function MonthFrom(y: int, k: int, m: int): (r: int)
    requires 1 <= m <= 12 && DaysBeforeMonth(y, m) <= k < DaysInYear(y)
    ensures m <= r <= 12 && DaysBeforeMonth(y, r) <= k < DaysBeforeMonth(y, r + 1)
    decreases 12 - m
  {
    DaysBeforeNextMonth(y, m);
    if k < DaysBeforeMonth(y, m + 1) then m else MonthFrom(y, k, m + 1)
  }

  /** The year, month and day of a day number: the inverse of DayNumber. */
  function ToYmd(n: Date): (t: Ymd)
    requires ValidDate(n)
    ensures ValidYmd(t) && DayNumber(t) == n
  {
    var y := YearFrom(n, 1);
    DaysBeforeNextYear(y);
    DaysBeforeYearMonotone(1, y);
    DaysBeforeYearMonotone(y + 1, 10000);
    var k := n - DaysBeforeYear(y);
    DaysBeforeNextMonth(y, 12);
    var m := MonthFrom(y, k, 1);
    DaysBeforeNextMonth(y, m);
    Ymd(y, m, k - DaysBeforeMonth(y, m) + 1)
  }

  /** Two valid dates with the same day number are the same date. */
  lemma {:induction false} DayNumberInjective(s: Ymd, t: Ymd)
    requires ValidYmd(s) && ValidYmd(t) && DayNumber(s) == DayNumber(t)
    ensures s == t
  {
    if s.year < t.year {
      DaysBeforeYearMonotone(s.year + 1, t.year);
      assert false;
    } else if t.year < s.year {
      DaysBeforeYearMonotone(t.year + 1, s.year);
      assert false;
    }
    if s.month < t.month {
      MonthsApart(s.year, s.month, t.month);
    } else if t.month < s.month {
      MonthsApart(s.year, t.month, s.month);
    }
  }

  lemma MonthsApart(y: int, a: int, b: int)
    requires 1 <= a < b <= 12
    ensures DaysBeforeMonth(y, a) + DaysInMonth(y, a) <= DaysBeforeMonth(y, b)
  {
  }

  /** ToYmd reads back the year, month and day a valid date was built from. */
  lemma ToYmdOfDayNumber(t: Ymd)
    requires ValidYmd(t)
    ensures ValidDate(DayNumber(t)) && ToYmd(DayNumber(t)) == t
  {
    DaysBeforeYearMonotone(1, t.year);
    DaysBeforeYearMonotone(t.year + 1, 10000);
    DayNumberInjective(ToYmd(DayNumber(t)), t);
  }

  /** DateOnly.Month */
  function MonthOf(n: Date): (m: int)
    requires ValidDate(n)
    ensures 1 <= m <= 12
  {
    ToYmd(n).month
  }

  /**
   * A month whose neighbouring months DateOnly can also represent, so that
   * a few days before its 1st and after its last are dates too.
   */
  predicate InnerMonth(year: int, month: int)
  {
    2 <= year < MaxYear && 1 <= month <= 12
  }

  /** new DateOnly(year, month, 1) */
  function FirstOfMonth(year: int, month: int): (d: Date)
    requires InnerMonth(year, month)
    ensures 365 <= d && d + 41 <= MaxDayNumber
  {
    DaysBeforeYearMonotone(1, year);
    DaysBeforeNextMonth(year, month);
    DaysBeforeNextYear(year);
    DaysBeforeYearMonotone(year + 1, MaxYear);
    DayNumber(Ymd(year, month, 1))
  }

  /** firstDayOfMonth.AddMonths(1).AddDays(-1): the month's last day. */
  function LastOfMonth(year: int, month: int): (d: Date)
    requires InnerMonth(year, month)
    ensures d == FirstOfMonth(year, month) + DaysInMonth(year, month) - 1
  {
    DayNumber(Ymd(year, month, DaysInMonth(year, month)))
  }

  /** The days before the 1st of February to December, up to six days back, are the last days of the previous month. */
  lemma BeforeFirstDate(year: int, month: int, d: Date)
    requires InnerMonth(year, month) && 1 < month
    requires FirstOfMonth(year, month) - 6 <= d < FirstOfMonth(year, month)
    ensures ValidDate(d)
    ensures ToYmd(d) == Ymd(year, month - 1, DaysInMonth(year, month - 1) - (FirstOfMonth(year, month) - d) + 1)
  {
    var t := Ymd(year, month - 1, DaysInMonth(year, month - 1) - (FirstOfMonth(year, month) - d) + 1);
    DaysBeforeNextMonth(year, month - 1);
    assert DayNumber(t) == d;
    ToYmdOfDayNumber(t);
  }

  /** The days before January 1st, up to six days back, are the last days of the previous December. */
  lemma BeforeNewYearDate(year: int, d: Date)
    requires InnerMonth(year, 1)
    requires FirstOfMonth(year, 1) - 6 <= d < FirstOfMonth(year, 1)
    ensures ValidDate(d)
    ensures ToYmd(d) == Ymd(year - 1, 12, 32 - (FirstOfMonth(year, 1) - d))
  {
    var t := Ymd(year - 1, 12, 32 - (FirstOfMonth(year, 1) - d));
    DaysBeforeNextMonth(year - 1, 12);
    DaysBeforeNextYear(year - 1);
    assert DayNumber(t) == d;
    ToYmdOfDayNumber(t);
  }

  /** The days after the last of January to November, up to two weeks on, are the first days of the next month. */
  lemma AfterLastDate(year: int, month: int, d: Date)
    requires InnerMonth(year, month) && month < 12
    requires LastOfMonth(year, month) < d <= LastOfMonth(year, month) + 14
    ensures ValidDate(d)
    ensures ToYmd(d) == Ymd(year, month + 1, d - LastOfMonth(year, month))
  {
    var t := Ymd(year, month + 1, d - LastOfMonth(year, month));
    DaysBeforeNextMonth(year, month);
    assert DayNumber(t) == d;
    ToYmdOfDayNumber(t);
  }

  /** The days after December 31st, up to two weeks on, are the first days of the next January. */
  lemma AfterYearEndDate(year: int, d: Date)
    requires InnerMonth(year, 12)
    requires LastOfMonth(year, 12) < d <= LastOfMonth(year, 12) + 14
    ensures ValidDate(d)
    ensures ToYmd(d) == Ymd(year + 1, 1, d - LastOfMonth(year, 12))
  {
    var t := Ymd(year + 1, 1, d - LastOfMonth(year, 12));
    DaysBeforeNextMonth(year, 12);
    DaysBeforeNextYear(year);
    assert DayNumber(t) == d;
    ToYmdOfDayNumber(t);
  }

  /** A day of the month reads back as that day of that month. */
  lemma InMonthDate(year: int, month: int, d: Date)
    requires InnerMonth(year, month)
    requires FirstOfMonth(year, month) <= d <= LastOfMonth(year, month)
    ensures ValidDate(d) && ToYmd(d) == Ymd(year, month, d - FirstOfMonth(year, month) + 1)
  {
    var t := Ymd(year, month, d - FirstOfMonth(year, month) + 1);
    assert DayNumber(t) == d;
    ToYmdOfDayNumber(t);
  }

  /** Two decimal digits with a leading zero (the "HH", "mm", "MM" and "dd" fields). */
  function Pad2(x: int): (s: string)
    requires 0 <= x < 100
    ensures |s| == 2 && AllDigits(s) && DigitsValue(s) == x
  {
    var s := [DigitChar(x / 10), DigitChar(x % 10)];
    TwoDigitsValue(s);
    s
  }

  /** Four decimal digits with leading zeros (the "yyyy" field). */
  function Pad4(x: int): (s: string)
    requires 0 <= x < 10000
    ensures |s| == 4 && AllDigits(s) && DigitsValue(s) == x
  {
    var s := Pad2(x / 100) + Pad2(x % 100);
    assert s[..3][..2] == s[..2] == Pad2(x / 100);
    assert s[..2] + [s[2]] == s[..3];
    assert DigitsValue(s[..3]) == x / 100 * 10 + DigitValue(s[2]);
    s
  }

  lemma {:induction false} DigitsValueBound(s: string)
    requires AllDigits(s)
    ensures DigitsValue(s) < Power10(|s|)
  {
    if s != [] {
      DigitsValueBound(s[..|s| - 1]);
    }
  }

  function Power10(k: nat): (p: nat)
    ensures p >= 1
  {
    if k == 0 then 1 else 10 * Power10(k - 1)
  }

  /** Two digits are the padding of the number they denote. */
  lemma Pad2OfDigits(s: string)
    requires |s| == 2 && AllDigits(s)
    ensures DigitsValue(s) < 100 && Pad2(DigitsValue(s)) == s
  {
    TwoDigitsValue(s);
  }

  lemma TwoDigitsValue(s: string)
    requires |s| == 2 && AllDigits(s)
    ensures DigitsValue(s) == DigitValue(s[0]) * 10 + DigitValue(s[1])
  {
    assert s[..1][..0] == [];
    assert DigitsValue(s[..1]) == DigitValue(s[0]);
  }

  /** Four digits are the padding of the number they denote. */
  lemma Pad4OfDigits(s: string)
    requires |s| == 4 && AllDigits(s)
    ensures DigitsValue(s) < 10000 && Pad4(DigitsValue(s)) == s
  {
    var hi, lo := s[..2], s[2..];
    var a, b := DigitsValue(hi), DigitsValue(lo);
    Pad2OfDigits(hi);
    Pad2OfDigits(lo);
    assert DigitsValue(s) == a * 100 + b by {
      assert s[..3] == hi + [s[2]] && s[..3][..2] == hi;
      TwoDigitsValue(lo);
      TwoDigitsValue(hi);
    }
    assert (a * 100 + b) / 100 == a && (a * 100 + b) % 100 == b;
    assert hi + lo == s;
  }

  /** date.ToString("yyyy-MM-dd") */
  function FormatDate(n: Date): (s: string)
    requires ValidDate(n)
    ensures |s| == 10 && s[4] == '-' && s[7] == '-'
  {
    var t := ToYmd(n);
    Pad4(t.year) + "-" + Pad2(t.month) + "-" + Pad2(t.day)
  }

  /** DateOnly.TryParseExact(s, "yyyy-MM-dd", InvariantCulture): four-digit year, two-digit month and day, nothing else. */
  function ParseExactDate(s: string): (r: Option<Date>)
    ensures r.Some? ==> ValidDate(r.value)
  {
    if |s| != 10 || s[4] != '-' || s[7] != '-' then None
    else if !AllDigits(s[..4]) || !AllDigits(s[5..7]) || !AllDigits(s[8..]) then None
    else
      var t := Ymd(DigitsValue(s[..4]), DigitsValue(s[5..7]), DigitsValue(s[8..]));
      DigitsValueBound(s[..4]);
      if ValidYmd(t) then
        ToYmdOfDayNumber(t);
        Some(DayNumber(t))
      else None
  }

  /** Every date the system formats parses back to itself. */
  lemma ParseFormatDate(n: Date)
    requires ValidDate(n)
    ensures ParseExactDate(FormatDate(n)) == Some(n)
  {
    var t := ToYmd(n);
    var s := FormatDate(n);
    assert s[..4] == Pad4(t.year);
    assert s[5..7] == Pad2(t.month);
    assert s[8..] == Pad2(t.day);
  }

  /** A string parses as a date exactly when it is the canonical rendering of that date. */
  lemma FormatParseDate(s: string)
    requires ParseExactDate(s).Some?
    ensures FormatDate(ParseExactDate(s).value) == s
  {
    var t := Ymd(DigitsValue(s[..4]), DigitsValue(s[5..7]), DigitsValue(s[8..]));
    ToYmdOfDayNumber(t);
    Pad4OfDigits(s[..4]);
    Pad2OfDigits(s[5..7]);
    Pad2OfDigits(s[8..]);
    assert s == s[..4] + "-" + s[5..7] + "-" + s[8..];
  }

  /** time.ToString("HH:mm") */
  function FormatTime(t: TimeOfDay): (s: string)
    ensures |s| == 5 && s[2] == ':'
  {
    Pad2(t / 60) + ":" + Pad2(t % 60)
  }

  /** TimeOnly.TryParseExact(s, "HH:mm", InvariantCulture): two-digit hour below 24, two-digit minute below 60. */
  function ParseExactTime(s: string): (r: Option<TimeOfDay>)
  {
    if |s| != 5 || s[2] != ':' || !AllDigits(s[..2]) || !AllDigits(s[3..]) then None
    else
      var h, m := DigitsValue(s[..2]), DigitsValue(s[3..]);
      if h < 24 && m < 60 then Some(h * 60 + m) else None
  }

  /** Every time the system formats parses back to itself. */
  lemma ParseFormatTime(t: TimeOfDay)
    ensures ParseExactTime(FormatTime(t)) == Some(t)
  {
    var s := FormatTime(t);
    assert s[..2] == Pad2(t / 60);
    assert s[3..] == Pad2(t % 60);
  }

  /** A string parses as a time exactly when it is the canonical rendering of that time. */
  lemma FormatParseTime(s: string)
    requires ParseExactTime(s).Some?
    ensures FormatTime(ParseExactTime(s).value) == s
  {
    Pad2OfDigits(s[..2]);
    Pad2OfDigits(s[3..]);
    assert s == s[..2] + ":" + s[3..];
  }
}
