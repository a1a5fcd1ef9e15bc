/**
 * Proleptic Gregorian calendar dates as Python's `datetime` represents them
 * (years 1 to 9999), the day-subtraction behind `today - timedelta(days=n)`,
 * and the `strftime('%Y-%m-%d')` text of a date.
 */
module Calendar {
  import opened Decimal

  datatype Date = Date(year: int, month: int, day: int)

  predicate IsLeapYear(y: int) {
    y % 4 == 0 && (y % 100 != 0 || y % 400 == 0)
  }

  function DaysInMonth(y: int, m: int): (n: int)
    requires 1 <= m <= 12
    ensures 28 <= n <= 31
  {
    if m == 2 then (if IsLeapYear(y) then 29 else 28)
    else if m == 4 || m == 6 || m == 9 || m == 11 then 30
    else 31
  }

  function DaysInYear(y: int): (n: int)
    ensures 365 <= n <= 366
  {
    if IsLeapYear(y) then 366 else 365
  }

  /** The dates `datetime` accepts. */
  predicate ValidDate(d: Date) {
    1 <= d.year <= 9999 && 1 <= d.month <= 12 && 1 <= d.day <= DaysInMonth(d.year, d.month)
  }

  function DaysBeforeYear(y: int): nat
    requires y >= 1
  {
    if y == 1 then 0 else DaysBeforeYear(y - 1) + DaysInYear(y - 1)
  }

  function DaysBeforeMonth(y: int, m: int): nat
    requires 1 <= m <= 12
  {
    if m == 1 then 0 else DaysBeforeMonth(y, m - 1) + DaysInMonth(y, m - 1)
  }

  /** Day number of `d`, 0001-01-01 being day 1 (Python's `date.toordinal`). */
  function Ordinal(d: Date): (n: int)
    requires ValidDate(d)
    ensures n >= 1
  {
    DaysBeforeYear(d.year) + DaysBeforeMonth(d.year, d.month) + d.day
  }

  lemma DaysBeforeDecember(y: int)
    ensures DaysBeforeMonth(y, 12) + 31 == DaysInYear(y)
  {
    var feb := DaysInMonth(y, 2);
    assert DaysBeforeMonth(y, 2) == 31;
    assert DaysBeforeMonth(y, 3) == 31 + feb;
    assert DaysBeforeMonth(y, 4) == 62 + feb;
    assert DaysBeforeMonth(y, 5) == 92 + feb;
    assert DaysBeforeMonth(y, 6) == 123 + feb;
    assert DaysBeforeMonth(y, 7) == 153 + feb;
    assert DaysBeforeMonth(y, 8) == 184 + feb;
    assert DaysBeforeMonth(y, 9) == 215 + feb;
    assert DaysBeforeMonth(y, 10) == 245 + feb;
    assert DaysBeforeMonth(y, 11) == 276 + feb;
    assert DaysBeforeMonth(y, 12) == 306 + feb;
  }

  /** The day before `d`. */
  function PrevDay(d: Date): (p: Date)
    requires ValidDate(d) && d != Date(1, 1, 1)
    ensures ValidDate(p) && Ordinal(p) == Ordinal(d) - 1
  {
    if d.day > 1 then Date(d.year, d.month, d.day - 1)
    else if d.month > 1 then Date(d.year, d.month - 1, DaysInMonth(d.year, d.month - 1))
    else
      DaysBeforeDecember(d.year - 1);
      Date(d.year - 1, 12, 31)
  }

  /** `d - timedelta(days=n)`, defined while the result stays in `datetime`'s range. */
  function MinusDays(d: Date, n: nat): (r: Date)
    requires ValidDate(d) && Ordinal(d) > n
    ensures ValidDate(r) && Ordinal(r) == Ordinal(d) - n
    decreases n
  {
    if n == 0 then d else MinusDays(PrevDay(d), n - 1)
  }

  lemma {:induction false} DaysBeforeMonthBound(y: int, m: int)
    requires 1 <= m <= 12
    ensures DaysBeforeMonth(y, m) + DaysInMonth(y, m) <= DaysInYear(y)
    decreases 12 - m
  {
    if m == 12 {
      DaysBeforeDecember(y);
    } else {
      DaysBeforeMonthBound(y, m + 1);
    }
  }

  lemma {:induction false} DaysBeforeYearGrowth(a: int, b: int)
    requires 1 <= a <= b
    ensures DaysBeforeYear(b) - DaysBeforeYear(a) >= 365 * (b - a)
    decreases b - a
  {
    if a < b {
      DaysBeforeYearGrowth(a, b - 1);
    }
  }

  /** Going back at most a year crosses at most one New Year. */
  lemma MinusDaysYear(d: Date, n: nat)
    requires ValidDate(d) && Ordinal(d) > n && n <= 365
    ensures MinusDays(d, n).year >= d.year - 1
  {
    var e := MinusDays(d, n);
    DaysBeforeMonthBound(e.year, e.month);
    if e.year + 1 <= d.year - 1 {
      DaysBeforeYearGrowth(e.year + 1, d.year - 1);
    }
  }

  /** Dates whose `%Y` field has exactly four digits. */
  predicate FourDigitYear(d: Date) {
    ValidDate(d) && d.year >= 1000
  }

  /** `d.strftime('%Y-%m-%d')`. */
  function FormatDate(d: Date): (s: string)
    requires FourDigitYear(d)
    ensures |s| == 10 && s[4] == '-' && s[7] == '-'
  {
    ZeroPadLength(d.year, 4);
    ZeroPadLength(d.month, 2);
    ZeroPadLength(d.day, 2);
    ZeroPad(d.year, 4) + "-" + ZeroPad(d.month, 2) + "-" + ZeroPad(d.day, 2)
  }

  predicate IsDateText(s: string) {
    |s| == 10 && AllDigits(s[..4]) && s[4] == '-' && AllDigits(s[5..7]) && s[7] == '-' && AllDigits(s[8..])
  }

  /** Reads back a `YYYY-MM-DD` text. */
  function ParseDate(s: string): Date
    requires IsDateText(s)
  {
    Date(DigitsValue(s[..4]), DigitsValue(s[5..7]), DigitsValue(s[8..]))
  }

  /** The formatted date determines the date: nothing is lost by `strftime('%Y-%m-%d')`. */
  lemma FormatDateRoundTrip(d: Date)
    requires FourDigitYear(d)
    ensures IsDateText(FormatDate(d)) && ParseDate(FormatDate(d)) == d
  {
    var s := FormatDate(d);
    ZeroPadLength(d.year, 4);
    ZeroPadLength(d.month, 2);
    ZeroPadLength(d.day, 2);
    assert s[..4] == ZeroPad(d.year, 4);
    assert s[5..7] == ZeroPad(d.month, 2);
    assert s[8..] == ZeroPad(d.day, 2);
    ZeroPadRoundTrip(d.year, 4);
    ZeroPadRoundTrip(d.month, 2);
    ZeroPadRoundTrip(d.day, 2);
  }
}
