/** Calendar dates written as ISO 8601 extended-format calendar dates,
    `YYYY-MM-DD` (section 4.1.2.2 of ISO 8601:2004). Registration dates are
    stored in this form, and the newest/oldest sort compares their
    `getTime()` values. This module proves that, for this form, ordinal
    string order is the order of (year, month, day) triples, that on
    existing dates that is the order of `getTime()`, and that the date part
    of `toISOString` parses back to the date it was made from. */
module Dates {
  import opened Wrappers
  import opened Text

  predicate IsDigit(c: char) {
    '0' <= c <= '9'
  }

  predicate AllDigits(s: string) {
    forall i :: 0 <= i < |s| ==> IsDigit(s[i])
  }

  function DigitValue(c: char): (d: nat)
    requires IsDigit(c)
  {
    c as int - '0' as int
  }

  function DigitChar(d: nat): (c: char)
    requires d < 10
  {
    ('0' as int + d) as char
  }

  function Pow10(n: nat): (r: nat) {
    if n == 0 then 1 else 10 * Pow10(n - 1)
  }

  /** The decimal value of a digit string, most significant digit first. */
  function Num(s: string): (n: nat)
    requires AllDigits(s)
  {
    if |s| == 0 then 0 else Num(s[..|s| - 1]) * 10 + DigitValue(s[|s| - 1])
  }

  /** `n` written with exactly `w` decimal digits, zero-padded on the left. */
  function Digits(n: nat, w: nat): (r: string)
    requires n < Pow10(w)
  {
    if w == 0 then "" else Digits(n / 10, w - 1) + [DigitChar(n % 10)]
  }

  lemma {:induction false} NumBound(s: string)
    requires AllDigits(s)
    ensures Num(s) < Pow10(|s|)
  {
    if |s| > 0 {
      NumBound(s[..|s| - 1]);
    }
  }

  /** Writing a number with `w` digits and reading it back gives the number. */
  lemma {:induction false} DigitsRoundTrip(n: nat, w: nat)
    requires n < Pow10(w)
    ensures |Digits(n, w)| == w && AllDigits(Digits(n, w)) && Num(Digits(n, w)) == n
  {
    if w > 0 {
      DigitsRoundTrip(n / 10, w - 1);
      var r := Digits(n, w);
      assert r[..|r| - 1] == Digits(n / 10, w - 1);
    }
  }

  /** Reading a digit string and writing it back with the same width gives the string. */
  lemma {:induction false} NumRoundTrip(s: string)
    requires AllDigits(s)
    ensures Num(s) < Pow10(|s|) && Digits(Num(s), |s|) == s
  {
    NumBound(s);
    if |s| > 0 {
      var p := s[..|s| - 1];
      NumRoundTrip(p);
      assert Num(s) / 10 == Num(p);
      assert Num(s) % 10 == DigitValue(s[|s| - 1]);
      assert s == p + [s[|s| - 1]];
    }
  }

  /** On digit strings of one length, ordinal string order is numeric order,
      and string equality is numeric equality. */
  lemma {:induction false} DigitOrder(a: string, b: string)
    requires AllDigits(a) && AllDigits(b) && |a| == |b|
    ensures StrLe(a, b) <==> Num(a) <= Num(b)
    ensures a == b <==> Num(a) == Num(b)
  {
    if |a| > 0 {
      var a', b' := a[..|a| - 1], b[..|b| - 1];
      var x, y := a[|a| - 1], b[|b| - 1];
      assert a == a' + [x] && b == b' + [y];
      DigitOrder(a', b');
      StrLeConcat(a', [x], b', [y]);
      assert StrLe([x], [y]) <==> DigitValue(x) <= DigitValue(y);
      assert a == b <==> a' == b' && x == y;
    }
  }

  datatype CalendarDate = CalendarDate(year: nat, month: nat, day: nat)

  /** The order of (year, month, day) triples: by year, then month, then day.
      On existing dates it is time order (`DateOrderIsTimeOrder`). */
  predicate DateLe(d1: CalendarDate, d2: CalendarDate) {
    || d1.year < d2.year
    || (d1.year == d2.year && d1.month < d2.month)
    || (d1.year == d2.year && d1.month == d2.month && d1.day <= d2.day)
  }

  /** The shape `YYYY-MM-DD`. */
  predicate IsIsoDate(s: string) {
    && |s| == 10
    && AllDigits(s[..4]) && s[4] == '-'
    && AllDigits(s[5..7]) && s[7] == '-'
    && AllDigits(s[8..])
  }

  function ParseIsoDate(s: string): (r: Option<CalendarDate>)
    ensures r.Some? <==> IsIsoDate(s)
  {
    if IsIsoDate(s) then Some(CalendarDate(Num(s[..4]), Num(s[5..7]), Num(s[8..]))) else None
  }

  lemma NumTwo(s: string)
    requires |s| == 2 && AllDigits(s)
    ensures Num(s) == 10 * DigitValue(s[0]) + DigitValue(s[1])
  {
    assert s[..1][..0] == [];
    assert s[..2 - 1] == [s[0]];
    assert Num([s[0]]) == DigitValue(s[0]);
  }

  lemma NumFour(s: string)
    requires |s| == 4 && AllDigits(s)
    ensures Num(s) == 1000 * DigitValue(s[0]) + 100 * DigitValue(s[1]) + 10 * DigitValue(s[2]) + DigitValue(s[3])
  {
    NumTwo(s[..2]);
    assert s[..3][..2] == s[..2];
  }

  /** The fields of a `YYYY-MM-DD` string, read digit by digit. */
  lemma IsoFields(s: string)
    requires IsIsoDate(s)
    ensures ParseIsoDate(s).value == CalendarDate(
      1000 * DigitValue(s[0]) + 100 * DigitValue(s[1]) + 10 * DigitValue(s[2]) + DigitValue(s[3]),
      10 * DigitValue(s[5]) + DigitValue(s[6]),
      10 * DigitValue(s[8]) + DigitValue(s[9]))
  {
    NumFour(s[..4]);
    NumTwo(s[5..7]);
    NumTwo(s[8..]);
  }

  /** A `YYYY-MM-DD` string whose digits spell an existing date names it. */
  lemma ReadDate(s: string, d: CalendarDate)
    requires IsIsoDate(s)
    requires d == CalendarDate(
      1000 * DigitValue(s[0]) + 100 * DigitValue(s[1]) + 10 * DigitValue(s[2]) + DigitValue(s[3]),
      10 * DigitValue(s[5]) + DigitValue(s[6]),
      10 * DigitValue(s[8]) + DigitValue(s[9]))
    requires ValidDate(d)
    ensures IsCalendarDate(s) && ParseIsoDate(s) == Some(d)
  {
    IsoFields(s);
  }

  /** The dates `toISOString` writes with a four-digit year. */
  predicate Formattable(d: CalendarDate) {
    d.year < 10000 && d.month < 100 && d.day < 100
  }

  /** The pieces of `y + "-" + m + "-" + dd`, read back by position. */
  lemma JoinIso(y: string, m: string, dd: string)
    requires |y| == 4 && |m| == 2 && |dd| == 2
    ensures var r := y + "-" + m + "-" + dd;
            |r| == 10 && r[..4] == y && r[4] == '-' && r[5..7] == m && r[7] == '-' && r[8..] == dd
  {
    var r := y + "-" + m + "-" + dd;
    assert r == y + ("-" + m + "-" + dd);
    assert r[..4] == y;
    assert r[5..7] == m;
    assert r[8..] == dd;
  }

  /** The date part of `toISOString()`, that is the text before the `T`. */
  function FormatIsoDate(d: CalendarDate): (r: string)
    requires Formattable(d)
    ensures IsIsoDate(r)
  {
    assert Pow10(2) == 100 && Pow10(4) == 10000;
    DigitsRoundTrip(d.year, 4);
    DigitsRoundTrip(d.month, 2);
    DigitsRoundTrip(d.day, 2);
    JoinIso(Digits(d.year, 4), Digits(d.month, 2), Digits(d.day, 2));
    Digits(d.year, 4) + "-" + Digits(d.month, 2) + "-" + Digits(d.day, 2)
  }

  lemma ParseFormat(d: CalendarDate)
    requires Formattable(d)
    ensures ParseIsoDate(FormatIsoDate(d)) == Some(d)
  {
    assert Pow10(2) == 100 && Pow10(4) == 10000;
    DigitsRoundTrip(d.year, 4);
    DigitsRoundTrip(d.month, 2);
    DigitsRoundTrip(d.day, 2);
    JoinIso(Digits(d.year, 4), Digits(d.month, 2), Digits(d.day, 2));
  }

  lemma FormatParse(s: string)
    requires IsIsoDate(s)
    ensures Formattable(ParseIsoDate(s).value) && FormatIsoDate(ParseIsoDate(s).value) == s
  {
    assert Pow10(2) == 100 && Pow10(4) == 10000;
    NumRoundTrip(s[..4]);
    NumRoundTrip(s[5..7]);
    NumRoundTrip(s[8..]);
    var d := ParseIsoDate(s).value;
    assert d == CalendarDate(Num(s[..4]), Num(s[5..7]), Num(s[8..]));
    var y, m, dd := Digits(d.year, 4), Digits(d.month, 2), Digits(d.day, 2);
    assert y == s[..4] && m == s[5..7] && dd == s[8..];
    assert FormatIsoDate(d) == y + "-" + m + "-" + dd;
    assert s == s[..4] + "-" + s[5..7] + "-" + s[8..];
  }

  /** Comparing from a position where both strings hold the same character
      is comparing from the next position. */
  lemma SkipEqual(a: string, b: string, i: nat)
    requires i < |a| && i < |b| && a[i] == b[i]
    ensures StrLe(a[i..], b[i..]) <==> StrLe(a[i + 1..], b[i + 1..])
  {
    assert a[i..][1..] == a[i + 1..] && b[i..][1..] == b[i + 1..];
  }

  /** For `YYYY-MM-DD` strings, ordinal string order is the order of the
      (year, month, day) triples they spell. */
  lemma IsoOrderIsDateOrder(a: string, b: string)
    requires IsIsoDate(a) && IsIsoDate(b)
    ensures StrLe(a, b) <==> DateLe(ParseIsoDate(a).value, ParseIsoDate(b).value)
  {
    DigitOrder(a[..4], b[..4]);
    DigitOrder(a[5..7], b[5..7]);
    DigitOrder(a[8..], b[8..]);
    assert a == a[..4] + a[4..] && b == b[..4] + b[4..];
    StrLeConcat(a[..4], a[4..], b[..4], b[4..]);
    SkipEqual(a, b, 4);
    assert a[5..] == a[5..7] + a[7..] && b[5..] == b[5..7] + b[7..];
    StrLeConcat(a[5..7], a[7..], b[5..7], b[7..]);
    SkipEqual(a, b, 7);
  }

  /** Leap years of the proleptic Gregorian calendar, which `Date` uses. */
  predicate IsLeap(y: nat) {
    (y % 4 == 0 && y % 100 != 0) || y % 400 == 0
  }

  function YearLength(y: nat): (r: nat)
    ensures r == 365 || r == 366
  {
    if IsLeap(y) then 366 else 365
  }

  function DaysInMonth(y: nat, m: nat): (r: nat)
    requires 1 <= m <= 12
    ensures 28 <= r <= 31
  {
    if m == 2 then (if IsLeap(y) then 29 else 28)
    else if m == 4 || m == 6 || m == 9 || m == 11 then 30
    else 31
  }

  /** Days of year `y` before the first of month `m`. */
  function DaysBeforeMonth(y: nat, m: nat): (r: nat)
    requires 1 <= m <= 12
    decreases m
  {
    if m == 1 then 0 else DaysBeforeMonth(y, m - 1) + DaysInMonth(y, m - 1)
  }

  /** The months of a year fill it exactly. */
  lemma MonthsFillYear(y: nat)
    ensures DaysBeforeMonth(y, 12) + DaysInMonth(y, 12) == YearLength(y)
  {
    var p := DaysBeforeMonth(y, 2);
    assert p == 31;
    assert DaysBeforeMonth(y, 3) == p + DaysInMonth(y, 2);
    assert DaysBeforeMonth(y, 7) == DaysBeforeMonth(y, 3) + 122;
    assert DaysBeforeMonth(y, 12) == DaysBeforeMonth(y, 7) + 153;
  }

  /** A later month starts no earlier than the end of an earlier one. */
  lemma {:induction false} MonthsInOrder(y: nat, m1: nat, m2: nat)
    requires 1 <= m1 < m2 <= 12
    ensures DaysBeforeMonth(y, m1) + DaysInMonth(y, m1) <= DaysBeforeMonth(y, m2)
    decreases m2
  {
    if m1 + 1 < m2 {
      MonthsInOrder(y, m1, m2 - 1);
    }
  }

  /** Days from 0000-01-01 to the first of January of year `y`. */
  function YearStart(y: nat): (r: nat)
    decreases y
  {
    if y == 0 then 0 else YearStart(y - 1) + YearLength(y - 1)
  }

  /** A later year starts no earlier than the end of an earlier one. */
  lemma {:induction false} YearsInOrder(y1: nat, y2: nat)
    requires y1 < y2
    ensures YearStart(y1) + YearLength(y1) <= YearStart(y2)
    decreases y2
  {
    if y1 + 1 < y2 {
      YearsInOrder(y1, y2 - 1);
    }
  }

  /** A date that exists: month 01 to 12, day 01 to the month's length. A
      string of the `YYYY-MM-DD` shape naming any other date is not a valid
      date-time string, and `new Date(...)` gives `NaN` for it. */
  predicate ValidDate(d: CalendarDate) {
    1 <= d.month <= 12 && 1 <= d.day <= DaysInMonth(d.year, d.month)
  }

  /** A `YYYY-MM-DD` string that names an existing calendar date. */
  predicate IsCalendarDate(s: string) {
    IsIsoDate(s) && ValidDate(ParseIsoDate(s).value)
  }

  /** A valid date falls within its year. */
  lemma DayWithinYear(d: CalendarDate)
    requires ValidDate(d)
    ensures DaysBeforeMonth(d.year, d.month) + d.day - 1 < YearLength(d.year)
  {
    MonthsFillYear(d.year);
    if d.month < 12 {
      MonthsInOrder(d.year, d.month, 12);
    }
  }

  /** Days from 0000-01-01 to the date. */
  function DayNumber(d: CalendarDate): (r: nat)
    requires ValidDate(d)
    ensures YearStart(d.year) <= r < YearStart(d.year) + YearLength(d.year)
  {
    DayWithinYear(d);
    YearStart(d.year) + DaysBeforeMonth(d.year, d.month) + d.day - 1
  }

  /** Passing a multiple of `k` raises the count of multiples below by one. */
  lemma MultiplesStep(x: nat, k: nat)
    requires k == 4 || k == 100 || k == 400
    ensures (x + k) / k - (x + k - 1) / k == (if x % k == 0 then 1 else 0)
  {
    var q, m := x / k, x % k;
    assert x == q * k + m;
    if m == 0 {
      assert (x + k) / k == q + 1;
      assert (x + k - 1) / k == q;
    } else {
      assert (x + k) / k == q + 1;
      assert (x + k - 1) / k == q + 1;
    }
  }

  /** 365 days for each year before `y` and one more for each leap year
      among them. */
  function LeapCountForm(y: nat): int {
    365 * y + (y + 3) / 4 - (y + 99) / 100 + (y + 399) / 400
  }

  /** A multiple of 400 is a multiple of 100, and that a multiple of 4. */
  lemma Divisibility(x: nat)
    ensures x % 400 == 0 ==> x % 100 == 0
    ensures x % 100 == 0 ==> x % 4 == 0
  {
    if x % 400 == 0 {
      assert x == 100 * (4 * (x / 400));
    }
    if x % 100 == 0 {
      assert x == 4 * (25 * (x / 100));
    }
  }

  /** One more year adds that year's length to the closed form. */
  lemma LeapCountStep(x: nat)
    ensures LeapCountForm(x + 1) == LeapCountForm(x) + YearLength(x)
  {
    Divisibility(x);
    MultiplesStep(x, 4);
    MultiplesStep(x, 100);
    MultiplesStep(x, 400);
    assert (x + 1 + 3) / 4 == (x + 4) / 4;
    assert (x + 1 + 99) / 100 == (x + 100) / 100;
    assert (x + 1 + 399) / 400 == (x + 400) / 400;
  }

  /** The first day of year `y`, in closed form. */
  lemma {:induction false} YearStartClosed(y: nat)
    ensures YearStart(y) == LeapCountForm(y)
    decreases y
  {
    if y > 0 {
      YearStartClosed(y - 1);
      LeapCountStep(y - 1);
    }
  }

  /** Days from 0000-01-01 to 1970-01-01. */
  const EpochDay := 719528

  lemma EpochDayIsYearStart()
    ensures YearStart(1970) == EpochDay
  {
    YearStartClosed(1970);
  }

  /** `new Date(s).getTime()` for a valid date-only string: milliseconds from
      1970-01-01T00:00:00Z to the start of that day (UTC). */
  function TimeOf(d: CalendarDate): (r: int)
    requires ValidDate(d)
    ensures r % 86400000 == 0
  {
    var days := DayNumber(d) - EpochDay;
    WholeDays(days);
    days * 86400000
  }

  /** A whole number of days is a whole number of days in milliseconds. */
  lemma WholeDays(days: int)
    ensures (days * 86400000) % 86400000 == 0
  {
    var n := days * 86400000;
    assert n == 86400000 * days + 0;
  }

  /** Calendar order is time order: an earlier date has an earlier time, and
      two dates with one time are the same date. */
  lemma DateOrderIsTimeOrder(d1: CalendarDate, d2: CalendarDate)
    requires ValidDate(d1) && ValidDate(d2)
    ensures DateLe(d1, d2) <==> TimeOf(d1) <= TimeOf(d2)
    ensures d1 == d2 <==> TimeOf(d1) == TimeOf(d2)
  {
    if d1.year < d2.year {
      YearsInOrder(d1.year, d2.year);
    } else if d2.year < d1.year {
      YearsInOrder(d2.year, d1.year);
    } else if d1.month < d2.month {
      MonthsInOrder(d1.year, d1.month, d2.month);
    } else if d2.month < d1.month {
      MonthsInOrder(d1.year, d2.month, d1.month);
    }
  }

  /** On strings naming calendar dates, ordinal string order is the order of
      `getTime()` values, and distinct strings have distinct times. */
  lemma CalendarStringOrderIsTimeOrder(a: string, b: string)
    requires IsCalendarDate(a) && IsCalendarDate(b)
    ensures StrLe(a, b) <==> TimeOf(ParseIsoDate(a).value) <= TimeOf(ParseIsoDate(b).value)
    ensures a == b <==> TimeOf(ParseIsoDate(a).value) == TimeOf(ParseIsoDate(b).value)
  {
    IsoOrderIsDateOrder(a, b);
    DateOrderIsTimeOrder(ParseIsoDate(a).value, ParseIsoDate(b).value);
    if ParseIsoDate(a) == ParseIsoDate(b) {
      FormatParse(a);
      FormatParse(b);
    }
  }

  /** Formatting an existing date gives a string that names it. */
  lemma FormattedIsCalendarDate(d: CalendarDate)
    requires Formattable(d) && ValidDate(d)
    ensures IsCalendarDate(FormatIsoDate(d)) && ParseIsoDate(FormatIsoDate(d)) == Some(d)
  {
    ParseFormat(d);
  }
}
