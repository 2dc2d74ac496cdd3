/**
 * Naive local date-times as whole seconds counted from 1970-01-01 00:00:00, with the
 * proleptic Gregorian calendar fields Python's `datetime` exposes (`year`, `month`, `day`,
 * `isoweekday()`, `strftime("%Y-%m-%d")`).
 */
module CivilTime {
  import opened Text

  const SecondsPerMinute := 60
  const SecondsPerHour := 3600
  const SecondsPerDay := 86400

  datatype Date = Date(year: int, month: int, day: int)

  /** The day an instant falls on, counted from 1970-01-01 (floor division: the divisor is positive). */
  function DayNumber(t: int): int
  {
    t / SecondsPerDay
  }

  /** Leap years of the proleptic Gregorian calendar. */
  predicate IsLeapYear(y: int)
  {
    y % 4 == 0 && (y % 100 != 0 || y % 400 == 0)
  }

  function DaysInYear(y: int): int
  {
    if IsLeapYear(y) then 366 else 365
  }

  function DaysInMonth(y: int, m: int): int
  {
    if m == 2 then (if IsLeapYear(y) then 29 else 28)
    else if m == 4 || m == 6 || m == 9 || m == 11 then 30
    else 31
  }

  /** The date `days` days after January 1 of year `y` (before it, when negative), walking year by year. */
  function DateInYear(y: int, days: int): Date
    decreases if days < 0 then 366 - days else days
  {
    if days < 0 then DateInYear(y - 1, days + DaysInYear(y - 1))
    else if days >= DaysInYear(y) then DateInYear(y + 1, days - DaysInYear(y))
    else DateInMonth(y, 1, days)
  }

  /** The date `days` days after the first of month `m` of year `y`, walking month by month. */
  function DateInMonth(y: int, m: int, days: nat): Date
    requires 1 <= m <= 12
    decreases 12 - m
  {
    if days < DaysInMonth(y, m) || m == 12 then Date(y, m, days + 1)
    else DateInMonth(y, m + 1, days - DaysInMonth(y, m))
  }

  /** Gregorian year/month/day of a day number counted from 1970-01-01. */
  function CivilFromDays(days: int): Date
  {
    DateInYear(1970, days)
  }

  function DateOf(t: int): Date
  {
    CivilFromDays(DayNumber(t))
  }

  /** `isoweekday()`: Monday is 1 and Sunday is 7; 1970-01-01 was a Thursday. */
  function IsoWeekday(t: int): (w: int)
    ensures 1 <= w <= 7
  {
    (DayNumber(t) + 3) % 7 + 1
  }

  function DigitChar(d: int): char
    requires 0 <= d <= 9
  {
    ('0' as int + d) as char
  }

  /** Decimal digits of `n`, left-padded with '0' to at least `width` characters. */
  function PadNumber(n: nat, width: nat): (s: string)
    ensures |s| >= width && |s| >= 1
    decreases n + width
  {
    if n < 10 && width <= 1 then [DigitChar(n)]
    else PadNumber(n / 10, if width > 0 then width - 1 else 0) + [DigitChar(n % 10)]
  }

  /** The padded text is the number's decimal digits, with leading zeros only to fill the width. */
  lemma {:induction false} PadNumberDigits(n: nat, width: nat)
    ensures var s := PadNumber(n, width);
      AllDigits(s) && DigitsValue(s) == n && (|s| > 1 && s[0] == '0' ==> |s| == width)
    decreases n + width
  {
    if n < 10 && width <= 1 {
      DigitsSnoc([], n);
    } else {
      var w := if width > 0 then width - 1 else 0;
      PadNumberDigits(n / 10, w);
      DigitsSnoc(PadNumber(n / 10, w), n % 10);
    }
  }

  /** Appending a digit to a digit text multiplies its value by ten and adds the digit. */
  lemma DigitsSnoc(h: string, d: nat)
    requires AllDigits(h) && d <= 9
    ensures AllDigits(h + [DigitChar(d)]) && DigitsValue(h + [DigitChar(d)]) == DigitsValue(h) * 10 + d
  {
    var s := h + [DigitChar(d)];
    assert s[..|s| - 1] == h;
  }

  /** `strftime("%Y-%m-%d")`; years before year 0 are outside the model and print as 0000. */
  function DateString(d: Date): string
  {
    var y: nat := if d.year < 0 then 0 else d.year;
    var m: nat := if d.month < 0 then 0 else d.month;
    var dd: nat := if d.day < 0 then 0 else d.day;
    PadNumber(y, 4) + "-" + PadNumber(m, 2) + "-" + PadNumber(dd, 2)
  }
}
