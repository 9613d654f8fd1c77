/**
 * Calendar dates as Python's `datetime` handles them: validity, the proleptic
 * Gregorian ordinal (`date.toordinal`), `weekday()`, the successor day, and
 * `strptime`/`strftime` with the format `%Y%m%d`.
 */
module Calendar {
  import opened Wrappers
  import Text

  datatype Date = Date(year: int, month: int, day: int)

  predicate IsLeap(y: int) { y % 4 == 0 && (y % 100 != 0 || y % 400 == 0) }

  function DaysInMonth(y: int, m: int): int
  {
    if m == 2 then (if IsLeap(y) then 29 else 28)
    else if m == 4 || m == 6 || m == 9 || m == 11 then 30
    else 31
  }

  /** `datetime` accepts years 1 to 9999. */
  predicate Valid(d: Date)
  {
    1 <= d.year <= 9999 && 1 <= d.month <= 12 && 1 <= d.day <= DaysInMonth(d.year, d.month)
  }

  /** The last date `datetime` can represent; one more day overflows. */
  const LastDate: Date := Date(9999, 12, 31)

  function DaysBeforeYear(y: int): int
    requires y >= 1
  {
    var p := y - 1;
    365 * p + p / 4 - p / 100 + p / 400
  }

  function DaysBeforeMonth(y: int, m: int): (n: int)
    requires 1 <= m <= 12
    ensures n >= 0
  {
    if m == 1 then 0 else DaysBeforeMonth(y, m - 1) + DaysInMonth(y, m - 1)
  }

  /** `date.toordinal()`: 0001-01-01 is day 1. */
  function Ordinal(d: Date): int
    requires Valid(d)
  {
    DaysBeforeYear(d.year) + DaysBeforeMonth(d.year, d.month) + d.day
  }

  /** `date.weekday()`: Monday is 0, Sunday is 6. */
  function Weekday(d: Date): int
    requires Valid(d)
  {
    (Ordinal(d) + 6) % 7
  }

  // Helpers for YearLength: how many multiples of 4, 100 and 400 a year adds.
  // Each is a step Dafny proves alone but not together with the others.

  lemma DivStep4(q: int)
    requires q >= 1
    ensures q / 4 - (q - 1) / 4 == if q % 4 == 0 then 1 else 0
  {
  }

  lemma DivStep100(q: int)
    requires q >= 1
    ensures q / 100 - (q - 1) / 100 == if q % 100 == 0 then 1 else 0
  {
  }

  lemma DivStep400(q: int)
    requires q >= 1
    ensures q / 400 - (q - 1) / 400 == if q % 400 == 0 then 1 else 0
  {
  }

  lemma Divides400(y: int)
    ensures y % 400 == 0 ==> y % 100 == 0
  {
    if y % 400 == 0 {
      var t := y / 400;
      assert y == 100 * (4 * t);
    }
  }

  lemma Divides100(y: int)
    ensures y % 100 == 0 ==> y % 4 == 0
  {
    if y % 100 == 0 {
      var t := y / 100;
      assert y == 4 * (25 * t);
    }
  }

  lemma YearLength(y: int)
    requires 1 <= y
    ensures DaysBeforeYear(y + 1) - DaysBeforeYear(y) == if IsLeap(y) then 366 else 365
  {
    DivStep4(y);
    DivStep100(y);
    DivStep400(y);
    Divides400(y);
    Divides100(y);
    var p := y - 1;
    assert DaysBeforeYear(y + 1) - DaysBeforeYear(y) == 365 + (y / 4 - p / 4) - (y / 100 - p / 100) + (y / 400 - p / 400);
  }

  lemma MonthsOfYear(y: int)
    ensures DaysBeforeMonth(y, 12) + 31 == if IsLeap(y) then 366 else 365
  {
    var feb := if IsLeap(y) then 29 else 28;
    assert DaysBeforeMonth(y, 2) == 31;
    assert DaysBeforeMonth(y, 3) == 31 + feb;
    assert DaysBeforeMonth(y, 4) == 62 + feb;
    assert DaysBeforeMonth(y, 5) == 92 + feb;
    assert DaysBeforeMonth(y, 6) == 123 + feb;
    assert DaysBeforeMonth(y, 7) == 153 + feb;
    assert DaysBeforeMonth(y, 8) == 184 + feb;
    assert DaysBeforeMonth(y, 9) == 215 + feb;
    assert DaysBeforeMonth(y, 10) == 245 + feb;
    assert DaysBeforeMonth(y, 11) == 276 + feb;
    assert DaysBeforeMonth(y, 12) == 306 + feb;
  }

  /** `d + timedelta(days=1)`. */
  function NextDay(d: Date): (r: Date)
    requires Valid(d) && d != LastDate
    ensures Valid(r) && Ordinal(r) == Ordinal(d) + 1
  {
    if d.day < DaysInMonth(d.year, d.month) then Date(d.year, d.month, d.day + 1)
    else if d.month < 12 then Date(d.year, d.month + 1, 1)
    else
      YearLength(d.year);
      MonthsOfYear(d.year);
      Date(d.year + 1, 1, 1)
  }

  /** `a < b` on `datetime` values: by year, then month, then day. */
  predicate Before(a: Date, b: Date)
  {
    a.year < b.year || (a.year == b.year && (a.month < b.month || (a.month == b.month && a.day < b.day)))
  }

  lemma {:induction false} MonthEnds(y: int, m1: int, m2: int)
    requires 1 <= m1 < m2 <= 12
    ensures DaysBeforeMonth(y, m1) + DaysInMonth(y, m1) <= DaysBeforeMonth(y, m2)
    decreases m2 - m1
  {
    if m1 + 1 < m2 {
      MonthEnds(y, m1, m2 - 1);
    }
  }

  lemma DayOfYearBound(d: Date)
    requires Valid(d)
    ensures DaysBeforeMonth(d.year, d.month) + d.day <= if IsLeap(d.year) then 366 else 365
  {
    if d.month < 12 {
      MonthEnds(d.year, d.month, 12);
    }
    MonthsOfYear(d.year);
  }

  lemma {:induction false} YearsAhead(y1: int, y2: int)
    requires 1 <= y1 < y2
    ensures DaysBeforeYear(y1) + (if IsLeap(y1) then 366 else 365) <= DaysBeforeYear(y2)
    decreases y2 - y1
  {
    YearLength(y1);
    if y1 + 1 < y2 {
      YearsAhead(y1 + 1, y2);
    }
  }

  lemma OrdinalStrict(a: Date, b: Date)
    requires Valid(a) && Valid(b) && Before(a, b)
    ensures Ordinal(a) < Ordinal(b)
  {
    if a.year < b.year {
      DayOfYearBound(a);
      YearsAhead(a.year, b.year);
    } else if a.month < b.month {
      MonthEnds(a.year, a.month, b.month);
    }
  }

  /** Comparing dates is comparing their ordinals, so the ordinal tells dates apart. */
  lemma OrdinalOrder(a: Date, b: Date)
    requires Valid(a) && Valid(b)
    ensures Before(a, b) <==> Ordinal(a) < Ordinal(b)
    ensures a == b <==> Ordinal(a) == Ordinal(b)
  {
    if Before(a, b) {
      OrdinalStrict(a, b);
    } else if a != b {
      OrdinalStrict(b, a);
    }
  }

  /** No valid date comes after the last one. */
  lemma NothingAfterLast(d: Date)
    requires Valid(d)
    ensures !Before(LastDate, d)
  {
  }

  function Digit(c: char): int
    requires Text.IsAsciiDigit(c)
  {
    Text.DigitValue(c)
  }

  /** The `%d` alternatives `3[01]|[12]\d|0[1-9]|[1-9]| [1-9]`, first that matches at `p`. */
  function MatchDay(s: string, p: nat): Option<(int, nat)>
  {
    if p + 2 <= |s| && s[p] == '3' && (s[p + 1] == '0' || s[p + 1] == '1') then Some((30 + Digit(s[p + 1]), p + 2))
    else if p + 2 <= |s| && (s[p] == '1' || s[p] == '2') && Text.IsAsciiDigit(s[p + 1]) then Some((10 * Digit(s[p]) + Digit(s[p + 1]), p + 2))
    else if p + 2 <= |s| && s[p] == '0' && '1' <= s[p + 1] <= '9' then Some((Digit(s[p + 1]), p + 2))
    else if p + 1 <= |s| && '1' <= s[p] <= '9' then Some((Digit(s[p]), p + 1))
    else if p + 2 <= |s| && s[p] == ' ' && '1' <= s[p + 1] <= '9' then Some((Digit(s[p + 1]), p + 2))
    else None
  }

  /**
   * The `%m` alternatives `1[0-2]|0[1-9]|[1-9]` at position 4, each tried in
   * turn until the day matches after it: month, day and where the match ends.
   */
  function MatchMonthDay(s: string): Option<(int, int, nat)>
  {
    var alt1 := if 6 <= |s| && s[4] == '1' && '0' <= s[5] <= '2' then MatchDay(s, 6) else None;
    var alt2 := if 6 <= |s| && s[4] == '0' && '1' <= s[5] <= '9' then MatchDay(s, 6) else None;
    var alt3 := if 5 <= |s| && '1' <= s[4] <= '9' then MatchDay(s, 5) else None;
    if alt1.Some? then Some((10 + Digit(s[5]), alt1.value.0, alt1.value.1))
    else if alt2.Some? then Some((Digit(s[5]), alt2.value.0, alt2.value.1))
    else if alt3.Some? then Some((Digit(s[4]), alt3.value.0, alt3.value.1))
    else None
  }

  /**
   * `datetime.strptime(s, '%Y%m%d')`: four year digits, the first month/day
   * match, no unconverted text left, and a date that exists.
   */
  function ParseYmd(s: string): (r: Option<Date>)
    ensures r.Some? ==> Valid(r.value)
  {
    if |s| < 5 || !Text.AllDigits(s[..4]) then None
    else
      match MatchMonthDay(s)
      case None => None
      case Some(md) =>
        var d := Date(Text.DigitsValue(s[..4]), md.0, md.1);
        if md.2 == |s| && Valid(d) then Some(d) else None
  }

  function FourDigits(n: nat): (s: string)
    requires n < 10000
    ensures |s| == 4 && Text.AllDigits(s) && Text.DigitsValue(s) == n
  {
    var s := Text.TwoDigits(n / 100) + Text.TwoDigits(n % 100);
    DigitsValueOfConcatTwo(Text.TwoDigits(n / 100), Text.TwoDigits(n % 100));
    s
  }

  lemma DigitsValueOfConcatTwo(a: string, b: string)
    requires |b| == 2 && Text.AllDigits(a) && Text.AllDigits(b)
    ensures Text.AllDigits(a + b) && Text.DigitsValue(a + b) == Text.DigitsValue(a) * 100 + Text.DigitsValue(b)
  {
    var ab := a + b;
    var a1 := a + b[..1];
    assert ab[..|ab| - 1] == a1 && ab[|ab| - 1] == b[1];
    assert a1[..|a1| - 1] == a && a1[|a1| - 1] == b[0];
    assert Text.DigitsValue(a1) == Text.DigitsValue(a) * 10 + Text.DigitValue(b[0]);
    assert Text.DigitsValue(ab) == Text.DigitsValue(a1) * 10 + Text.DigitValue(b[1]);
    assert b[..1][..0] == [] && b[..1][0] == b[0];
    assert Text.DigitsValue(b[..1]) == Text.DigitValue(b[0]);
  }

  /** `d.strftime('%Y%m%d')`, the year written with four digits. */
  function FormatYmd(d: Date): (s: string)
    requires Valid(d)
    ensures |s| == 8 && Text.AllDigits(s)
  {
    FourDigits(d.year) + Text.TwoDigits(d.month) + Text.TwoDigits(d.day)
  }

  /** Two digits spelling a day of 1 to 31 are matched whole by the `%d` alternatives. */
  lemma MatchDayOfTwoDigits(s: string, p: nat, day: int)
    requires p + 2 == |s| && Text.IsAsciiDigit(s[p]) && Text.IsAsciiDigit(s[p + 1])
    requires 10 * Digit(s[p]) + Digit(s[p + 1]) == day && 1 <= day <= 31
    ensures MatchDay(s, p) == Some((day, p + 2))
  {
  }

  /** Two month digits then two day digits are matched whole by the `%m%d` alternatives. */
  lemma MatchMonthDayOfDigits(s: string, month: int, day: int)
    requires |s| == 8 && forall i :: 4 <= i < 8 ==> Text.IsAsciiDigit(s[i])
    requires 10 * Digit(s[4]) + Digit(s[5]) == month && 1 <= month <= 12
    requires 10 * Digit(s[6]) + Digit(s[7]) == day && 1 <= day <= 31
    ensures MatchMonthDay(s) == Some((month, day, 8))
  {
    MatchDayOfTwoDigits(s, 6, day);
  }

  /** The two digits of `TwoDigits` spell the number. */
  lemma TwoDigitsValue(n: nat)
    requires n < 100
    ensures 10 * Digit(Text.TwoDigits(n)[0]) + Digit(Text.TwoDigits(n)[1]) == n
  {
    var t := Text.TwoDigits(n);
    assert t[..1] == [t[0]] && t[..1][..0] == [];
    assert Text.DigitsValue(t) == 10 * Digit(t[0]) + Digit(t[1]);
  }

  /** Parsing a formatted date gives the date back. */
  lemma ParseFormatRoundTrip(d: Date)
    requires Valid(d)
    ensures ParseYmd(FormatYmd(d)) == Some(d)
  {
    var s := FormatYmd(d);
    var y := FourDigits(d.year);
    var mm := Text.TwoDigits(d.month);
    var dd := Text.TwoDigits(d.day);
    assert s == y + mm + dd;
    assert s[..4] == y;
    assert s[4] == mm[0] && s[5] == mm[1] && s[6] == dd[0] && s[7] == dd[1];
    TwoDigitsValue(d.month);
    TwoDigitsValue(d.day);
    MatchMonthDayOfDigits(s, d.month, d.day);
  }
}
