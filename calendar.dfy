/**
 * DateOnly and DateTime as numbers, and the calendar arithmetic behind the
 * formats "yyyy-MM-dd" and "yyyyMMddHHmmss" and behind AddMonths(-1).
 *
 * A DateOnly is its DayNumber: the count of days since 0001-01-01 in the
 * proleptic Gregorian calendar, so AddDays(1) is + 1. A DateTime is held to
 * the second, as the count of seconds since 0001-01-01T00:00:00.
 */
module Calendar {
  import opened Text
  import opened Wrappers

  /** DateOnly.DayNumber of 9999-12-31, DateOnly.MaxValue. */
  const MaxDay: int := 3652058

  const SecondsPerDay: int := 86400

  predicate IsDay(d: int) { 0 <= d <= MaxDay }

  predicate IsDateTime(t: int) { 0 <= t < (MaxDay + 1) * SecondsPerDay }

  /** DateOnly.FromDateTime(t), equally t.Date. */
  function DateOf(t: int): (d: int)
    ensures IsDateTime(t) ==> IsDay(d)
    ensures d * SecondsPerDay <= t < (d + 1) * SecondsPerDay
  {
    t / SecondsPerDay
  }

  /** An instant is its date's first second plus its second of the day. */
  lemma DateAndTimeOfDay(t: int)
    ensures DateOf(t) * SecondsPerDay + t % SecondsPerDay == t
  {
  }

  /** DateOnly.AddDays(n): fails outside 0001-01-01 .. 9999-12-31. */
  function AddDays(d: int, n: int): (r: Option<int>)
    ensures r.Some? <==> IsDay(d + n)
    ensures r.Some? ==> r.value == d + n
  {
    if IsDay(d + n) then Some(d + n) else None
  }

  // ---------------------------------------------------------------------
  // Gregorian calendar

  predicate IsLeapYear(y: int)
  {
    y % 4 == 0 && (y % 100 != 0 || y % 400 == 0)
  }

  function DaysInYear(y: int): int
  {
    if IsLeapYear(y) then 366 else 365
  }

  function DaysInMonth(y: int, m: int): (n: int)
    requires 1 <= m <= 12
    ensures 28 <= n <= 31
  {
    if m == 2 then (if IsLeapYear(y) then 29 else 28)
    else if m == 4 || m == 6 || m == 9 || m == 11 then 30
    else 31
  }

  /** The DayNumber of January 1 of year y. */
  function DaysBeforeYear(y: int): int
    requires y >= 1
  {
    var p := y - 1;
    365 * p + p / 4 - p / 100 + p / 400
  }

  lemma DaysBeforeNextYear(y: int)
    requires y >= 1
    ensures DaysBeforeYear(y + 1) == DaysBeforeYear(y) + DaysInYear(y)
  {
    var p := y - 1;
    assert (p + 1) / 4 == p / 4 + (if y % 4 == 0 then 1 else 0);
    assert (p + 1) / 100 == p / 100 + (if y % 100 == 0 then 1 else 0);
    assert (p + 1) / 400 == p / 400 + (if y % 400 == 0 then 1 else 0);
  }

  lemma {:induction false} DaysBeforeYearMonotone(a: int, b: int)
    requires 1 <= a <= b
    ensures DaysBeforeYear(a) + 365 * (b - a) <= DaysBeforeYear(b)
    decreases b - a
  {
    if a < b {
      DaysBeforeNextYear(a);
      DaysBeforeYearMonotone(a + 1, b);
    }
  }

  /** Days from January 1 to the first day of month m of year y (m = 13: the whole year). */
  function DaysBeforeMonth(y: int, m: int): int
    requires 1 <= m <= 13
  {
    [0, 31, 59, 90, 120, 151, 181, 212, 243, 273, 304, 334, 365][m - 1]
      + (if m > 2 && IsLeapYear(y) then 1 else 0)
  }

  lemma DaysBeforeNextMonth(y: int, m: int)
    requires 1 <= m <= 12
    ensures DaysBeforeMonth(y, m + 1) == DaysBeforeMonth(y, m) + DaysInMonth(y, m)
  {
  }

  lemma DaysBeforeMonthsCoverYear(y: int)
    ensures DaysBeforeMonth(y, 13) == DaysInYear(y)
  {
  }

  datatype CivilDate = CivilDate(year: int, month: int, day: int)

  /** A date DateOnly can hold: years 1 to 9999, a real month and day. */
  predicate IsCivil(c: CivilDate)
  {
    1 <= c.year <= 9999 && 1 <= c.month <= 12 && 1 <= c.day <= DaysInMonth(c.year, c.month)
  }

  /** The DayNumber of a calendar date. */
  function DayNumberOf(c: CivilDate): int
    requires IsCivil(c)
  {
    DaysBeforeYear(c.year) + DaysBeforeMonth(c.year, c.month) + c.day - 1
  }

  /** The year holding the day that lies rem days after January 1 of year y. */
  function YearOf(rem: int, y: int): (r: (int, int))
    requires y >= 1 && rem >= 0
    ensures r.0 >= y && 0 <= r.1 < DaysInYear(r.0)
    ensures DaysBeforeYear(r.0) + r.1 == DaysBeforeYear(y) + rem
    decreases rem
  {
    if rem < DaysInYear(y) then (y, rem)
    else
      DaysBeforeNextYear(y);
      YearOf(rem - DaysInYear(y), y + 1)
  }

  /** The month holding the day that lies rem days after the first of month m. */
  function MonthOf(rem: int, y: int, m: int): (r: (int, int))
    requires 1 <= m <= 12 && 0 <= rem && DaysBeforeMonth(y, m) + rem < DaysInYear(y)
    ensures m <= r.0 <= 12 && 0 <= r.1 < DaysInMonth(y, r.0)
    ensures DaysBeforeMonth(y, r.0) + r.1 == DaysBeforeMonth(y, m) + rem
    decreases 12 - m
  {
    if rem < DaysInMonth(y, m) then (m, rem)
    else
      DaysBeforeNextMonth(y, m);
      DaysBeforeMonthsCoverYear(y);
      assert m < 12;
      DaysBeforeNextMonth(y, m + 1);
      MonthOf(rem - DaysInMonth(y, m), y, m + 1)
  }

  /** The calendar date of a DayNumber: its DayNumber is the one we started from. */
  function CivilOf(d: int): (c: CivilDate)
    requires IsDay(d)
    ensures IsCivil(c) && DayNumberOf(c) == d
  {
    var (y, rem) := YearOf(d, 1);
    if y > 9999 then
      DaysBeforeYearMonotone(10000, y);
      assert false;
      CivilDate(1, 1, 1)
    else
      assert DaysBeforeMonth(y, 1) == 0;
      var (m, r2) := MonthOf(rem, y, 1);
      CivilDate(y, m, r2 + 1)
  }

  // ---------------------------------------------------------------------
  // Formats

  /** A calendar date written "yyyy-MM-dd". */
  function FormatIsoDate(c: CivilDate): (s: string)
    requires IsCivil(c)
    ensures |s| == 10 && s[4] == '-' && s[7] == '-'
    ensures forall i :: 0 <= i < 10 && i != 4 && i != 7 ==> IsDigit(s[i])
  {
    Digits(c.year, 4) + "-" + Digits(c.month, 2) + "-" + Digits(c.day, 2)
  }

  /** Reads "yyyy-MM-dd" back; fails on anything that is not a calendar date. */
  function ParseIsoCivil(s: string): Option<CivilDate>
  {
    if |s| != 10 || s[4] != '-' || s[7] != '-' then None
    else
      var c := CivilDate(DigitsValue(s[..4]), DigitsValue(s[5..7]), DigitsValue(s[8..]));
      if IsCivil(c) then Some(c) else None
  }

  lemma FormatIsoDateRoundTrip(c: CivilDate)
    requires IsCivil(c)
    ensures ParseIsoCivil(FormatIsoDate(c)) == Some(c)
  {
    var s := FormatIsoDate(c);
    assert s[..4] == Digits(c.year, 4);
    assert s[5..7] == Digits(c.month, 2);
    assert s[8..] == Digits(c.day, 2);
    DigitsRoundTrip(c.year, 4);
    DigitsRoundTrip(c.month, 2);
    DigitsRoundTrip(c.day, 2);
  }

  /** d.ToString("yyyy-MM-dd"), the ISO 8601 calendar-date form. */
  function IsoDate(d: int): (s: string)
    requires IsDay(d)
  {
    FormatIsoDate(CivilOf(d))
  }

  /** Reads a "yyyy-MM-dd" key back to its DateOnly. */
  function ParseIsoDate(s: string): Option<int>
  {
    match ParseIsoCivil(s)
    case None => None
    case Some(c) => Some(DayNumberOf(c))
  }

  lemma IsoDateRoundTrip(d: int)
    requires IsDay(d)
    ensures ParseIsoDate(IsoDate(d)) == Some(d)
  {
    FormatIsoDateRoundTrip(CivilOf(d));
  }

  /** Two different days never share a key: the dictionary keys cannot collide. */
  lemma IsoDateInjective(a: int, b: int)
    requires IsDay(a) && IsDay(b)
    requires IsoDate(a) == IsoDate(b)
    ensures a == b
  {
    IsoDateRoundTrip(a);
    IsoDateRoundTrip(b);
  }

  /** A calendar date written "yyyyMMdd". */
  function CompactDate(c: CivilDate): (s: string)
    requires IsCivil(c)
    ensures |s| == 8
    ensures forall i :: 0 <= i < 8 ==> IsDigit(s[i])
  {
    Digits(c.year, 4) + Digits(c.month, 2) + Digits(c.day, 2)
  }

  /** Reads "yyyyMMdd" back; fails on anything that is not a calendar date. */
  function ParseCompactDate(s: string): (r: Option<CivilDate>)
    requires |s| == 8
    ensures r.Some? ==> IsCivil(r.value)
  {
    var c := CivilDate(DigitsValue(s[..4]), DigitsValue(s[4..6]), DigitsValue(s[6..]));
    if IsCivil(c) then Some(c) else None
  }

  lemma CompactDateRoundTrip(c: CivilDate)
    requires IsCivil(c)
    ensures ParseCompactDate(CompactDate(c)) == Some(c)
  {
    var s := CompactDate(c);
    assert s[..4] == Digits(c.year, 4);
    assert s[4..6] == Digits(c.month, 2);
    assert s[6..] == Digits(c.day, 2);
    DigitsRoundTrip(c.year, 4);
    DigitsRoundTrip(c.month, 2);
    DigitsRoundTrip(c.day, 2);
  }

  /** A second of the day written "HHmmss". */
  function CompactTime(secs: int): (s: string)
    requires 0 <= secs < SecondsPerDay
    ensures |s| == 6
    ensures forall i :: 0 <= i < 6 ==> IsDigit(s[i])
  {
    var rest := secs % 3600;
    Digits(secs / 3600, 2) + Digits(rest / 60, 2) + Digits(rest % 60, 2)
  }

  /** Reads "HHmmss" back to the second of the day; fails outside 00:00:00 .. 23:59:59. */
  function ParseCompactTime(s: string): (r: Option<int>)
    requires |s| == 6
    ensures r.Some? ==> 0 <= r.value < SecondsPerDay
  {
    var h, mi, se := DigitsValue(s[..2]), DigitsValue(s[2..4]), DigitsValue(s[4..]);
    if 0 <= h < 24 && 0 <= mi < 60 && 0 <= se < 60
    then Some(h * 3600 + mi * 60 + se)
    else None
  }

  lemma CompactTimeRoundTrip(secs: int)
    requires 0 <= secs < SecondsPerDay
    ensures ParseCompactTime(CompactTime(secs)) == Some(secs)
  {
    var h, rest := secs / 3600, secs % 3600;
    var mi, se := rest / 60, rest % 60;
    TimeOfDaySplit(secs);
    var s := CompactTime(secs);
    assert s[..2] == Digits(h, 2);
    assert s[2..4] == Digits(mi, 2);
    assert s[4..] == Digits(se, 2);
    DigitsRoundTrip(h, 2);
    DigitsRoundTrip(mi, 2);
    DigitsRoundTrip(se, 2);
  }

  /** A second of the day splits into an hour, a minute and a second that give it back. */
  lemma TimeOfDaySplit(secs: int)
    requires 0 <= secs < SecondsPerDay
    ensures var h, rest := secs / 3600, secs % 3600;
            && 0 <= h < 24 && 0 <= rest / 60 < 60 && 0 <= rest % 60 < 60
            && h * 3600 + (rest / 60) * 60 + rest % 60 == secs
  {
  }

  /** A calendar date and a time of day written "yyyyMMddHHmmss". */
  function FormatCompact(c: CivilDate, secs: int): (s: string)
    requires IsCivil(c) && 0 <= secs < SecondsPerDay
    ensures |s| == 14
    ensures forall i :: 0 <= i < 14 ==> IsDigit(s[i])
  {
    CompactDate(c) + CompactTime(secs)
  }

  /** Reads "yyyyMMddHHmmss" back to a date and a second of the day. */
  function ParseCompact(s: string): (r: Option<(CivilDate, int)>)
    ensures r.Some? ==> IsCivil(r.value.0) && 0 <= r.value.1 < SecondsPerDay
  {
    if |s| != 14 then None
    else
      match (ParseCompactDate(s[..8]), ParseCompactTime(s[8..]))
      case (Some(c), Some(secs)) => Some((c, secs))
      case _ => None
  }

  lemma FormatCompactRoundTrip(c: CivilDate, secs: int)
    requires IsCivil(c) && 0 <= secs < SecondsPerDay
    ensures ParseCompact(FormatCompact(c, secs)) == Some((c, secs))
  {
    var s := FormatCompact(c, secs);
    assert s[..8] == CompactDate(c);
    assert s[8..] == CompactTime(secs);
    CompactDateRoundTrip(c);
    CompactTimeRoundTrip(secs);
  }

  /** t.ToString("yyyyMMddHHmmss"). */
  function CompactTimestamp(t: int): (s: string)
    requires IsDateTime(t)
  {
    FormatCompact(CivilOf(DateOf(t)), t % SecondsPerDay)
  }

  /** Reads a "yyyyMMddHHmmss" string back to the instant it names. */
  function ParseCompactTimestamp(s: string): Option<int>
  {
    match ParseCompact(s)
    case None => None
    case Some((c, secs)) => Some(DayNumberOf(c) * SecondsPerDay + secs)
  }

  lemma CompactTimestampRoundTrip(t: int)
    requires IsDateTime(t)
    ensures ParseCompactTimestamp(CompactTimestamp(t)) == Some(t)
  {
    CompactTimestampParts(t);
    DateAndTimeOfDay(t);
  }

  lemma CompactTimestampParts(t: int)
    requires IsDateTime(t)
    ensures ParseCompact(CompactTimestamp(t)) == Some((CivilOf(DateOf(t)), t % SecondsPerDay))
  {
    FormatCompactRoundTrip(CivilOf(DateOf(t)), t % SecondsPerDay);
  }

  // ---------------------------------------------------------------------
  // AddMonths(-1)

  /**
   * The date of t.AddMonths(-1): the same day one month earlier, cut back to
   * the last day of that month when it is shorter; fails in January of year 1.
   */
  function MonthBefore(d: int): Option<int>
    requires IsDay(d)
  {
    var c := CivilOf(d);
    if c.year == 1 && c.month == 1 then None
    else
      var (y, m) := PreviousMonth(c.year, c.month);
      var day := if c.day <= DaysInMonth(y, m) then c.day else DaysInMonth(y, m);
      Some(DayNumberOf(CivilDate(y, m, day)))
  }

  /** The calendar month before (y, m), which must not be January of year 1. */
  function PreviousMonth(y: int, m: int): (r: (int, int))
    requires 1 <= y && 1 <= m <= 12 && (y, m) != (1, 1)
    ensures 1 <= r.0 && 1 <= r.1 <= 12
  {
    if m == 1 then (y - 1, 12) else (y, m - 1)
  }

  /** The first of a month lies as many days after the first of the previous month as that month is long. */
  lemma FirstOfMonthStep(y: int, m: int)
    requires 1 <= y && 1 <= m <= 12 && (y, m) != (1, 1)
    ensures var (py, pm) := PreviousMonth(y, m);
      DaysBeforeYear(y) + DaysBeforeMonth(y, m)
        == DaysBeforeYear(py) + DaysBeforeMonth(py, pm) + DaysInMonth(py, pm)
  {
    if m == 1 {
      DaysBeforeNextYear(y - 1);
      DaysBeforeNextMonth(y - 1, 12);
      DaysBeforeMonthsCoverYear(y - 1);
    } else {
      DaysBeforeNextMonth(y, m - 1);
    }
  }

  /** The DayNumber of the first of d's month, and that of the month before it. */
  lemma MonthStarts(d: int) returns (firstOfMonth: int, first: int, len: int)
    requires IsDay(d)
    ensures var c := CivilOf(d);
      && d == firstOfMonth + c.day - 1
      && (c.year == 1 && c.month == 1 ==> firstOfMonth == 0)
      && (c.year != 1 || c.month != 1 ==>
            var (py, pm) := PreviousMonth(c.year, c.month);
            && len == DaysInMonth(py, pm)
            && first == DaysBeforeYear(py) + DaysBeforeMonth(py, pm)
            && firstOfMonth == first + len
            && first >= 0 && (pm == 1 ==> len == 31) && (pm > 1 ==> first >= 31))
  {
    var c := CivilOf(d);
    firstOfMonth := DaysBeforeYear(c.year) + DaysBeforeMonth(c.year, c.month);
    first, len := 0, 0;
    if c.year != 1 || c.month != 1 {
      first, len := PreviousMonthStart(c.year, c.month);
    }
  }

  /** The DayNumber of the first of the month before (y, m), and that month's length. */
  lemma PreviousMonthStart(y: int, m: int) returns (first: int, len: int)
    requires 1 <= y && 1 <= m <= 12 && (y, m) != (1, 1)
    ensures var (py, pm) := PreviousMonth(y, m);
            && len == DaysInMonth(py, pm)
            && first == DaysBeforeYear(py) + DaysBeforeMonth(py, pm)
            && DaysBeforeYear(y) + DaysBeforeMonth(y, m) == first + len
            && first >= 0 && (pm == 1 ==> len == 31) && (pm > 1 ==> first >= 31)
  {
    var (py, pm) := PreviousMonth(y, m);
    len := DaysInMonth(py, pm);
    first := DaysBeforeYear(py) + DaysBeforeMonth(py, pm);
    FirstOfMonthStep(y, m);
    DaysBeforeYearMonotone(1, py);
  }

  /** One month back is between 28 and 31 days back; it fails only before 0001-02-01. */
  lemma MonthBeforeDistance(d: int)
    requires IsDay(d)
    ensures MonthBefore(d).Some? <==> d >= 31
    ensures MonthBefore(d).Some? ==> 28 <= d - MonthBefore(d).value <= 31
  {
    var firstOfMonth, first, len := MonthStarts(d);
    var c := CivilOf(d);
    if c.year != 1 || c.month != 1 {
      var pday := if c.day <= len then c.day else len;
      assert MonthBefore(d) == Some(first + pday - 1);
    }
  }
}
