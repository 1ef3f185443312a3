/** Civil time in UTC: the Gregorian calendar as Go's time package uses it. */
module Calendar {
  datatype Date = Date(year: int, month: int, day: int)

  datatype Civil = Civil(date: Date, hour: int, minute: int, second: int)

  predicate Leap(year: int) {
    year % 4 == 0 && (year % 100 != 0 || year % 400 == 0)
  }

  function DaysIn(year: int, month: int): int {
    if month == 2 then (if Leap(year) then 29 else 28)
    else if month in {4, 6, 9, 11} then 30
    else 31
  }

  predicate ValidDate(d: Date) {
    1 <= d.month <= 12 && 1 <= d.day <= DaysIn(d.year, d.month)
  }

  predicate Valid(c: Civil) {
    ValidDate(c.date) && 0 <= c.hour < 24 && 0 <= c.minute < 60 && 0 <= c.second < 60
  }

  predicate DateLess(a: Date, b: Date) {
    || a.year < b.year
    || (a.year == b.year && (a.month < b.month || (a.month == b.month && a.day < b.day)))
  }

  predicate Less(a: Civil, b: Civil) {
    || DateLess(a.date, b.date)
    || (a.date == b.date
        && (|| a.hour < b.hour
            || (a.hour == b.hour
                && (a.minute < b.minute || (a.minute == b.minute && a.second < b.second)))))
  }

  // ---------------------------------------------------------------- day and second numbers

  /** Days from 1970-01-01 to January 1st of `year`. */
  function DaysBeforeYear(year: int): int {
    var past := year - 1;
    365 * past + past / 4 - past / 100 + past / 400 - 719162
  }

  const DAYS_BEFORE: seq<int> := [0, 31, 59, 90, 120, 151, 181, 212, 243, 273, 304, 334, 365]

  function DaysBeforeMonth(year: int, month: int): int {
    (if 1 <= month <= 13 then DAYS_BEFORE[month - 1] else 0) + (if month > 2 && Leap(year) then 1 else 0)
  }

  function DayNumber(d: Date): int {
    DaysBeforeYear(d.year) + DaysBeforeMonth(d.year, d.month) + d.day - 1
  }

  /** Seconds since 1970-01-01T00:00:00Z. */
  function Unix(c: Civil): int {
    86400 * DayNumber(c.date) + 3600 * c.hour + 60 * c.minute + c.second
  }

  /** Sunday is 0; 1970-01-01 was a Thursday. */
  function Weekday(d: Date): int {
    (DayNumber(d) + 4) % 7
  }

  // ---------------------------------------------------------------- neighbours

  function NextMonthStart(year: int, month: int): Date {
    if month < 12 then Date(year, month + 1, 1) else Date(year + 1, 1, 1)
  }

  function NextDate(d: Date): Date {
    if d.day < DaysIn(d.year, d.month) then d.(day := d.day + 1) else NextMonthStart(d.year, d.month)
  }

  function PreviousDate(d: Date): Date {
    if d.day > 1 then d.(day := d.day - 1)
    else if d.month > 1 then Date(d.year, d.month - 1, DaysIn(d.year, d.month - 1))
    else Date(d.year - 1, 12, 31)
  }

  function NextHour(c: Civil): Civil {
    if c.hour < 23 then Civil(c.date, c.hour + 1, 0, 0) else Civil(NextDate(c.date), 0, 0, 0)
  }

  function NextMinute(c: Civil): Civil {
    if c.minute < 59 then c.(minute := c.minute + 1, second := 0) else NextHour(c)
  }

  function NextSecond(c: Civil): Civil {
    if c.second < 59 then c.(second := c.second + 1) else NextMinute(c)
  }

  function PreviousSecond(c: Civil): Civil {
    if c.second > 0 then c.(second := c.second - 1)
    else if c.minute > 0 then c.(minute := c.minute - 1, second := 59)
    else if c.hour > 0 then c.(hour := c.hour - 1, minute := 59, second := 59)
    else Civil(PreviousDate(c.date), 23, 59, 59)
  }

  /** AddDate(years, 0, 0): February 29th becomes March 1st in a common year. */
  function AddYears(c: Civil, years: int): Civil {
    var d := c.date.(year := c.date.year + years);
    if d.day <= DaysIn(d.year, d.month) then c.(date := d)
    else c.(date := NextMonthStart(d.year, d.month))
  }

  // ---------------------------------------------------------------- the calendar is a count of days

  lemma Multiples(year: int)
    ensures year / 4 == (year - 1) / 4 + (if year % 4 == 0 then 1 else 0)
    ensures year / 100 == (year - 1) / 100 + (if year % 100 == 0 then 1 else 0)
    ensures year / 400 == (year - 1) / 400 + (if year % 400 == 0 then 1 else 0)
    ensures (year % 100 == 0 ==> year % 4 == 0) && (year % 400 == 0 ==> year % 100 == 0)
  {
    assert year == 100 * (year / 100) + year % 100 == 400 * (year / 400) + year % 400;
    assert year % 100 == 0 ==> year == 4 * (25 * (year / 100));
    assert year % 400 == 0 ==> year == 100 * (4 * (year / 400));
  }

  lemma YearLength(year: int)
    ensures DaysBeforeYear(year + 1) == DaysBeforeYear(year) + DaysBeforeMonth(year, 13)
  {
    Multiples(year);
  }

  lemma NextDateCounts(d: Date)
    requires ValidDate(d)
    ensures ValidDate(NextDate(d)) && DayNumber(NextDate(d)) == DayNumber(d) + 1
  {
    YearLength(d.year);
  }

  lemma WeekdayOfNumber(n: int, days: nat)
    ensures (n + days) % 7 == (n % 7 + days) % 7
  {}

  lemma WeekdayAfter(a: Date, b: Date)
    requires ValidDate(a) && ValidDate(b)
    requires a.year == b.year && a.month == b.month && a.day <= b.day
    ensures Weekday(b) == (Weekday(a) + (b.day - a.day)) % 7
  {
    WeekdayOfNumber(DayNumber(a) + 4, b.day - a.day);
  }

  lemma PreviousDateCounts(d: Date)
    requires ValidDate(d)
    ensures ValidDate(PreviousDate(d)) && DayNumber(PreviousDate(d)) == DayNumber(d) - 1
  {
    YearLength(d.year - 1);
  }

  lemma NextSecondCounts(c: Civil)
    requires Valid(c)
    ensures Valid(NextSecond(c)) && Unix(NextSecond(c)) == Unix(c) + 1
  {
    NextDateCounts(c.date);
  }

  lemma PreviousSecondCounts(c: Civil)
    requires Valid(c)
    ensures Valid(PreviousSecond(c)) && Unix(PreviousSecond(c)) == Unix(c) - 1
  {
    PreviousDateCounts(c.date);
  }

  lemma LaterDateHasLargerNumber(a: Date, b: Date)
    requires ValidDate(a) && ValidDate(b) && DateLess(a, b)
    ensures DayNumber(a) < DayNumber(b)
  {
    YearLength(a.year);
  }

  /** The order of civil times is the order of their second numbers. */
  lemma LessIsUnixLess(a: Civil, b: Civil)
    requires Valid(a) && Valid(b)
    ensures Less(a, b) <==> Unix(a) < Unix(b)
    ensures Unix(a) == Unix(b) ==> a == b
  {
    if DateLess(a.date, b.date) {
      LaterDateHasLargerNumber(a.date, b.date);
    } else if DateLess(b.date, a.date) {
      LaterDateHasLargerNumber(b.date, a.date);
    }
  }

  // ---------------------------------------------------------------- what lies between neighbours

  lemma WithinSecond(c: Civil, x: Civil)
    requires Valid(c) && Valid(x) && !Less(x, c) && Less(x, NextSecond(c))
    ensures x == c
  {
  }

  // ---------------------------------------------------------------- every second has a civil time

  lemma SecondZero()
    ensures var c := Civil(Date(1970, 1, 1), 0, 0, 0); Valid(c) && Unix(c) == 0
  {}

  lemma {:induction false} EverySecondHasCivilTime(unix: int) returns (c: Civil)
    ensures Valid(c) && Unix(c) == unix
    decreases if unix < 0 then -unix else unix
  {
    if unix == 0 {
      SecondZero();
      c := Civil(Date(1970, 1, 1), 0, 0, 0);
    } else if unix > 0 {
      var before := EverySecondHasCivilTime(unix - 1);
      NextSecondCounts(before);
      c := NextSecond(before);
    } else {
      var after := EverySecondHasCivilTime(unix + 1);
      PreviousSecondCounts(after);
      c := PreviousSecond(after);
    }
  }
}
