/**
 Which schedules always have a next instant. The search looks four years ahead, so the answer is a
 property of days: every stretch of four years must hold a day that fits. The calendar repeats after
 400 years, which makes it a finite one.
 */
module CronFires {
  import opened Bits
  import opened Calendar
  import opened CivilSearch
  import opened CronSchedule

  type DayProperty = Date -> bool

  // ---------------------------------------------------------------- days that fit

  /** The month, day and weekday fields allow the day. */
  function DayFits(s: Schedule): DayProperty {
    d => ValidDate(d) && BitSet(s.month, d.month) && DayMatches(s, d)
  }

  function YearsLater(d: Date): Date {
    AddYears(Civil(d, 0, 0, 0), LIMIT_YEARS).date
  }

  /** A day before the same date four years on. */
  ghost predicate FitsBefore(fits: DayProperty, from: Date) {
    exists d :: ValidDate(d) && !DateLess(d, from) && DateLess(d, YearsLater(from)) && fits(d)
  }

  /** A later day, up to the same date four years on. */
  ghost predicate FitsAfter(fits: DayProperty, from: Date) {
    exists d :: ValidDate(d) && DateLess(from, d) && !DateLess(YearsLater(from), d) && fits(d)
  }

  predicate InCycle(d: Date) {
    ValidDate(d) && 2000 <= d.year < 2400
  }

  /** From each day of one 400-year cycle on, a day fits within four years; when the schedule does not
      fire in the last second of a day, also if the first day is passed and the last one is not. */
  ghost predicate FitsThroughCycle(fits: DayProperty, firesLast: bool) {
    forall d | InCycle(d) :: FitsBefore(fits, d) && (firesLast || FitsAfter(fits, d))
  }

  predicate FiresInLastSecond(s: Schedule) {
    BitSet(s.hour, 23) && BitSet(s.minute, 59) && BitSet(s.second, 59)
  }

  /** Whatever the time, the search finds an instant. */
  ghost predicate AlwaysFires(s: Schedule) {
    forall after: Time | Valid(after.civil) :: Found(s, after).Some?
  }

  // ---------------------------------------------------------------- instants and days

  lemma EveryInstantIsEarliest(c: Civil)
    requires Valid(c)
    ensures Valid(PreviousSecond(c)) && Earliest(Time(PreviousSecond(c), 0)) == c
  {
    PreviousSecondCounts(c);
    NextSecondCounts(PreviousSecond(c));
    LessIsUnixLess(c, NextSecond(PreviousSecond(c)));
  }

  /** The search finds an instant exactly if the window from `c` holds one. */
  lemma FindsWhatWindowHolds(s: Schedule, after: Time)
    requires Valid(after.civil)
    ensures Found(s, after).Some? <==>
              exists x :: Matcher(s)(x) && !Less(x, Earliest(after)) && Less(x, AddYears(Earliest(after), LIMIT_YEARS))
  {
    SearchWindow(after);
    ScanFinds(Matcher(s), Earliest(after), Limit(after));
  }

  lemma InWindowByDay(c: Civil, x: Civil)
    requires Valid(c) && Valid(x) && !Less(x, c) && Less(x, AddYears(c, LIMIT_YEARS))
    ensures !DateLess(x.date, c.date) && !DateLess(YearsLater(c.date), x.date)
    ensures x.date == c.date ==> !Less(x, c.(date := x.date))
    ensures c.hour == 0 && c.minute == 0 && c.second == 0 ==> DateLess(x.date, YearsLater(c.date))
  {
    assert AddYears(c, LIMIT_YEARS) == c.(date := YearsLater(c.date));
  }

  /** From any instant of a day the search meets a day that fits. */
  lemma FiringFindsDay(s: Schedule, c: Civil) returns (x: Civil)
    requires Valid(c) && AlwaysFires(s)
    ensures Valid(x) && Matches(s, x) && DayFits(s)(x.date) && !Less(x, c) && Less(x, AddYears(c, LIMIT_YEARS))
  {
    EveryInstantIsEarliest(c);
    var before := Time(PreviousSecond(c), 0);
    FindsWhatWindowHolds(s, before);
    assert Found(s, before).Some?;
    x :| Matcher(s)(x) && !Less(x, c) && Less(x, AddYears(c, LIMIT_YEARS));
  }

  /** From the first second of a day, and from the last one. */
  lemma FiringFits(s: Schedule, d: Date)
    requires ValidDate(d) && AlwaysFires(s)
    ensures FitsBefore(DayFits(s), d) && (FiresInLastSecond(s) || FitsAfter(DayFits(s), d))
  {
    var first, last := Civil(d, 0, 0, 0), Civil(d, 23, 59, 59);
    var x := FiringFindsDay(s, first);
    InWindowByDay(first, x);
    var y := FiringFindsDay(s, last);
    InWindowByDay(last, y);
    hide AlwaysFires, DayFits, AddYears, YearsLater, ValidDate;
    if y.date == d {
      assert y == last;
    }
  }

  /** A time of day that the schedule allows, at or after the given one if there is any. */
  lemma AllowedTime(s: Schedule, c: Civil) returns (t: Civil)
    requires Valid(c) && TimeFieldsAllow(s)
    ensures Valid(t) && t.date == c.date
    ensures BitSet(s.hour, t.hour) && BitSet(s.minute, t.minute) && BitSet(s.second, t.second)
    ensures FiresInLastSecond(s) ==> !Less(t, c)
  {
    if FiresInLastSecond(s) {
      t := Civil(c.date, 23, 59, 59);
    } else {
      var second: nat :| 0 <= second <= 59 && BitSet(s.second, second);
      var minute: nat :| 0 <= minute <= 59 && BitSet(s.minute, minute);
      var hour: nat :| 0 <= hour <= 23 && BitSet(s.hour, hour);
      t := Civil(c.date, hour, minute, second);
    }
  }

  lemma FittingFires(s: Schedule, after: Time)
    requires Valid(after.civil) && TimeFieldsAllow(s)
    requires var d := Earliest(after).date;
      FitsBefore(DayFits(s), d) && (FiresInLastSecond(s) || FitsAfter(DayFits(s), d))
    ensures Found(s, after).Some?
  {
    SearchWindow(after);
    var c := Earliest(after);
    var t := AllowedTime(s, c);
    var d: Date;
    if Less(t, c) {
      d :| ValidDate(d) && DateLess(c.date, d) && !DateLess(YearsLater(c.date), d) && DayFits(s)(d);
    } else {
      d :| ValidDate(d) && !DateLess(d, c.date) && DateLess(d, YearsLater(c.date)) && DayFits(s)(d);
    }
    FitsAtTime(s, c, t, d);
    FindsWhatWindowHolds(s, after);
  }

  /** The day at that time is in the window. */
  lemma FitsAtTime(s: Schedule, c: Civil, t: Civil, d: Date)
    requires Valid(c) && Valid(t) && t.date == c.date && ValidDate(d) && DayFits(s)(d)
    requires BitSet(s.hour, t.hour) && BitSet(s.minute, t.minute) && BitSet(s.second, t.second)
    requires if Less(t, c) then DateLess(c.date, d) && !DateLess(YearsLater(c.date), d)
             else !DateLess(d, c.date) && DateLess(d, YearsLater(c.date))
    ensures var x := t.(date := d); Matcher(s)(x) && !Less(x, c) && Less(x, AddYears(c, LIMIT_YEARS))
  {
    assert AddYears(c, LIMIT_YEARS) == c.(date := YearsLater(c.date));
    DateDecides(c.date, YearsLater(c.date), c, t, d);
    hide ValidDate, Leap, DayNumber, YearsLater;
  }

  lemma DateDecides(from: Date, to: Date, c: Civil, t: Civil, d: Date)
    requires c.date == t.date == from
    requires if Less(t, c) then DateLess(from, d) && !DateLess(to, d) else !DateLess(d, from) && DateLess(d, to)
    ensures !Less(t.(date := d), c) && Less(t.(date := d), c.(date := to))
  {}

  // ---------------------------------------------------------------- the calendar repeats

  function Shifted(d: Date, cycles: int): Date {
    d.(year := d.year + 400 * cycles)
  }

  lemma FoursRepeat(x: int, n: int)
    ensures (x + 4 * n) / 4 == x / 4 + n && (x + 4 * n) % 4 == x % 4
  {}

  lemma HundredsRepeat(x: int, n: int)
    ensures (x + 100 * n) / 100 == x / 100 + n && (x + 100 * n) % 100 == x % 100
  {}

  lemma FourHundredsRepeat(x: int, n: int)
    ensures (x + 400 * n) / 400 == x / 400 + n && (x + 400 * n) % 400 == x % 400
  {}

  lemma SevensRepeat(x: int, n: int)
    ensures (x + 7 * n) % 7 == x % 7
  {}

  lemma LeapRepeats(year: int, cycles: int)
    ensures Leap(year + 400 * cycles) == Leap(year)
  {
    FoursRepeat(year, 100 * cycles);
    HundredsRepeat(year, 4 * cycles);
    FourHundredsRepeat(year, cycles);
  }

  lemma DaysRepeat(year: int, cycles: int)
    ensures DaysBeforeYear(year + 400 * cycles) == DaysBeforeYear(year) + 7 * (20871 * cycles)
  {
    var past := year - 1;
    FoursRepeat(past, 100 * cycles);
    HundredsRepeat(past, 4 * cycles);
    FourHundredsRepeat(past, cycles);
  }

  lemma WeekdayRepeats(d: Date, cycles: int)
    requires ValidDate(d)
    ensures ValidDate(Shifted(d, cycles)) && Weekday(Shifted(d, cycles)) == Weekday(d)
  {
    LeapRepeats(d.year, cycles);
    DaysRepeat(d.year, cycles);
    hide DaysBeforeYear, Leap;
    assert DayNumber(Shifted(d, cycles)) == DayNumber(d) + 7 * (20871 * cycles);
    SevensRepeat(DayNumber(d) + 4, 20871 * cycles);
  }

  /** A property of days that does not change with 400 years. */
  ghost predicate Repeats(fits: DayProperty) {
    forall d, cycles: int | ValidDate(d) :: fits(Shifted(d, cycles)) == fits(d)
  }

  lemma FittingRepeats(s: Schedule)
    ensures Repeats(DayFits(s))
  {
    forall d, cycles: int | ValidDate(d)
      ensures DayFits(s)(Shifted(d, cycles)) == DayFits(s)(d)
    {
      WeekdayRepeats(d, cycles);
    }
  }

  lemma YearsLaterRepeats(d: Date, cycles: int)
    requires ValidDate(d)
    ensures YearsLater(Shifted(d, cycles)) == Shifted(YearsLater(d), cycles)
  {
    LeapRepeats(d.year + LIMIT_YEARS, cycles);
  }

  lemma WindowRepeats(fits: DayProperty, from: Date, cycles: int)
    requires ValidDate(from) && Repeats(fits)
    ensures FitsBefore(fits, from) ==> FitsBefore(fits, Shifted(from, cycles))
    ensures FitsAfter(fits, from) ==> FitsAfter(fits, Shifted(from, cycles))
  {
    YearsLaterRepeats(from, cycles);
    if FitsBefore(fits, from) {
      var d :| ValidDate(d) && !DateLess(d, from) && DateLess(d, YearsLater(from)) && fits(d);
      WeekdayRepeats(d, cycles);
      var e := Shifted(d, cycles);
      assert ValidDate(e) && !DateLess(e, Shifted(from, cycles))
          && DateLess(e, YearsLater(Shifted(from, cycles))) && fits(e);
    }
    if FitsAfter(fits, from) {
      var d :| ValidDate(d) && DateLess(from, d) && !DateLess(YearsLater(from), d) && fits(d);
      WeekdayRepeats(d, cycles);
      var e := Shifted(d, cycles);
      assert ValidDate(e) && DateLess(Shifted(from, cycles), e)
          && !DateLess(YearsLater(Shifted(from, cycles)), e) && fits(e);
    }
  }

  /** What holds in one cycle holds from every day. */
  lemma CycleIsEnough(fits: DayProperty, firesLast: bool, from: Date)
    requires ValidDate(from) && Repeats(fits) && FitsThroughCycle(fits, firesLast)
    ensures FitsBefore(fits, from) && (firesLast || FitsAfter(fits, from))
  {
    var cycles := (from.year - 2000) / 400;
    var d := Shifted(from, -cycles);
    WeekdayRepeats(from, -cycles);
    assert InCycle(d) && Shifted(d, cycles) == from;
    WindowRepeats(fits, d, cycles);
  }

  // ---------------------------------------------------------------- main theorems

  /** For any fields: the search never fails if and only if, from each day of a 400-year cycle on, some
      day fits within the four years. */
  lemma FiresExactly(s: Schedule)
    requires TimeFieldsAllow(s)
    ensures AlwaysFires(s) <==> FitsThroughCycle(DayFits(s), FiresInLastSecond(s))
  {
    if AlwaysFires(s) {
      forall d | InCycle(d)
        ensures FitsBefore(DayFits(s), d) && (FiresInLastSecond(s) || FitsAfter(DayFits(s), d))
      {
        FiringFits(s, d);
      }
    }
    if FitsThroughCycle(DayFits(s), FiresInLastSecond(s)) {
      FittingRepeats(s);
      forall after: Time | Valid(after.civil)
        ensures Found(s, after).Some?
      {
        SearchWindow(after);
        CycleIsEnough(DayFits(s), FiresInLastSecond(s), Earliest(after).date);
        FittingFires(s, after);
      }
    }
  }

  /** With an unrestricted weekday: if and only if some allowed day exists in every year. Otherwise the
      search fails after February 2096. */
  lemma FreeWeekdayFiresExactly(s: Schedule)
    requires TimeFieldsAllow(s) && AllowsAll(s.dow, 0, 6)
    ensures AlwaysFires(s) <==> AllowsYearlyDay(s)
    ensures AlwaysFires(s) <==> Found(s, LAST_LEAP_DAY_PASSED).Some?
  {
    if AllowsYearlyDay(s) {
      forall after: Time | Valid(after.civil)
        ensures Found(s, after).Some?
      {
        FreeDayFieldHasNext(s, after);
      }
    } else {
      LeapDayBeyondLimit(s);
      assert Found(s, LAST_LEAP_DAY_PASSED).None?;
    }
  }

  /** With an unrestricted day of month the search never fails. */
  lemma FreeDayOfMonthFires(s: Schedule)
    requires TimeFieldsAllow(s) && AllowsAll(s.dom, 1, 31) && Allows(s.dow, 0, 6)
    ensures AlwaysFires(s)
  {
    forall after: Time | Valid(after.civil)
      ensures Found(s, after).Some?
    {
      FreeDayFieldHasNext(s, after);
    }
  }

  /** A schedule never fires at all if and only if no day of one cycle fits. */
  lemma NeverFiresExactly(s: Schedule)
    requires TimeFieldsAllow(s)
    ensures (forall x | Valid(x) :: !Matches(s, x)) <==> forall d | InCycle(d) :: !DayFits(s)(d)
  {
    if d :| InCycle(d) && DayFits(s)(d) {
      var t := AllowedTime(s, Civil(d, 0, 0, 0));
      assert Matches(s, t);
    }
    if x :| Valid(x) && Matches(s, x) {
      FittingRepeats(s);
      var cycles := (x.date.year - 2000) / 400;
      WeekdayRepeats(x.date, -cycles);
      assert InCycle(Shifted(x.date, -cycles)) && DayFits(s)(x.date);
    }
  }
}
