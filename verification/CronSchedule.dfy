/** Cron schedules in UTC and the skip-ahead search for their next instant. */
module CronSchedule {
  import opened Wrappers
  import opened Bits
  import opened Calendar
  import opened CivilSearch

  datatype Schedule = Schedule(second: bv64, minute: bv64, hour: bv64, dom: bv64, month: bv64, dow: bv64)

  /** Go's time.Time in UTC: a civil second and the nanoseconds past it. */
  datatype Time = Time(civil: Civil, nanos: nat)

  const LIMIT_YEARS: int := 4

  predicate DayMatches(s: Schedule, d: Date)
    requires ValidDate(d)
  {
    BitSet(s.dom, d.day) && BitSet(s.dow, Weekday(d))
  }

  /** The meaning of a schedule: every field allows the instant, both day fields included. */
  predicate Matches(s: Schedule, c: Civil)
    requires Valid(c)
  {
    && BitSet(s.month, c.date.month)
    && DayMatches(s, c.date)
    && BitSet(s.hour, c.hour)
    && BitSet(s.minute, c.minute)
    && BitSet(s.second, c.second)
  }

  function Matcher(s: Schedule): Property {
    c => Valid(c) && Matches(s, c)
  }

  // ---------------------------------------------------------------- jumps

  function NextMonth(c: Civil): Civil {
    Civil(NextMonthStart(c.date.year, c.date.month), 0, 0, 0)
  }

  function NextDay(c: Civil): Civil {
    Civil(NextDate(c.date), 0, 0, 0)
  }

  /** Where the search goes from an instant the schedule rejects. */
  function Jump(s: Schedule, c: Civil): Civil
    requires Valid(c)
  {
    if !BitSet(s.month, c.date.month) then NextMonth(c)
    else if !DayMatches(s, c.date) then NextDay(c)
    else if !BitSet(s.hour, c.hour) then NextHour(c)
    else if !BitSet(s.minute, c.minute) then NextMinute(c)
    else NextSecond(c)
  }

  lemma JumpMovesForward(s: Schedule, c: Civil)
    requires Valid(c)
    ensures Valid(Jump(s, c)) && Less(c, Jump(s, c))
  {
    hide BitSet, DayMatches;
    if !BitSet(s.month, c.date.month) {
      assert Valid(NextMonth(c)) && Less(c, NextMonth(c));
    } else if !DayMatches(s, c.date) {
      assert Valid(NextDay(c)) && Less(c, NextDay(c));
    } else if !BitSet(s.hour, c.hour) {
      assert Valid(NextHour(c)) && Less(c, NextHour(c));
    } else if !BitSet(s.minute, c.minute) {
      assert Valid(NextMinute(c)) && Less(c, NextMinute(c));
    }
  }

  /** A jump passes over rejected instants only. */
  lemma JumpSkips(s: Schedule, c: Civil, x: Civil)
    requires Valid(c) && !Matches(s, c)
    requires Valid(x) && !Less(x, c) && Less(x, Jump(s, c))
    ensures !Matches(s, x)
  {
    if BitSet(s.month, c.date.month) && DayMatches(s, c.date) && BitSet(s.hour, c.hour) && BitSet(s.minute, c.minute) {
      WithinSecond(c, x);
    }
  }

  lemma JumpSkipsNothing(s: Schedule, c: Civil)
    requires Valid(c) && !Matches(s, c)
    ensures NoMatch(Matcher(s), c, Jump(s, c))
  {
    forall x | Valid(x) && !Less(x, c) && Less(x, Jump(s, c))
      ensures !Matcher(s)(x)
    {
      JumpSkips(s, c, x);
    }
  }

  /** The search has passed over all instants from `from` to `c`. */
  ghost predicate Passed(s: Schedule, from: Civil, c: Civil) {
    Valid(from) && Valid(c) && !Less(c, from) && NoMatch(Matcher(s), from, c)
  }

  lemma JumpPasses(s: Schedule, from: Civil, c: Civil, limit: Civil)
    requires Passed(s, from, c) && !Matches(s, c) && Valid(limit) && Less(c, limit)
    ensures Passed(s, from, Jump(s, c)) && Unix(Jump(s, c)) > Unix(c) && Unix(limit) > Unix(c)
  {
    JumpMovesForward(s, c);
    JumpSkipsNothing(s, c);
    LessIsUnixLess(c, Jump(s, c));
    LessIsUnixLess(c, limit);
    hide Jump, Matches, Unix;
  }

  /** The search ends at a match, or at the limit. */
  lemma SearchEnds(s: Schedule, from: Civil, c: Civil, limit: Civil)
    requires Passed(s, from, c) && Valid(limit) && (Less(c, limit) ==> Matches(s, c))
    ensures Scan(Matcher(s), from, limit) == if Less(c, limit) then Some(c) else None
    ensures !Less(c, limit) ==> NoMatch(Matcher(s), from, limit)
  {
    ScanPassesNoMatch(Matcher(s), from, c, limit);
    if !Less(c, limit) {
      ScanFinds(Matcher(s), from, limit);
    }
  }

  // ---------------------------------------------------------------- the search

  function Earliest(after: Time): Civil {
    NextSecond(after.civil)
  }

  function Limit(after: Time): Civil {
    AddYears(Earliest(after), LIMIT_YEARS)
  }

  lemma SearchWindow(after: Time)
    requires Valid(after.civil)
    ensures Valid(Earliest(after)) && Valid(Limit(after)) && Less(Earliest(after), Limit(after))
    ensures Unix(Earliest(after)) == Unix(after.civil) + 1
  {
    NextSecondCounts(after.civil);
  }

  /** The second-by-second scan of the search's window. */
  function Found(s: Schedule, after: Time): (r: Option<Civil>)
    requires Valid(after.civil)
    ensures r.Some? ==> Valid(r.value)
  {
    SearchWindow(after);
    ScanIsLeast(Matcher(s), Earliest(after), Limit(after));
    Scan(Matcher(s), Earliest(after), Limit(after))
  }

  method Next(s: Schedule, after: Time) returns (next: Option<Civil>)
    requires Valid(after.civil)
    ensures next == Found(s, after)
    ensures Valid(Earliest(after)) && Valid(Limit(after))
    ensures next.Some? ==> Valid(next.value) && Matches(s, next.value)
    ensures next.Some? ==> !Less(next.value, Earliest(after)) && Less(next.value, Limit(after))
    ensures next.Some? ==> NoMatch(Matcher(s), Earliest(after), next.value)
    ensures next.None? ==> NoMatch(Matcher(s), Earliest(after), Limit(after))
  {
    SearchWindow(after);
    var candidate := NextSecond(after.civil);
    var limit := AddYears(candidate, LIMIT_YEARS);
    while Less(candidate, limit)
      invariant Passed(s, Earliest(after), candidate)
      decreases Unix(limit) - Unix(candidate)
    {
      ghost var current := candidate;
      if !BitSet(s.month, candidate.date.month) {
        candidate := NextMonth(candidate);
      } else if !BitSet(s.dom, candidate.date.day) || !BitSet(s.dow, Weekday(candidate.date)) {
        candidate := NextDay(candidate);
      } else if !BitSet(s.hour, candidate.hour) {
        candidate := NextHour(candidate);
      } else if !BitSet(s.minute, candidate.minute) {
        candidate := NextMinute(candidate);
      } else if !BitSet(s.second, candidate.second) {
        candidate := NextSecond(candidate);
      } else {
        SearchEnds(s, Earliest(after), candidate, limit);
        return Some(candidate);
      }
      JumpPasses(s, Earliest(after), current, limit);
    }
    SearchEnds(s, Earliest(after), candidate, limit);
    return None;
  }

  /** In clock seconds: the result is the least second later than `after` that matches; when there is
      none, no second within four years does. */
  lemma FoundIsLeastSecond(s: Schedule, after: Time, unix: int) returns (c: Civil)
    requires Valid(after.civil) && Valid(Limit(after))
    requires Unix(after.civil) < unix
    requires unix < if Found(s, after).Some? then Unix(Found(s, after).value) else Unix(Limit(after))
    ensures Valid(c) && Unix(c) == unix && !Matches(s, c)
  {
    SearchWindow(after);
    var from, limit := Earliest(after), Limit(after);
    var next := Found(s, after);
    ScanIsLeast(Matcher(s), from, limit);
    c := NoMatchInSeconds(Matcher(s), from, if next.Some? then next.value else limit, unix);
  }

  // ---------------------------------------------------------------- when the search succeeds

  /** Some value in lo..hi is allowed by the field. */
  ghost predicate Allows(mask: bv64, lo: nat, hi: nat) {
    exists v: nat :: lo <= v <= hi && BitSet(mask, v)
  }

  ghost predicate AllowsAll(mask: bv64, lo: nat, hi: nat) {
    forall v: nat | lo <= v <= hi :: BitSet(mask, v)
  }

  ghost predicate TimeFieldsAllow(s: Schedule) {
    && Allows(s.second, 0, 59) && Allows(s.minute, 0, 59) && Allows(s.hour, 0, 23)
    && Allows(s.month, 1, 12)
  }

  lemma MonthHasWeekday(year: int, month: int, weekday: nat) returns (day: int)
    requires 1 <= month <= 12 && weekday <= 6
    ensures 1 <= day <= 7 && ValidDate(Date(year, month, day))
    ensures Weekday(Date(year, month, day)) == weekday
  {
    var first := Date(year, month, 1);
    day := 1 + (weekday - Weekday(first)) % 7;
    WeekdayAfter(first, Date(year, month, day));
  }

  /** Some allowed day of some allowed month exists in every year. */
  ghost predicate AllowsYearlyDay(s: Schedule) {
    exists d: Date :: IsYearly(d) && BitSet(s.month, d.month) && BitSet(s.dom, d.day)
  }

  /** A day of a common year, so of any year. */
  predicate IsYearly(d: Date) {
    d.year == COMMON_YEAR && ValidDate(d)
  }

  const COMMON_YEAR: int := 2001

  lemma FreeDayFieldHasDay(s: Schedule, year: int) returns (d: Date)
    requires Allows(s.month, 1, 12)
    requires || (AllowsAll(s.dow, 0, 6) && AllowsYearlyDay(s))
             || (AllowsAll(s.dom, 1, 31) && Allows(s.dow, 0, 6))
    ensures ValidDate(d) && d.year == year && BitSet(s.month, d.month) && DayMatches(s, d)
  {
    if AllowsAll(s.dow, 0, 6) && AllowsYearlyDay(s) {
      var yearly: Date :| IsYearly(yearly) && BitSet(s.month, yearly.month) && BitSet(s.dom, yearly.day);
      d := yearly.(year := year);
    } else {
      var month: nat :| 1 <= month <= 12 && BitSet(s.month, month);
      var weekday: nat :| 0 <= weekday <= 6 && BitSet(s.dow, weekday);
      var day := MonthHasWeekday(year, month, weekday);
      d := Date(year, month, day);
    }
  }

  /** When either day field is unrestricted and the other allows a day that exists in every year, the
      search finds an instant. */
  lemma FreeDayFieldHasNext(s: Schedule, after: Time)
    requires Valid(after.civil) && TimeFieldsAllow(s)
    requires || (AllowsAll(s.dow, 0, 6) && AllowsYearlyDay(s))
             || (AllowsAll(s.dom, 1, 31) && Allows(s.dow, 0, 6))
    ensures Found(s, after).Some?
  {
    SearchWindow(after);
    var second: nat :| 0 <= second <= 59 && BitSet(s.second, second);
    var minute: nat :| 0 <= minute <= 59 && BitSet(s.minute, minute);
    var hour: nat :| 0 <= hour <= 23 && BitSet(s.hour, hour);
    var d := FreeDayFieldHasDay(s, Earliest(after).date.year + 1);
    var x := Civil(d, hour, minute, second);
    assert Matcher(s)(x) && !Less(x, Earliest(after)) && Less(x, Limit(after));
    ScanFinds(Matcher(s), Earliest(after), Limit(after));
  }

  /** The time after which the next leap day is eight years away. */
  const LAST_LEAP_DAY_PASSED: Time := Time(Civil(Date(2096, 3, 1), 0, 0, 0), 0)

  const NEXT_LEAP_DAY: Date := Date(2104, 2, 29)

  lemma NoLeapDayUntil2100(x: Civil)
    requires Valid(x)
    requires !Less(x, Civil(Date(2096, 3, 1), 0, 0, 1)) && Less(x, Civil(Date(2100, 3, 1), 0, 0, 1))
    ensures IsYearly(x.date.(year := COMMON_YEAR))
  {}

  lemma NoYearlyDayNoMatch(s: Schedule)
    requires !AllowsYearlyDay(s)
    ensures NoMatch(Matcher(s), Civil(Date(2096, 3, 1), 0, 0, 1), Civil(Date(2100, 3, 1), 0, 0, 1))
  {
    forall x | Valid(x) && !Less(x, Civil(Date(2096, 3, 1), 0, 0, 1)) && Less(x, Civil(Date(2100, 3, 1), 0, 0, 1))
      ensures !Matcher(s)(x)
    {
      NoLeapDayUntil2100(x);
      hide Valid, Less, IsYearly;
      assert x.date.(year := COMMON_YEAR).day == x.date.day;
    }
  }

  lemma LeapDayIsFriday()
    ensures ValidDate(NEXT_LEAP_DAY) && Weekday(NEXT_LEAP_DAY) == 5
  {}

  /** Without a day that exists in every year, the search fails after February 2096; but a zero result
      does not mean never: a schedule for February 29th fires in 2104, on a Friday. */
  lemma LeapDayBeyondLimit(s: Schedule)
    requires !AllowsYearlyDay(s)
    ensures Found(s, LAST_LEAP_DAY_PASSED).None?
    ensures forall x | Valid(x) && x.date == NEXT_LEAP_DAY ::
              Matches(s, x) <==>
                BitSet(s.dom, 29) && BitSet(s.month, 2) && BitSet(s.dow, 5)
                && BitSet(s.hour, x.hour) && BitSet(s.minute, x.minute) && BitSet(s.second, x.second)
  {
    var after := LAST_LEAP_DAY_PASSED;
    assert Earliest(after) == Civil(Date(2096, 3, 1), 0, 0, 1);
    assert Limit(after) == Civil(Date(2100, 3, 1), 0, 0, 1);
    NoYearlyDayNoMatch(s);
    ScanFinds(Matcher(s), Earliest(after), Limit(after));
    LeapDayIsFriday();
    hide Weekday, BitSet;
  }
}
