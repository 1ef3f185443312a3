/** Parsing cron fields into bit masks. */
module CronParser {
  import opened Wrappers
  import opened Text
  import opened Bits
  import Calendar
  import opened CronFires
  import opened CronProgression
  import opened CronSchedule

  datatype FieldError =
    | InvalidStep | InvalidStart | InvalidEnd | InvalidValue | OutsideRange | EmptyField

  datatype ParseError = WrongFieldCount(count: nat) | BadField(index: nat, reason: FieldError)

  function ParseRange(part: string, min: int, max: int): (r: Result<(int, int), FieldError>)
    ensures r.Success? && min <= max ==> min <= r.value.0 <= r.value.1 <= max
  {
    if part == "*" || part == "" then Success((min, max))
    else
      var dash := Find(part, '-');
      if dash < |part| then
        match Atoi(part[..dash])
        case None => Failure(InvalidStart)
        case Some(start) =>
          match Atoi(part[dash + 1..])
          case None => Failure(InvalidEnd)
          case Some(end) =>
            if start < min || end > max || start > end then Failure(OutsideRange)
            else Success((start, end))
      else
        match Atoi(part)
        case None => Failure(InvalidValue)
        case Some(value) =>
          if value < min || value > max then Failure(OutsideRange) else Success((value, value))
  }

  /** What one comma part stands for. */
  function ParsePart(part: string, min: int, max: int): (r: Result<Progression, FieldError>)
    ensures r.Success? && min <= max ==>
      min <= r.value.start <= r.value.end <= max
  {
    var slash := Find(part, '/');
    if slash < |part| then
      match Atoi(part[slash + 1..])
      case None => Failure(InvalidStep)
      case Some(step) =>
        if step <= 0 then Failure(InvalidStep)
        else
          var range := part[..slash];
          match ParseRange(range, min, max)
          case Failure(e) => Failure(e)
          case Success((start, end)) =>
            // N/step runs to max
            Success(Range(start, if range != "*" && '-' !in range then max else end, step))
    else
      match ParseRange(part, min, max)
      case Failure(e) => Failure(e)
      case Success((start, end)) => Success(Range(start, end, 1))
  }

  function Parts(field: string): seq<string> {
    Split(field, ',')
  }

  /** Comma part `k` is not blank. */
  predicate Counts(field: string, k: nat) {
    k < |Parts(field)| && TrimSpace(Parts(field)[k]) != ""
  }

  function PartAt(field: string, min: int, max: int, k: nat): Result<Progression, FieldError> {
    if k < |Parts(field)| then ParsePart(TrimSpace(Parts(field)[k]), min, max) else Failure(EmptyField)
  }

  ghost predicate SelectedBefore(field: string, min: int, max: int, n: nat, value: int) {
    exists k: nat :: k < n && Counts(field, k)
      && PartAt(field, min, max, k).Success? && PartAt(field, min, max, k).value.Selects(value)
  }

  /** Some comma part selects the value. */
  ghost predicate Selected(field: string, min: int, max: int, value: int) {
    SelectedBefore(field, min, max, |Parts(field)|, value)
  }

  /** Every comma part that is not blank makes sense, and there is one. */
  ghost predicate WellFormed(field: string, min: int, max: int) {
    && (forall k: nat | k < |Parts(field)| && Counts(field, k) :: PartAt(field, min, max, k).Success?)
    && (exists k: nat :: k < |Parts(field)| && Counts(field, k))
  }

  ghost predicate NoneCountsBefore(field: string, n: nat) {
    forall k: nat | k < n :: !Counts(field, k)
  }

  /** The first comma part that is not blank and makes no sense gives the error. */
  ghost predicate FirstBadPart(field: string, min: int, max: int, reason: FieldError) {
    exists k: nat :: k < |Parts(field)| && Counts(field, k)
      && PartAt(field, min, max, k) == Failure(reason)
      && forall j: nat | j < k && Counts(field, j) :: PartAt(field, min, max, j).Success?
  }

  /** Why a field fails: its first bad part, or that it has no part. */
  ghost predicate FieldFails(field: string, min: int, max: int, reason: FieldError) {
    || FirstBadPart(field, min, max, reason)
    || (reason == EmptyField && NoneCountsBefore(field, |Parts(field)|))
  }

  /** The mask has exactly the bits that the field's text selects. */
  ghost predicate Exact(mask: bv64, field: string, min: int, max: int) {
    forall v: nat | v < WIDTH :: BitSet(mask, v) <==> Selected(field, min, max, v)
  }

  lemma SelectedBeforeNext(field: string, min: int, max: int, n: nat, value: int)
    requires n < |Parts(field)|
    ensures SelectedBefore(field, min, max, n + 1, value) <==>
      || SelectedBefore(field, min, max, n, value)
      || (Counts(field, n) && PartAt(field, min, max, n).Success?
          && PartAt(field, min, max, n).value.Selects(value))
  {
  }

  /** The mask has exactly the bits that the first `n` parts select, and these make sense. */
  ghost predicate ExactBefore(mask: bv64, field: string, min: int, max: int, n: nat) {
    && (forall k: nat | k < n && Counts(field, k) :: PartAt(field, min, max, k).Success?)
    && (forall v: nat | v < WIDTH :: BitSet(mask, v) <==> SelectedBefore(field, min, max, n, v))
    && (NoneCountsBefore(field, n) ==> mask == 0)
  }

  lemma BlankPartAddsNothing(mask: bv64, field: string, min: int, max: int, n: nat)
    requires n < |Parts(field)| && ExactBefore(mask, field, min, max, n) && !Counts(field, n)
    ensures ExactBefore(mask, field, min, max, n + 1)
  {
    forall v: nat | v < WIDTH
      ensures BitSet(mask, v) <==> SelectedBefore(field, min, max, n + 1, v)
    {
      SelectedBeforeNext(field, min, max, n, v);
    }
  }

  lemma PartAddsItsValues(mask: bv64, more: bv64, field: string, min: int, max: int, n: nat)
    requires n < |Parts(field)| && ExactBefore(mask, field, min, max, n)
    requires Counts(field, n) && PartAt(field, min, max, n).Success?
    requires forall v: nat | v < WIDTH ::
      BitSet(more, v) <==> BitSet(mask, v) || PartAt(field, min, max, n).value.Selects(v)
    ensures ExactBefore(more, field, min, max, n + 1)
  {
    forall v: nat | v < WIDTH
      ensures BitSet(more, v) <==> SelectedBefore(field, min, max, n + 1, v)
    {
      SelectedBeforeNext(field, min, max, n, v);
    }
  }

  /** A part that counts selects its first value, so the mask is empty only without such a part. */
  lemma PartSetsBit(mask: bv64, field: string, min: nat, max: nat, k: nat)
    requires min <= max < WIDTH && ExactBefore(mask, field, min, max, |Parts(field)|)
    requires k < |Parts(field)| && Counts(field, k)
    ensures mask != 0 && Allows(mask, min, max)
  {
    var start := PartAt(field, min, max, k).value.start;
    assert PartAt(field, min, max, k).value.Selects(start);
    assert min <= start <= max && BitSet(mask, start);
  }

  method ParseField(field: string, min: nat, max: nat) returns (r: Result<bv64, FieldError>)
    requires min <= max < WIDTH
    ensures r.Success? <==> WellFormed(field, min, max)
    ensures r.Success? ==> Exact(r.value, field, min, max) && Allows(r.value, min, max)
    ensures r.Failure? ==> FieldFails(field, min, max, r.error)
  {
    var parts := Parts(field);
    var mask: bv64 := 0;
    for n := 0 to |parts|
      invariant ExactBefore(mask, field, min, max, n)
    {
      var part := TrimSpace(parts[n]);
      if part == "" {
        BlankPartAddsNothing(mask, field, min, max, n);
        continue;
      }
      var progression := ParsePart(part, min, max);
      if progression.Failure? {
        assert Counts(field, n) && PartAt(field, min, max, n) == Failure(progression.error);
        return Failure(progression.error);
      }
      ghost var before := mask;
      mask := AddProgression(mask, progression.value);
      PartAddsItsValues(before, mask, field, min, max, n);
    }
    if k: nat :| k < |parts| && Counts(field, k) {
      PartSetsBit(mask, field, min, max, k);
    }
    return if mask == 0 then Failure(EmptyField) else Success(mask);
  }

  // ---------------------------------------------------------------- steps that wrap

  /** Some comma part lists the value: from its start by its step up to its end. */
  ghost predicate Listed(field: string, min: int, max: int, value: int) {
    exists k: nat :: k < |Parts(field)| && Counts(field, k)
      && PartAt(field, min, max, k).Success? && PartAt(field, min, max, k).value.Lists(value)
  }

  /** Two steps from the start of the part stay below 2 to the 64th. */
  ghost predicate StepFits(field: string, min: int, max: int, k: nat) {
    PartAt(field, min, max, k).Success? ==>
      var p := PartAt(field, min, max, k).value; p.start + 2 * p.step < TWO_64
  }

  lemma PartSelectsListed(field: string, min: nat, max: nat, k: nat, value: nat)
    requires min <= max < WIDTH && value < WIDTH && PartAt(field, min, max, k).Success? && StepFits(field, min, max, k)
    ensures PartAt(field, min, max, k).value.Selects(value) <==> PartAt(field, min, max, k).value.Lists(value)
  {
    ListsExactly(PartAt(field, min, max, k).value);
  }

  /** Without a huge step, a field selects exactly the values that its parts list. */
  lemma SelectedIsListed(field: string, min: nat, max: nat, value: nat)
    requires min <= max < WIDTH && value < WIDTH
    requires forall k: nat | k < |Parts(field)| && Counts(field, k) :: StepFits(field, min, max, k)
    ensures Selected(field, min, max, value) <==> Listed(field, min, max, value)
  {
    forall k: nat | k < |Parts(field)| && Counts(field, k) && PartAt(field, min, max, k).Success?
      ensures PartAt(field, min, max, k).value.Selects(value) <==> PartAt(field, min, max, k).value.Lists(value)
    {
      PartSelectsListed(field, min, max, k, value);
    }
    hide PartAt, Counts, Range.Selects, Range.Lists;
  }

  lemma StepFieldParses(field: string, step: nat)
    requires 0 < step <= MAX_INT && field == "2/" + Itoa(step)
    ensures Parts(field) == [field] && Counts(field, 0)
    ensures PartAt(field, 0, 59, 0) == Success(Range(2, 59, step))
  {
    var text := Itoa(step);
    AtoiOfItoa(step);
    hide Itoa, Atoi;
    assert field[2..] == text && field[..1] == "2" && ',' !in field;
    assert Find(field, ',') == |field|;
    assert IsDigit(field[|field| - 1]);
    assert TrimSpace(field) == field;
    assert Find(field, '/') == 1;
    AtoiOfItoa(2);
    TwoIsWritten();
  }

  lemma TwoIsWritten()
    ensures Itoa(2) == "2"
  {}

  /** The seconds "2/9223372036854775807" list 2 only, and select 0 as well. */
  lemma HugeStepSelectsZero(field: string, step: nat)
    requires step == MAX_INT && field == "2/" + Itoa(step)
    ensures Selected(field, 0, 59, 0) && !Listed(field, 0, 59, 0)
  {
    StepFieldParses(field, step);
    hide Itoa, PartAt, Counts, Range.Selects, Range.Lists;
    LargestStepComesBack(PartAt(field, 0, 59, 0).value);
  }

  // ---------------------------------------------------------------- whole expressions

  function SixFields(fields: seq<string>): seq<string> {
    if |fields| == 5 then ["0"] + fields else fields
  }

  ghost predicate AllWellFormed(f: seq<string>) {
    && |f| == 6
    && WellFormed(f[0], 0, 59) && WellFormed(f[1], 0, 59) && WellFormed(f[2], 0, 23)
    && WellFormed(f[3], 1, 31) && WellFormed(f[4], 1, 12) && WellFormed(f[5], 0, 7)
  }

  /** Sunday may be written 0 or 7, and is kept as 0. */
  ghost predicate ExactWeekdays(mask: bv64, field: string) {
    forall v: nat | v < WIDTH ::
      BitSet(mask, v) <==>
        if v == 0 then Selected(field, 0, 7, 0) || Selected(field, 0, 7, 7)
        else v < 7 && Selected(field, 0, 7, v)
  }

  ghost predicate ExactSchedule(s: Schedule, f: seq<string>) {
    && |f| == 6
    && Exact(s.second, f[0], 0, 59) && Exact(s.minute, f[1], 0, 59) && Exact(s.hour, f[2], 0, 23)
    && Exact(s.dom, f[3], 1, 31) && Exact(s.month, f[4], 1, 12) && ExactWeekdays(s.dow, f[5])
  }

  method FoldSunday(dow: bv64) returns (folded: bv64)
    ensures forall v: nat | v < WIDTH ::
      BitSet(folded, v) <==> if v == 0 then BitSet(dow, 0) || BitSet(dow, 7) else v != 7 && BitSet(dow, v)
  {
    folded := dow;
    var seven, zero := Bit(7), Bit(0);
    if BitSet(folded, 7) {
      OrBit(dow, 0, zero);
      folded := dow | zero;
      ghost var both := folded;
      folded := folded & !seven;
      forall v: nat | v < WIDTH
        ensures BitSet(folded, v) <==> 7 != v && BitSet(both, v)
      {
        AndNotRemoves(both, 7, seven, v);
      }
    }
  }

  lemma FoldedWeekdays(dow: bv64, folded: bv64, field: string)
    requires Exact(dow, field, 0, 7) && Allows(dow, 0, 7)
    requires forall v: nat | v < WIDTH ::
      BitSet(folded, v) <==> if v == 0 then BitSet(dow, 0) || BitSet(dow, 7) else v != 7 && BitSet(dow, v)
    ensures ExactWeekdays(folded, field) && Allows(folded, 0, 6)
  {
    var v: nat :| 0 <= v <= 7 && BitSet(dow, v);
    assert BitSet(folded, if v == 7 then 0 else v);
  }

  method ParseWeekdays(field: string) returns (r: Result<bv64, FieldError>)
    ensures r.Success? <==> WellFormed(field, 0, 7)
    ensures r.Success? ==> ExactWeekdays(r.value, field) && Allows(r.value, 0, 6)
    ensures r.Failure? ==> FieldFails(field, 0, 7, r.error)
  {
    r := ParseField(field, 0, 7);
    if r.Success? {
      var folded := FoldSunday(r.value);
      FoldedWeekdays(r.value, folded, field);
      r := Success(folded);
    }
  }

  /** The least and the greatest value of the six fields. */
  const RANGES: seq<(int, int)> := [(0, 59), (0, 59), (0, 23), (1, 31), (1, 12), (0, 7)]

  ghost predicate WellFormedUpTo(f: seq<string>, n: nat) {
    forall i | 0 <= i < n && i < |f| && i < |RANGES| :: WellFormed(f[i], RANGES[i].0, RANGES[i].1)
  }

  /** The number of fields is wrong, or the reported field is the first bad one, with its reason. */
  ghost predicate Explains(f: seq<string>, error: ParseError) {
    match error
    case WrongFieldCount(count) => |f| != 6 && count == |f|
    case BadField(i, reason) =>
      |f| == 6 && i < 6 && WellFormedUpTo(f, i) && !WellFormed(f[i], RANGES[i].0, RANGES[i].1)
      && FieldFails(f[i], RANGES[i].0, RANGES[i].1, reason)
  }

  method ParseFieldAt(fields: seq<string>, i: nat) returns (r: Result<bv64, ParseError>)
    requires |fields| == 6 && i < 5 && WellFormedUpTo(fields, i)
    ensures r.Success? <==> WellFormed(fields[i], RANGES[i].0, RANGES[i].1)
    ensures r.Success? ==> WellFormedUpTo(fields, i + 1)
    ensures r.Success? ==>
      Exact(r.value, fields[i], RANGES[i].0, RANGES[i].1) && Allows(r.value, RANGES[i].0, RANGES[i].1)
    ensures r.Failure? ==> Explains(fields, r.error)
  {
    var mask := ParseField(fields[i], RANGES[i].0, RANGES[i].1);
    if mask.Failure? {
      return Failure(BadField(i, mask.error));
    }
    return Success(mask.value);
  }

  method ParseFields(texts: seq<string>) returns (r: Result<Schedule, ParseError>)
    ensures r.Success? <==> AllWellFormed(SixFields(texts))
    ensures r.Failure? ==> Explains(SixFields(texts), r.error)
    ensures r.Success? ==> ExactSchedule(r.value, SixFields(texts))
    ensures r.Success? ==>
      TimeFieldsAllow(r.value) && Allows(r.value.dom, 1, 31) && Allows(r.value.dow, 0, 6)
  {
    hide Exact, ExactWeekdays, Allows, WellFormed, FieldFails;
    var fields := SixFields(texts);
    if |fields| != 6 {
      return Failure(WrongFieldCount(|texts|));
    }
    var second := ParseFieldAt(fields, 0);
    if second.Failure? { return Failure(second.error); }
    var minute := ParseFieldAt(fields, 1);
    if minute.Failure? { return Failure(minute.error); }
    var hour := ParseFieldAt(fields, 2);
    if hour.Failure? { return Failure(hour.error); }
    var dom := ParseFieldAt(fields, 3);
    if dom.Failure? { return Failure(dom.error); }
    var month := ParseFieldAt(fields, 4);
    if month.Failure? { return Failure(month.error); }
    var dow := ParseWeekdays(fields[5]);
    if dow.Failure? { return Failure(BadField(5, dow.error)); }
    return Success(Schedule(second.value, minute.value, hour.value, dom.value, month.value, dow.value));
  }

  lemma StarSelectsAll(min: nat, max: nat, value: nat)
    requires min <= value <= max
    ensures Selected("*", min, max, value)
  {
    assert Parts("*") == ["*"];
    assert TrimSpace("*") == "*";
    assert Counts("*", 0) && PartAt("*", min, max, 0) == Success(Range(min, max, 1));
  }

  // ---------------------------------------------------------------- expressions that always fire

  /** The texts of seconds, minutes, hours, days of the month, months and weekdays. */
  type SixTexts = f: seq<string> | |f| == 6 witness ["0", "0", "0", "*", "*", "*"]

  /** The weekday field selects the day; Sunday may be written 0 or 7. */
  ghost predicate SelectsWeekday(field: string, weekday: int) {
    Selected(field, 0, 7, weekday) || (weekday == 0 && Selected(field, 0, 7, 7))
  }

  /** The texts of the three day fields select the day. */
  ghost function TextFits(f: SixTexts): DayProperty {
    d => Calendar.ValidDate(d) && Selected(f[4], 1, 12, d.month) && Selected(f[3], 1, 31, d.day)
         && SelectsWeekday(f[5], Calendar.Weekday(d))
  }

  ghost predicate TextFiresLast(f: SixTexts) {
    Selected(f[2], 0, 23, 23) && Selected(f[1], 0, 59, 59) && Selected(f[0], 0, 59, 59)
  }

  ghost predicate FreeWeekday(f: SixTexts) {
    forall weekday: nat | weekday <= 6 :: SelectsWeekday(f[5], weekday)
  }

  ghost predicate FreeDayOfMonth(f: SixTexts) {
    forall day: nat | 1 <= day <= 31 :: Selected(f[3], 1, 31, day)
  }

  /** A selected day of a selected month that exists in every year. */
  ghost predicate SelectsYearlyDay(f: SixTexts) {
    exists d: Calendar.Date :: IsYearly(d) && Selected(f[4], 1, 12, d.month) && Selected(f[3], 1, 31, d.day)
  }

  /** As texts: what makes every search succeed. */
  ghost predicate TextAlwaysFires(f: SixTexts) {
    FitsThroughCycle(TextFits(f), TextFiresLast(f))
  }

  lemma StarsAreFree(f: SixTexts)
    ensures f[3] == "*" ==> FreeDayOfMonth(f)
    ensures f[5] == "*" ==> FreeWeekday(f)
  {
    forall v: nat | f[3] == "*" && 1 <= v <= 31
      ensures Selected(f[3], 1, 31, v)
    {
      StarSelectsAll(1, 31, v);
    }
    forall v: nat | f[5] == "*" && v <= 6
      ensures Selected(f[5], 0, 7, v)
    {
      StarSelectsAll(0, 7, v);
    }
  }

  lemma WeekdaysAgree(mask: bv64, field: string, weekday: nat)
    requires ExactWeekdays(mask, field) && weekday <= 6
    ensures SelectsWeekday(field, weekday) == BitSet(mask, weekday)
  {
    hide Selected, BitSet;
  }

  lemma TextDayAgrees(s: Schedule, f: SixTexts, d: Calendar.Date)
    requires ExactSchedule(s, f)
    ensures TextFits(f)(d) == DayFits(s)(d)
  {
    hide Selected, BitSet, SelectsWeekday, ExactWeekdays;
    if Calendar.ValidDate(d) {
      WeekdaysAgree(s.dow, f[5], Calendar.Weekday(d));
      hide Calendar.Weekday;
    }
  }

  lemma FreeFieldsAgree(s: Schedule, f: SixTexts)
    requires ExactSchedule(s, f)
    ensures FreeWeekday(f) == AllowsAll(s.dow, 0, 6) && FreeDayOfMonth(f) == AllowsAll(s.dom, 1, 31)
  {
    forall weekday: nat | weekday <= 6
      ensures SelectsWeekday(f[5], weekday) == BitSet(s.dow, weekday)
    {
      WeekdaysAgree(s.dow, f[5], weekday);
    }
    hide Selected, BitSet, SelectsWeekday, ExactWeekdays;
  }

  lemma DaysAndTimesAgree(s: Schedule, f: SixTexts)
    requires ExactSchedule(s, f)
    ensures TextFiresLast(f) == FiresInLastSecond(s) && SelectsYearlyDay(f) == AllowsYearlyDay(s)
  {
    hide Selected, BitSet, ExactWeekdays;
  }

  lemma SameDaysFit(a: DayProperty, b: DayProperty, firesLast: bool)
    requires (forall d :: a(d) == b(d)) && FitsThroughCycle(a, firesLast)
    ensures FitsThroughCycle(b, firesLast)
  {
    forall d | InCycle(d)
      ensures FitsBefore(b, d) && (firesLast || FitsAfter(b, d))
    {
      assert FitsBefore(a, d) && (firesLast || FitsAfter(a, d));
      hide YearsLater;
    }
  }

  /** For every expression, in terms of its texts: the search never fails if and only if a selected day
      comes up in every stretch of four years of a cycle. With a free weekday that is a selected day
      which exists in every year; with a free day of month it is always so. */
  lemma ExpressionFiresExactly(s: Schedule, f: SixTexts)
    requires ExactSchedule(s, f) && TimeFieldsAllow(s) && Allows(s.dow, 0, 6)
    ensures AlwaysFires(s) <==> TextAlwaysFires(f)
    ensures FreeWeekday(f) ==> (AlwaysFires(s) <==> SelectsYearlyDay(f))
    ensures FreeDayOfMonth(f) ==> AlwaysFires(s)
  {
    FreeFieldsAgree(s, f);
    DaysAndTimesAgree(s, f);
    forall d
      ensures TextFits(f)(d) == DayFits(s)(d)
    {
      TextDayAgrees(s, f, d);
    }
    FiresExactly(s);
    hide TextFits, DayFits;
    if TextAlwaysFires(f) {
      SameDaysFit(TextFits(f), DayFits(s), TextFiresLast(f));
    }
    if AlwaysFires(s) {
      SameDaysFit(DayFits(s), TextFits(f), TextFiresLast(f));
    }
    if FreeWeekday(f) {
      FreeWeekdayFiresExactly(s);
    }
    if FreeDayOfMonth(f) {
      FreeDayOfMonthFires(s);
    }
  }

  /** The instant is the one that the scan finds for a schedule with exactly the selected values; there
      is one whatever the time if the expression always fires. */
  method NextOfExpression(texts: seq<string>, after: Time)
    returns (next: Result<Option<Calendar.Civil>, ParseError>)
    requires Calendar.Valid(after.civil)
    ensures next.Success? <==> AllWellFormed(SixFields(texts))
    ensures next.Failure? ==> Explains(SixFields(texts), next.error)
    ensures next.Success? ==> exists s :: ExactSchedule(s, SixFields(texts)) && next.value == Found(s, after)
    ensures next.Success? && TextAlwaysFires(SixFields(texts)) ==> next.value.Some?
    ensures next.Success? && FreeWeekday(SixFields(texts)) && SelectsYearlyDay(SixFields(texts)) ==> next.value.Some?
    ensures next.Success? && FreeDayOfMonth(SixFields(texts)) ==> next.value.Some?
    ensures next.Success? && SixFields(texts)[3] == "*" ==> next.value.Some?
    ensures next.Success? && SixFields(texts)[5] == "*" && SelectsYearlyDay(SixFields(texts)) ==> next.value.Some?
  {
    var parsed := ParseFields(texts);
    if parsed.Failure? {
      return Failure(parsed.error);
    }
    var found := Next(parsed.value, after);
    ExpressionFiresExactly(parsed.value, SixFields(texts));
    StarsAreFree(SixFields(texts));
    return Success(found);
  }
}
