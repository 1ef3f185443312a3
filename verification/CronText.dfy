/**
 What the text of a cron field means: parts such as `*`, `5`, `1-5`, `*` `/15` or `10-40/10`, joined with
 commas. The meaning is given for the parts as they are written, without the parser.
 */
module CronText {
  import opened Wrappers
  import opened Text
  import opened Bits
  import opened Calendar
  import CivilSearch
  import opened CronProgression
  import opened CronParser
  import opened CronSchedule

  datatype Extent = Star | Single(value: nat) | Span(from: nat, to: nat)

  datatype Part = Part(extent: Extent, step: Option<nat>)

  // ---------------------------------------------------------------- how parts are written

  function WrittenExtent(e: Extent): string {
    match e
    case Star => "*"
    case Single(a) => Itoa(a)
    case Span(a, b) => Itoa(a) + "-" + Itoa(b)
  }

  function Written(p: Part): string {
    WrittenExtent(p.extent) + if p.step.Some? then "/" + Itoa(p.step.value) else ""
  }

  function Texts(parts: seq<Part>): seq<string> {
    seq(|parts|, (k: nat) requires k < |parts| => Written(parts[k]))
  }

  function WrittenField(parts: seq<Part>): string {
    Join(Texts(parts), ',')
  }

  /** The numbers fit 64 bits, and two steps do not come round to a value of the field. */
  predicate Moderate(p: Part) {
    && (p.step.Some? ==> p.step.value <= MAX_INT - WIDTH)
    && match p.extent
       case Star => true
       case Single(a) => a <= MAX_INT
       case Span(a, b) => a <= MAX_INT && b <= MAX_INT
  }

  // ---------------------------------------------------------------- what parts mean

  predicate Sensible(p: Part, min: int, max: int) {
    && p.step != Some(0)
    && match p.extent
       case Star => true
       case Single(a) => min <= a <= max
       case Span(a, b) => min <= a <= b <= max
  }

  predicate Every(step: Option<nat>, distance: int) {
    step.Some? && step.value > 0 ==> distance % step.value == 0
  }

  /** A single value with a step runs to the greatest value of the field. */
  predicate Means(p: Part, min: int, max: int, v: int) {
    match p.extent
    case Star => min <= v <= max && Every(p.step, v - min)
    case Single(a) => if p.step.None? then v == a else a <= v <= max && Every(p.step, v - a)
    case Span(a, b) => a <= v <= b && Every(p.step, v - a)
  }

  // ---------------------------------------------------------------- characters

  predicate PartChar(c: char) {
    IsDigit(c) || c in {'*', '-', '/'}
  }

  lemma WrittenChars(p: Part)
    ensures Written(p) != [] && forall c | c in Written(p) :: PartChar(c)
    ensures '/' !in WrittenExtent(p.extent) && WrittenExtent(p.extent) != ""
  {}

  lemma NothingToTrim(s: string)
    requires s != [] && forall c | c in s :: PartChar(c)
    ensures TrimSpace(s) == s && ',' !in s
  {
    assert s[0] in s && s[|s| - 1] in s;
  }

  // ---------------------------------------------------------------- one part

  lemma DigitsAreNoOther(n: nat)
    ensures Itoa(n) != "*" && '-' !in Itoa(n) && '/' !in Itoa(n)
  {
    assert Itoa(n)[0] in Itoa(n);
  }

  lemma ExtentParses(e: Extent, min: int, max: int)
    requires Moderate(Part(e, None)) && min <= max
    ensures ParseRange(WrittenExtent(e), min, max) ==
            if !Sensible(Part(e, None), min, max) then Failure(OutsideRange)
            else match e
              case Star => Success((min, max))
              case Single(a) => Success((a, a))
              case Span(a, b) => Success((a, b))
  {
    match e
    case Star =>
    case Single(a) =>
      AtoiOfItoa(a);
      DigitsAreNoOther(a);
      FindsNone(Itoa(a), '-');
      hide Itoa, Atoi;
    case Span(a, b) =>
      AtoiOfItoa(a);
      AtoiOfItoa(b);
      DigitsAreNoOther(a);
      FindsSeparator(Itoa(a), '-', Itoa(b));
      var text := Itoa(a) + ['-'] + Itoa(b);
      assert text == WrittenExtent(e) && text[|Itoa(a)|] == '-';
      hide Itoa, Atoi;
  }

  lemma DashOnlyInSpan(e: Extent)
    ensures '-' in WrittenExtent(e) <==> e.Span?
    ensures WrittenExtent(e) == "*" <==> e.Star?
  {
    match e
    case Star =>
    case Single(a) => DigitsAreNoOther(a);
    case Span(a, b) =>
      assert (Itoa(a) + "-" + Itoa(b))[|Itoa(a)|] == '-';
      assert |Itoa(a) + "-" + Itoa(b)| > 1;
  }

  /** The progression that a part is read as. */
  function ReadAs(p: Part, min: nat, max: nat): Range {
    var step := if p.step.Some? then p.step.value else 1;
    match p.extent
    case Star => Range(min, max, step)
    case Single(a) => Range(a, if p.step.Some? then max else a, step)
    case Span(a, b) => Range(a, b, step)
  }

  lemma PlainPartParses(p: Part, min: nat, max: nat)
    requires Moderate(p) && min <= max && p.step.None?
    ensures ParsePart(Written(p), min, max) ==
            if Sensible(p, min, max) then Success(ReadAs(p, min, max)) else Failure(OutsideRange)
  {
    var text := WrittenExtent(p.extent);
    ExtentParses(p.extent, min, max);
    WrittenChars(p);
    assert Written(p) == text;
    FindsNone(text, '/');
    hide ParseRange, Itoa, Atoi, WrittenExtent;
  }

  lemma SteppedPartParses(p: Part, min: nat, max: nat)
    requires Moderate(p) && min <= max && p.step.Some?
    ensures ParsePart(Written(p), min, max) ==
            if p.step == Some(0) then Failure(InvalidStep)
            else if Sensible(p, min, max) then Success(ReadAs(p, min, max))
            else Failure(OutsideRange)
  {
    var text, step := WrittenExtent(p.extent), Itoa(p.step.value);
    ExtentParses(p.extent, min, max);
    WrittenChars(p);
    AtoiOfItoa(p.step.value);
    FindsSeparator(text, '/', step);
    assert Written(p) == text + ['/'] + step;
    DashOnlyInSpan(p.extent);
    hide ParseRange, Itoa, Atoi, WrittenExtent, Find;
  }

  lemma ReadAsMeans(p: Part, min: nat, max: nat, v: int)
    requires Moderate(p) && min <= max < WIDTH && Sensible(p, min, max)
    ensures ReadAs(p, min, max).Lists(v) <==> Means(p, min, max, v)
  {}

  /** A step alone counts from the least value of the field. */
  lemma StepAlone(step: nat, min: nat, max: nat)
    requires 0 < step <= MAX_INT && min <= max
    ensures ParsePart("/" + Itoa(step), min, max) == Success(Range(min, max, step))
  {
    AtoiOfItoa(step);
    FindsSeparator("", '/', Itoa(step));
    assert "" + ['/'] + Itoa(step) == "/" + Itoa(step);
    hide Itoa, Atoi;
  }

  // ---------------------------------------------------------------- whole fields

  lemma FieldSplits(parts: seq<Part>)
    requires parts != []
    ensures Parts(WrittenField(parts)) == Texts(parts)
  {
    forall text | text in Texts(parts)
      ensures ',' !in text
    {
      var k :| 0 <= k < |parts| && Written(parts[k]) == text;
      WrittenChars(parts[k]);
      NothingToTrim(text);
    }
    SplitsJoined(Texts(parts), ',');
  }

  /** How a part is read that makes sense, and why another is refused. */
  function Reading(p: Part, min: nat, max: nat): Result<Range, FieldError> {
    if p.step == Some(0) then Failure(InvalidStep)
    else if Sensible(p, min, max) then Success(ReadAs(p, min, max))
    else Failure(OutsideRange)
  }

  lemma PartIsRead(parts: seq<Part>, min: nat, max: nat, k: nat)
    requires k < |parts| && Moderate(parts[k]) && min <= max
    ensures Counts(WrittenField(parts), k)
    ensures PartAt(WrittenField(parts), min, max, k).Success? <==> Sensible(parts[k], min, max)
    ensures match Reading(parts[k], min, max)
            case Success(r) => PartAt(WrittenField(parts), min, max, k) == Success(r)
            case Failure(e) => PartAt(WrittenField(parts), min, max, k) == Failure(e)
  {
    FieldSplits(parts);
    WrittenChars(parts[k]);
    NothingToTrim(Written(parts[k]));
    if parts[k].step.Some? {
      SteppedPartParses(parts[k], min, max);
    } else {
      PlainPartParses(parts[k], min, max);
    }
    hide Written, TrimSpace, ParsePart;
  }

  /** Some part means the value. */
  predicate FieldMeans(parts: seq<Part>, min: nat, max: nat, v: int) {
    exists k :: 0 <= k < |parts| && Means(parts[k], min, max, v)
  }

  predicate AllSensible(parts: seq<Part>, min: nat, max: nat) {
    forall k | 0 <= k < |parts| :: Sensible(parts[k], min, max)
  }

  lemma PartSelects(parts: seq<Part>, min: nat, max: nat, k: nat, v: nat)
    requires k < |parts| && Moderate(parts[k]) && min <= max < WIDTH && v < WIDTH && Sensible(parts[k], min, max)
    ensures var r := PartAt(WrittenField(parts), min, max, k);
      r.Success? && (r.value.Selects(v) <==> Means(parts[k], min, max, v))
  {
    PartIsRead(parts, min, max, k);
    ReadAsMeans(parts[k], min, max, v);
    PartSelectsListed(WrittenField(parts), min, max, k, v);
    hide PartAt, Means, Range.Selects, Range.Lists;
  }

  /** A written field parses exactly if every part is sensible, and selects what some part means. */
  lemma FieldIsUnderstood(parts: seq<Part>, min: nat, max: nat)
    requires parts != [] && min <= max < WIDTH && forall k | 0 <= k < |parts| :: Moderate(parts[k])
    ensures WellFormed(WrittenField(parts), min, max) <==> AllSensible(parts, min, max)
    ensures AllSensible(parts, min, max) ==>
              forall v: nat | v < WIDTH ::
                Selected(WrittenField(parts), min, max, v) <==> FieldMeans(parts, min, max, v)
  {
    FieldSplits(parts);
    var field := WrittenField(parts);
    hide WrittenField, PartAt, Counts, Means, Moderate, Sensible;
    forall k | 0 <= k < |parts|
      ensures Counts(field, k) && (PartAt(field, min, max, k).Success? <==> Sensible(parts[k], min, max))
    {
      PartIsRead(parts, min, max, k);
    }
    if AllSensible(parts, min, max) {
      forall v: nat | v < WIDTH
        ensures Selected(field, min, max, v) <==> FieldMeans(parts, min, max, v)
      {
        forall k: nat | k < |parts|
          ensures PartAt(field, min, max, k).Success?
          ensures PartAt(field, min, max, k).value.Selects(v) <==> Means(parts[k], min, max, v)
        {
          PartSelects(parts, min, max, k, v);
        }
        hide Range.Selects;
      }
    }
  }

  /** A step of zero, or else values outside the field or in the wrong order. */
  function Refusal(p: Part): FieldError {
    if p.step == Some(0) then InvalidStep else OutsideRange
  }

  lemma PartRefused(parts: seq<Part>, min: nat, max: nat, k: nat)
    requires k < |parts| && Moderate(parts[k]) && min <= max
    ensures Counts(WrittenField(parts), k)
    ensures var r := PartAt(WrittenField(parts), min, max, k);
      if Sensible(parts[k], min, max) then r.Success? else r == Failure(Refusal(parts[k]))
  {
    PartIsRead(parts, min, max, k);
  }

  /** The reported reason is that of the first part that is not sensible. */
  lemma FirstRefusal(parts: seq<Part>, min: nat, max: nat, reason: FieldError) returns (k: nat)
    requires parts != [] && min <= max < WIDTH && forall k | 0 <= k < |parts| :: Moderate(parts[k])
    requires FieldFails(WrittenField(parts), min, max, reason) && !AllSensible(parts, min, max)
    ensures k < |parts| && !Sensible(parts[k], min, max) && reason == Refusal(parts[k])
    ensures forall j | 0 <= j < k :: Sensible(parts[j], min, max)
  {
    FieldSplits(parts);
    var field := WrittenField(parts);
    PartRefused(parts, min, max, 0);
    hide WrittenField, PartAt, Counts, Moderate, Sensible, Refusal, Reading;
    assert FirstBadPart(field, min, max, reason);
    k :| k < |Parts(field)| && Counts(field, k) && PartAt(field, min, max, k) == Failure(reason)
      && forall j: nat | j < k && Counts(field, j) :: PartAt(field, min, max, j).Success?;
    PartRefused(parts, min, max, k);
    forall j | 0 <= j < k
      ensures Sensible(parts[j], min, max)
    {
      PartRefused(parts, min, max, j);
    }
  }
  // ---------------------------------------------------------------- texts that are no parts

  /** What is refused for a text that is not a number, or a step that is not positive. */
  lemma MalformedPart(a: string, b: string, min: int, max: int)
    requires '/' !in a && '/' !in b && '-' !in a && Atoi(a).None?
    ensures a != "*" && a != "" ==> ParsePart(a, min, max) == Failure(InvalidValue)
    ensures ParsePart(a + "-" + b, min, max) == Failure(InvalidStart)
  {
    FindsNone(a, '/');
    FindsNone(a, '-');
    FindsNone(a + "-" + b, '/');
    FindsSeparator(a, '-', b);
    var text := a + ['-'] + b;
    assert text == a + "-" + b && text != "*";
    hide Atoi;
  }

  lemma MalformedEnd(a: string, b: string, min: int, max: int)
    requires '/' !in a && '/' !in b && '-' !in a && Atoi(a).Some? && Atoi(b).None?
    ensures ParsePart(a + "-" + b, min, max) == Failure(InvalidEnd)
  {
    FindsNone(a + "-" + b, '/');
    FindsSeparator(a, '-', b);
    var text := a + ['-'] + b;
    assert text == a + "-" + b && text != "*";
    hide Atoi;
  }

  lemma MalformedStep(a: string, b: string, min: int, max: int)
    requires '/' !in a && (Atoi(b).None? || Atoi(b).value <= 0)
    ensures ParsePart(a + "/" + b, min, max) == Failure(InvalidStep)
  {
    FindsSeparator(a, '/', b);
    assert a + ['/'] + b == a + "/" + b;
    hide Atoi;
  }

  // ---------------------------------------------------------------- whole expressions

  /** Five fields, or six with the seconds first. */
  datatype Expression = Expression(
    second: Option<seq<Part>>, minute: seq<Part>, hour: seq<Part>, day: seq<Part>, month: seq<Part>,
    weekday: seq<Part>)

  function FieldTexts(e: Expression): seq<string> {
    (if e.second.Some? then [WrittenField(e.second.value)] else [])
      + [WrittenField(e.minute), WrittenField(e.hour), WrittenField(e.day), WrittenField(e.month),
         WrittenField(e.weekday)]
  }

  predicate ProperField(parts: seq<Part>) {
    parts != [] && forall k | 0 <= k < |parts| :: Moderate(parts[k])
  }

  predicate GoodField(parts: seq<Part>, min: nat, max: nat) {
    ProperField(parts) && AllSensible(parts, min, max)
  }

  /** Every field has parts, whose numbers are moderate. */
  predicate ProperExpression(e: Expression) {
    && (e.second.Some? ==> ProperField(e.second.value))
    && ProperField(e.minute) && ProperField(e.hour) && ProperField(e.day) && ProperField(e.month)
    && ProperField(e.weekday)
  }

  /** They are sensible, too. */
  predicate GoodExpression(e: Expression) {
    && (e.second.Some? ==> GoodField(e.second.value, 0, 59))
    && GoodField(e.minute, 0, 59) && GoodField(e.hour, 0, 23) && GoodField(e.day, 1, 31)
    && GoodField(e.month, 1, 12) && GoodField(e.weekday, 0, 7)
  }

  /** What an expression says of an instant: without a field for them, only second 0; Sunday is 0 or 7. */
  predicate ExpressionMeans(e: Expression, c: Civil) {
    && (if e.second.Some? then FieldMeans(e.second.value, 0, 59, c.second) else c.second == 0)
    && FieldMeans(e.minute, 0, 59, c.minute) && FieldMeans(e.hour, 0, 23, c.hour)
    && FieldMeans(e.day, 1, 31, c.date.day) && FieldMeans(e.month, 1, 12, c.date.month)
    && (FieldMeans(e.weekday, 0, 7, Weekday(c.date))
        || (Weekday(c.date) == 0 && FieldMeans(e.weekday, 0, 7, 7)))
  }

  lemma GoodFieldSelects(parts: seq<Part>, min: nat, max: nat, v: nat)
    requires GoodField(parts, min, max) && min <= max < WIDTH && v < WIDTH
    ensures WellFormed(WrittenField(parts), min, max)
    ensures Selected(WrittenField(parts), min, max, v) <==> FieldMeans(parts, min, max, v)
  {
    FieldIsUnderstood(parts, min, max);
    hide Selected, FieldMeans, WellFormed;
  }

  const ZERO: seq<Part> := [Part(Single(0), None)]

  lemma ZeroIsWritten()
    ensures WrittenField(ZERO) == "0" && ProperField(ZERO) && GoodField(ZERO, 0, 59)
    ensures forall v :: FieldMeans(ZERO, 0, 59, v) <==> v == 0
  {
    assert Itoa(0) == "0";
    assert Written(ZERO[0]) == "0";
    assert Texts(ZERO) == ["0"];
    assert Means(ZERO[0], 0, 59, 0);
  }

  /** The second field that is written, or else added. */
  function Seconds(e: Expression): seq<Part> {
    if e.second.Some? then e.second.value else ZERO
  }

  lemma TextsOfSix(e: Expression)
    ensures SixFields(FieldTexts(e)) ==
            [WrittenField(Seconds(e)), WrittenField(e.minute), WrittenField(e.hour), WrittenField(e.day),
             WrittenField(e.month), WrittenField(e.weekday)]
  {
    ZeroIsWritten();
    hide WrittenField;
  }

  lemma FieldParsesExactly(parts: seq<Part>, min: nat, max: nat)
    requires ProperField(parts) && min <= max < WIDTH
    ensures WellFormed(WrittenField(parts), min, max) <==> GoodField(parts, min, max)
  {
    FieldIsUnderstood(parts, min, max);
    hide WellFormed, WrittenField, AllSensible;
  }

  /** An expression parses exactly if its parts are sensible. */
  lemma ExpressionParsesExactly(e: Expression)
    requires ProperExpression(e)
    ensures AllWellFormed(SixFields(FieldTexts(e))) <==> GoodExpression(e)
  {
    hide WrittenField, WellFormed, GoodField, SixFields, FieldTexts, FieldMeans, ProperField;
    TextsOfSix(e);
    ZeroIsWritten();
    FieldParsesExactly(Seconds(e), 0, 59);
    FieldParsesExactly(e.minute, 0, 59);
    FieldParsesExactly(e.hour, 0, 23);
    FieldParsesExactly(e.day, 1, 31);
    FieldParsesExactly(e.month, 1, 12);
    FieldParsesExactly(e.weekday, 0, 7);
  }

  lemma TimeIsMeant(s: Schedule, e: Expression, c: Civil)
    requires GoodExpression(e) && ExactSchedule(s, SixFields(FieldTexts(e))) && Valid(c)
    ensures BitSet(s.second, c.second) <==>
              if e.second.Some? then FieldMeans(e.second.value, 0, 59, c.second) else c.second == 0
    ensures BitSet(s.minute, c.minute) <==> FieldMeans(e.minute, 0, 59, c.minute)
    ensures BitSet(s.hour, c.hour) <==> FieldMeans(e.hour, 0, 23, c.hour)
  {
    hide WrittenField, Selected, FieldMeans, BitSet, GoodField, ExactWeekdays, FieldTexts, SixFields, WellFormed;
    TextsOfSix(e);
    ZeroIsWritten();
    GoodFieldSelects(Seconds(e), 0, 59, c.second);
    GoodFieldSelects(e.minute, 0, 59, c.minute);
    GoodFieldSelects(e.hour, 0, 23, c.hour);
  }

  lemma DayIsMeant(s: Schedule, e: Expression, d: Date)
    requires GoodExpression(e) && ExactSchedule(s, SixFields(FieldTexts(e))) && ValidDate(d)
    ensures BitSet(s.dom, d.day) <==> FieldMeans(e.day, 1, 31, d.day)
    ensures BitSet(s.month, d.month) <==> FieldMeans(e.month, 1, 12, d.month)
    ensures BitSet(s.dow, Weekday(d)) <==>
              FieldMeans(e.weekday, 0, 7, Weekday(d)) || (Weekday(d) == 0 && FieldMeans(e.weekday, 0, 7, 7))
  {
    assert 0 <= Weekday(d) <= 6;
    hide WrittenField, Selected, FieldMeans, BitSet, GoodField, FieldTexts, SixFields, WellFormed, Weekday;
    TextsOfSix(e);
    GoodFieldSelects(e.day, 1, 31, d.day);
    GoodFieldSelects(e.month, 1, 12, d.month);
    GoodFieldSelects(e.weekday, 0, 7, Weekday(d));
    GoodFieldSelects(e.weekday, 0, 7, 7);
  }

  /** A schedule parsed from a good expression matches exactly the instants that the expression means. */
  lemma MatchesWhatIsMeant(s: Schedule, e: Expression, c: Civil)
    requires GoodExpression(e) && ExactSchedule(s, SixFields(FieldTexts(e))) && Valid(c)
    ensures Matches(s, c) <==> ExpressionMeans(e, c)
  {
    TimeIsMeant(s, e, c);
    DayIsMeant(s, e, c.date);
    hide FieldMeans, BitSet, GoodExpression, ExactSchedule, FieldTexts, Weekday;
  }

  /** The same time of the same day, four years on; for February 29th it may be March 1st. */
  function FourYearsOn(c: Civil): Civil {
    var year := c.date.year + 4;
    if c.date.month == 2 && c.date.day == 29 && !Leap(year) then c.(date := Date(year, 3, 1))
    else c.(date := c.date.(year := year))
  }

  /** The next instant of a good expression is the first later one that it means. There is one exactly if
      it means one within four years from the next second on. */
  lemma NextIsMeant(s: Schedule, e: Expression, after: Time)
    requires GoodExpression(e) && ExactSchedule(s, SixFields(FieldTexts(e))) && Valid(after.civil)
    ensures match Found(s, after)
            case Some(next) =>
              && Valid(next) && Less(after.civil, next) && ExpressionMeans(e, next)
              && Less(next, FourYearsOn(NextSecond(after.civil)))
              && forall x | Valid(x) && Less(after.civil, x) && Less(x, next) :: !ExpressionMeans(e, x)
            case None =>
              forall x | Valid(x) && Less(after.civil, x) && Less(x, FourYearsOn(NextSecond(after.civil))) ::
                !ExpressionMeans(e, x)
  {
    hide Matches, ExpressionMeans, ExactSchedule, GoodExpression, Less, FourYearsOn, Earliest, Limit, NextSecond;
    SearchWindow(after);
    CivilSearch.ScanIsLeast(Matcher(s), Earliest(after), Limit(after));
    forall x | Valid(x)
      ensures Matches(s, x) <==> ExpressionMeans(e, x)
      ensures Less(after.civil, x) <==> !Less(x, Earliest(after))
      ensures Less(x, FourYearsOn(NextSecond(after.civil))) <==> Less(x, Limit(after))
    {
      MatchesWhatIsMeant(s, e, x);
      InWindow(after, x);
    }
    hide Valid;
  }

  lemma InWindow(after: Time, x: Civil)
    requires Valid(after.civil) && Valid(x)
    ensures Less(after.civil, x) <==> !Less(x, Earliest(after))
    ensures Less(x, FourYearsOn(NextSecond(after.civil))) <==> Less(x, Limit(after))
  {
    hide Less, FourYearsOn, NextSecond, AddYears;
    SearchWindow(after);
    LaterMeansNext(after.civil, x);
    BeforeLimit(NextSecond(after.civil), x);
  }

  lemma LaterMeansNext(c: Civil, x: Civil)
    requires Valid(c) && Valid(x)
    ensures Less(c, x) <==> !Less(x, NextSecond(c))
  {
    NextSecondCounts(c);
    LessIsUnixLess(c, x);
    LessIsUnixLess(x, NextSecond(c));
    hide Less, NextSecond, Unix;
  }

  lemma BeforeLimit(from: Civil, x: Civil)
    requires Valid(from) && Valid(x)
    ensures Less(x, FourYearsOn(from)) <==> Less(x, AddYears(from, LIMIT_YEARS))
  {}
}
