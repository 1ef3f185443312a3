/** The loop that sets the bits of one comma part. Its variable is a 64-bit integer, and a huge step wraps. */
module CronProgression {
  import opened Text
  import opened Bits

  const TWO_64: int := 2 * (MAX_INT + 1)

  /** The sum of two of Go's integers, of 64 bits. */
  function Sum(a: int, b: int): int {
    var sum := a + b;
    if sum > MAX_INT then sum - TWO_64 else if sum < -MAX_INT - 1 then sum + TWO_64 else sum
  }

  /** 1 << uint(value): a negative value shifts everything out. */
  function ShiftedBit(value: int): bv64 {
    if value < 0 then 0 else Bit(value)
  }

  datatype Range = Range(start: int, end: int, step: int) {
    /** start, start + step, ... up to end */
    predicate Lists(value: int)
      requires step > 0
    {
      start <= value <= end && (value - start) % step == 0
    }

    /** The first addition leaves 64 bits. */
    predicate Wraps() {
      start + step > MAX_INT
    }

    /** Two steps that wrap go back by so much. */
    function Back(): int {
      TWO_64 - 2 * step
    }

    /** What the loop sets: a step that wraps also counts back from the start. */
    predicate Selects(value: int)
      requires 0 < step <= MAX_INT
    {
      Lists(value) || (Wraps() && 0 <= value <= start && (start - value) % Back() == 0)
    }
  }

  /** A parsed part: the step is a positive number of 64 bits. */
  type Progression = p: Range | 0 < p.step <= MAX_INT witness Range(0, 0, 1)

  ghost predicate InRange(p: Progression) {
    0 <= p.start <= p.end < WIDTH
  }

  // ---------------------------------------------------------------- multiples

  lemma NonZeroMultipleIsLarge(q: int, step: int)
    requires step > 0
    ensures q > 0 ==> q * step >= step
    ensures q < 0 ==> q * step <= -step
  {
  }

  lemma NoMultipleBetween(step: int, a: int, b: int)
    requires step > 0 && a % step == 0 && b % step == 0 && a < b
    ensures a + step <= b
  {
    var q, r := a / step, b / step;
    assert b - a == (r - q) * step;
    NonZeroMultipleIsLarge(r - q, step);
  }

  lemma NextMultiple(step: int, a: int)
    requires step > 0 && a % step == 0
    ensures (a + step) % step == 0
  {
    var n := a + step;
    assert n % step == (a / step + 1 - n / step) * step;
    NonZeroMultipleIsLarge(a / step + 1 - n / step, step);
  }

  lemma ZeroIsMultiple(step: int)
    requires step > 0
    ensures 0 % step == 0
  {}

  lemma ListsOnlyStart(p: Progression, value: int)
    requires InRange(p) && p.Wraps()
    ensures p.Lists(value) <==> value == p.start
  {
    if p.Lists(value) && value != p.start {
      NoMultipleBetween(p.step, 0, value - p.start);
    }
  }

  // ---------------------------------------------------------------- where the loop stands

  /** A value far below all others: a step on it comes back. */
  predicate Far(value: int) {
    value + WIDTH < 0
  }

  /** The value, or the next one if it is far. */
  function Near(p: Progression, value: int): int {
    if Far(value) then value + p.step else value
  }

  /** What holds of the loop's variable. */
  ghost predicate Visits(p: Progression, value: int) {
    if !p.Wraps() then p.start <= value && (value - p.start) % p.step == 0
    else
      var n := Near(p, value);
      value > p.end || (n <= p.start && (p.start - n) % p.Back() == 0 && 0 <= 2 * n + p.Back())
  }

  /** The loop has set the bit of this value before it comes to `value`. */
  ghost predicate Passed(p: Progression, value: int, v: int) {
    p.Selects(v) && if !p.Wraps() then v < value else value > p.end || v > Near(p, value)
  }

  /** How much is left to do. */
  function Left(p: Progression, value: int): int {
    if !p.Wraps() then p.end + 1 - value
    else if value > p.end then 0
    else 2 * (Near(p, value) + WIDTH) + if Far(value) then 1 else 0
  }

  lemma StepForward(p: Progression, value: int)
    requires InRange(p) && !p.Wraps() && Visits(p, value) && value <= p.end
    ensures Sum(value, p.step) == value + p.step && Visits(p, value + p.step)
    ensures forall v :: Passed(p, value + p.step, v) <==> Passed(p, value, v) || v == value
  {
    if value != p.start {
      NoMultipleBetween(p.step, 0, value - p.start);
    }
    NextMultiple(p.step, value - p.start);
    assert p.Selects(value) && Passed(p, value + p.step, value);
    forall v
      ensures Passed(p, value + p.step, v) <==> Passed(p, value, v) || v == value
    {
      assert p.Selects(v) == p.Lists(v);
      if p.Lists(v) && value < v {
        NoMultipleBetween(p.step, value - p.start, v - p.start);
      }
      hide Range.Selects, Range.Lists;
    }
  }

  lemma WrappingSelects(p: Progression, v: int)
    requires InRange(p) && p.Wraps()
    ensures p.Selects(v) <==> 0 <= v <= p.start && (p.start - v) % p.Back() == 0
  {
    hide Range.Lists;
    ListsOnlyStart(p, v);
    if v == p.start {
      ZeroIsMultiple(p.Back());
    }
  }

  lemma StepWraps(p: Progression, value: int)
    requires InRange(p) && p.Wraps() && Visits(p, value) && value <= p.end
    ensures var next := Sum(value, p.step);
      && Visits(p, next) && Left(p, next) < Left(p, value) && Left(p, value) >= 0
      && forall v :: Passed(p, next, v) <==> Passed(p, value, v) || (v == value && value >= 0)
  {
    var n, next := Near(p, value), Sum(value, p.step);
    if n == value && p.Back() <= 2 * n {
      assert Far(next) && Near(p, next) == n - p.Back();
      NextMultiple(p.Back(), p.start - n);
    }
    forall v
      ensures Passed(p, next, v) <==> Passed(p, value, v) || (v == value && value >= 0)
    {
      WrappingSelects(p, v);
      if p.Selects(v) && v < n {
        NoMultipleBetween(p.Back(), p.start - n, p.start - v);
      }
    }
  }

  lemma StepVisits(p: Progression, value: int)
    requires InRange(p) && Visits(p, value) && value <= p.end
    ensures var next := Sum(value, p.step);
      && Visits(p, next) && Left(p, next) < Left(p, value) && Left(p, value) >= 0
      && forall v :: Passed(p, next, v) <==> Passed(p, value, v) || (v == value && value >= 0)
  {
    if p.Wraps() {
      StepWraps(p, value);
    } else {
      StepForward(p, value);
    }
  }

  lemma Ends(p: Progression, value: int)
    requires InRange(p) && Visits(p, value) && value > p.end
    ensures forall v :: Passed(p, value, v) <==> p.Selects(v)
  {
    if p.Wraps() {
      forall v
        ensures Passed(p, value, v) <==> p.Selects(v)
      {
        WrappingSelects(p, v);
      }
    }
  }

  lemma Begins(p: Progression)
    requires InRange(p)
    ensures Visits(p, p.start) && forall v :: !Passed(p, p.start, v)
  {
    if p.Wraps() {
      forall v
        ensures !Passed(p, p.start, v)
      {
        WrappingSelects(p, v);
      }
    }
  }

  // ---------------------------------------------------------------- the loop

  lemma OrShifted(mask: bv64, value: int, bit: bv64)
    requires value < WIDTH && bit == ShiftedBit(value)
    ensures forall v: nat :: BitSet(mask | bit, v) <==> (v == value && value >= 0) || BitSet(mask, v)
  {
    if value < 0 {
      assert mask | bit == mask;
    } else {
      OrBit(mask, value, bit);
    }
  }

  /** Sets the bits of one comma part. */
  method AddProgression(mask: bv64, p: Progression) returns (r: bv64)
    requires InRange(p)
    ensures forall v: nat | v < WIDTH :: BitSet(r, v) <==> BitSet(mask, v) || p.Selects(v)
  {
    r := mask;
    var value := p.start;
    Begins(p);
    while value <= p.end
      invariant Visits(p, value)
      invariant forall v: nat | v < WIDTH :: BitSet(r, v) <==> BitSet(mask, v) || Passed(p, value, v)
      decreases Left(p, value)
    {
      hide BitSet, Visits, Passed, Left;
      var bit := ShiftedBit(value);
      OrShifted(r, value, bit);
      StepVisits(p, value);
      r := r | bit;
      value := Sum(value, p.step);
    }
    Ends(p, value);
  }

  lemma LargestStepComesBack(p: Progression)
    requires p.start == 2 && p.step == MAX_INT && InRange(p)
    ensures p.Selects(0) && !p.Lists(0)
  {
    WrappingSelects(p, 0);
    ListsOnlyStart(p, 0);
    hide Range.Selects, Range.Lists;
    assert p.Back() == 2;
  }

  /** The loop sets exactly the values from start to end by the step, unless two steps from the start come
      to 2 to the 64th or more: "2/9223372036854775807" sets 2 and also 0. */
  lemma ListsExactly(p: Progression)
    requires InRange(p)
    ensures (forall v: nat | v < WIDTH :: p.Selects(v) <==> p.Lists(v)) <==> p.start + 2 * p.step < TWO_64
  {
    var back := p.start - p.Back();
    if p.Wraps() {
      ListsOnlyStart(p, back);
      if back >= 0 {
        assert (p.start - back) % p.Back() == 0;
        assert p.Selects(back);
      }
      forall v: nat | v < WIDTH && p.Selects(v) && !p.Lists(v)
        ensures back >= 0
      {
        ListsOnlyStart(p, v);
        NoMultipleBetween(p.Back(), 0, p.start - v);
      }
    }
  }
}
