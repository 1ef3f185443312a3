/** Searching civil time for the first instant with a property, one second at a time. */
module CivilSearch {
  import opened Wrappers
  import opened Calendar

  type Property = Civil -> bool

  /** Every instant from `from` up to but not including `to` lacks the property. */
  ghost predicate NoMatch(p: Property, from: Civil, to: Civil) {
    forall x | Valid(x) && !Less(x, from) && Less(x, to) :: !p(x)
  }

  function Scan(p: Property, c: Civil, limit: Civil): (r: Option<Civil>)
    requires Valid(c) && Valid(limit)
    decreases Unix(limit) - Unix(c)
  {
    NextSecondCounts(c);
    LessIsUnixLess(c, limit);
    if !Less(c, limit) then None
    else if p(c) then Some(c)
    else Scan(p, NextSecond(c), limit)
  }

  lemma NextSecondIsNext(c: Civil, to: Civil)
    requires Valid(c) && Valid(to) && Less(c, to)
    ensures Valid(NextSecond(c)) && !Less(to, NextSecond(c))
    ensures Unix(NextSecond(c)) == Unix(c) + 1
  {
    NextSecondCounts(c);
    LessIsUnixLess(c, to);
    LessIsUnixLess(to, NextSecond(c));
  }

  lemma {:induction false} ScanPassesNoMatch(p: Property, from: Civil, to: Civil, limit: Civil)
    requires Valid(from) && Valid(to) && Valid(limit) && !Less(to, from) && NoMatch(p, from, to)
    ensures Scan(p, from, limit) == if Less(to, limit) then Scan(p, to, limit) else None
    decreases Unix(to) - Unix(from)
  {
    LessIsUnixLess(from, to);
    if from != to && Less(from, limit) {
      NextSecondIsNext(from, to);
      assert !p(from);
      LessIsUnixLess(from, NextSecond(from));
      assert NoMatch(p, NextSecond(from), to);
      hide NoMatch;
      ScanPassesNoMatch(p, NextSecond(from), to, limit);
    }
  }

  lemma {:induction false} ScanStopsByMatch(p: Property, from: Civil, x: Civil, limit: Civil)
    requires Valid(from) && Valid(x) && Valid(limit) && p(x) && !Less(x, from) && Less(x, limit)
    ensures Scan(p, from, limit).Some?
    decreases Unix(x) - Unix(from)
  {
    LessIsUnixLess(from, x);
    if from != x {
      NextSecondIsNext(from, x);
      ScanStopsByMatch(p, NextSecond(from), x, limit);
    }
  }

  /** The scan finds an instant exactly when the window holds one. */
  lemma ScanFinds(p: Property, from: Civil, limit: Civil)
    requires Valid(from) && Valid(limit)
    ensures Scan(p, from, limit).None? <==> NoMatch(p, from, limit)
  {
    forall x | Valid(x) && !Less(x, from) && Less(x, limit) && p(x)
      ensures Scan(p, from, limit).Some?
    {
      ScanStopsByMatch(p, from, x, limit);
    }
    if NoMatch(p, from, limit) && Less(from, limit) {
      ScanPassesNoMatch(p, from, limit, limit);
    }
  }

  /** What the scan finds is a match, and the first one. */
  lemma {:induction false} ScanIsLeast(p: Property, c: Civil, limit: Civil)
    requires Valid(c) && Valid(limit)
    ensures match Scan(p, c, limit)
      case None => NoMatch(p, c, limit)
      case Some(x) => Valid(x) && p(x) && !Less(x, c) && Less(x, limit) && NoMatch(p, c, x)
    decreases Unix(limit) - Unix(c)
  {
    NextSecondCounts(c);
    LessIsUnixLess(c, limit);
    if Less(c, limit) && !p(c) {
      var n := NextSecond(c);
      ScanIsLeast(p, n, limit);
      LessIsUnixLess(c, n);
      forall x | Valid(x) && !Less(x, c) && x != c
        ensures !Less(x, n)
      {
        if Less(x, n) {
          WithinSecond(c, x);
        }
      }
    }
  }

  /** In clock seconds: the civil time of every second before `to` lacks the property. */
  lemma NoMatchInSeconds(p: Property, from: Civil, to: Civil, unix: int) returns (c: Civil)
    requires Valid(from) && Valid(to) && NoMatch(p, from, to)
    requires Unix(from) <= unix < Unix(to)
    ensures Valid(c) && Unix(c) == unix && !p(c)
  {
    c := EverySecondHasCivilTime(unix);
    LessIsUnixLess(c, from);
    LessIsUnixLess(c, to);
  }
}
