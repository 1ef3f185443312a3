/** The parts of Go's strings and strconv packages that the modelled code relies on. */
module Text {
  import opened Wrappers

  const MAX_INT: int := 0x7FFF_FFFF_FFFF_FFFF

  /** White space as in unicode.IsSpace. */
  predicate IsSpace(c: char) {
    || '\t' <= c <= '\r' || c == ' ' || c == '\U{85}' || c == '\U{a0}' || c == '\U{1680}'
    || '\U{2000}' <= c <= '\U{200a}' || c == '\U{2028}' || c == '\U{2029}' || c == '\U{202f}' || c == '\U{205f}'
    || c == '\U{3000}'
  }

  /** By code point. */
  lemma SpacesAre(c: char)
    ensures IsSpace(c) <==>
              || 9 <= c as int <= 13 || 8192 <= c as int <= 8202
              || c as int in {32, 133, 160, 5760, 8232, 8233, 8239, 8287, 12288}
  {}

  function TrimLeft(s: string): string {
    if s != [] && IsSpace(s[0]) then TrimLeft(s[1..]) else s
  }

  function TrimRight(s: string): string {
    if s != [] && IsSpace(s[|s| - 1]) then TrimRight(s[..|s| - 1]) else s
  }

  function TrimSpace(s: string): string {
    TrimRight(TrimLeft(s))
  }

  /** What is trimmed away is white space, all that stands at the ends. */
  lemma TrimmedSpaces(s: string) returns (n: nat, m: nat)
    ensures n <= m <= |s| && TrimSpace(s) == s[n..m]
    ensures forall i | 0 <= i < n || m <= i < |s| :: IsSpace(s[i])
    ensures n < m ==> !IsSpace(s[n]) && !IsSpace(s[m - 1])
  {
    n := TrimmedLeft(s);
    var k := TrimmedRight(s[n..]);
    m := n + k;
  }

  lemma {:induction false} TrimmedLeft(s: string) returns (n: nat)
    ensures n <= |s| && TrimLeft(s) == s[n..] && (forall i | 0 <= i < n :: IsSpace(s[i]))
    ensures n < |s| ==> !IsSpace(s[n])
    decreases |s|
  {
    if s != [] && IsSpace(s[0]) {
      var k := TrimmedLeft(s[1..]);
      n := k + 1;
    } else {
      n := 0;
    }
  }

  lemma {:induction false} TrimmedRight(s: string) returns (m: nat)
    ensures m <= |s| && TrimRight(s) == s[..m] && (forall i | m <= i < |s| :: IsSpace(s[i]))
    ensures m > 0 ==> !IsSpace(s[m - 1])
    decreases |s|
  {
    if s != [] && IsSpace(s[|s| - 1]) {
      m := TrimmedRight(s[..|s| - 1]);
    } else {
      m := |s|;
    }
  }

  /** The index of the first `sep`, or |s|. */
  function Find(s: string, sep: char): (i: nat)
    ensures i <= |s|
    ensures i < |s| ==> s[i] == sep
    ensures sep !in s[..i]
  {
    if s == [] || s[0] == sep then 0 else 1 + Find(s[1..], sep)
  }

  function Split(s: string, sep: char): (parts: seq<string>)
    ensures parts != []
    decreases |s|
  {
    var i := Find(s, sep);
    if i == |s| then [s] else [s[..i]] + Split(s[i + 1..], sep)
  }

  function Join(parts: seq<string>, sep: char): string {
    if parts == [] then ""
    else if |parts| == 1 then parts[0]
    else parts[0] + [sep] + Join(parts[1..], sep)
  }

  lemma FindsSeparator(a: string, sep: char, b: string)
    requires sep !in a
    ensures var s := a + [sep] + b; Find(s, sep) == |a| && s[..|a|] == a && s[|a| + 1..] == b
  {
    var s := a + [sep] + b;
    assert forall j | 0 <= j < |a| :: s[j] == a[j];
    forall k | |a| < k <= |s|
      ensures sep in s[..k]
    {
      assert s[..k][|a|] == sep;
    }
  }

  lemma FindsNone(s: string, sep: char)
    requires sep !in s
    ensures Find(s, sep) == |s|
  {}

  lemma SplitsOff(a: string, sep: char, b: string)
    requires sep !in a
    ensures Split(a + [sep] + b, sep) == [a] + Split(b, sep)
  {
    FindsSeparator(a, sep, b);
    hide Find;
  }

  /** Splitting undoes joining. */
  lemma {:induction false} SplitsJoined(parts: seq<string>, sep: char)
    requires parts != [] && forall part | part in parts :: sep !in part
    ensures Split(Join(parts, sep), sep) == parts
    decreases |parts|
  {
    if |parts| == 1 {
      FindsNone(parts[0], sep);
    } else {
      SplitsJoined(parts[1..], sep);
      SplitsOff(parts[0], sep, Join(parts[1..], sep));
      assert parts == [parts[0]] + parts[1..];
    }
  }

  // ---------------------------------------------------------------- numbers

  predicate IsDigit(c: char) {
    '0' <= c <= '9'
  }

  function DigitsValue(s: string): Option<nat>
    decreases |s|
  {
    if s == [] || !IsDigit(s[|s| - 1]) then None
    else
      var digit := (s[|s| - 1] - '0') as int;
      if |s| == 1 then Some(digit)
      else match DigitsValue(s[..|s| - 1])
        case None => None
        case Some(high) => Some(10 * high + digit)
  }

  /** An optional sign and at least one digit, of any length. */
  function Integer(s: string): Option<int> {
    if s != [] && s[0] in {'+', '-'} then
      match DigitsValue(s[1..])
      case None => None
      case Some(n) => Some(if s[0] == '-' then 0 - n else n as int)
    else
      match DigitsValue(s)
      case None => None
      case Some(n) => Some(n)
  }

  /** strconv.Atoi: an integer that fits 64 bits. */
  function Atoi(s: string): (r: Option<int>)
    ensures r.Some? ==> -MAX_INT - 1 <= r.value <= MAX_INT
  {
    match Integer(s)
    case None => None
    case Some(n) => if -MAX_INT - 1 <= n <= MAX_INT then Some(n) else None
  }

  function DigitChar(n: nat): char
    requires n < 10
  {
    '0' + (n as char)
  }

  function Itoa(n: nat): (s: string)
    ensures s != [] && forall c | c in s :: IsDigit(c)
  {
    if n < 10 then [DigitChar(n)] else Itoa(n / 10) + [DigitChar(n % 10)]
  }

  lemma {:induction false} DigitsOfItoa(n: nat)
    ensures DigitsValue(Itoa(n)) == Some(n)
  {
    if n >= 10 {
      DigitsOfItoa(n / 10);
      assert Itoa(n)[..|Itoa(n)| - 1] == Itoa(n / 10);
    }
  }

  lemma IntegerOfItoa(n: nat)
    ensures Integer(Itoa(n)) == Some(n)
  {
    DigitsOfItoa(n);
    assert IsDigit(Itoa(n)[0]);
  }

  lemma AtoiOfItoa(n: nat)
    requires n <= MAX_INT
    ensures Atoi(Itoa(n)) == Some(n)
  {
    IntegerOfItoa(n);
  }

  /** Exactly the ten digits are read. */
  lemma {:induction false} DigitsAre(s: string)
    ensures DigitsValue(s).Some? <==> s != [] && forall c | c in s :: c in "0123456789"
    decreases |s|
  {
    DigitCharacters();
    hide IsDigit;
    if |s| > 1 {
      var front := s[..|s| - 1];
      DigitsAre(front);
      assert s == front + [s[|s| - 1]];
    }
  }

  /** Zeros in front change nothing. */
  lemma {:induction false} ZeroInFront(s: string)
    requires s != []
    ensures DigitsValue("0" + s) == DigitsValue(s)
    decreases |s|
  {
    if |s| > 1 {
      ZeroInFront(s[..|s| - 1]);
      assert ("0" + s)[..|s|] == "0" + s[..|s| - 1];
    } else {
      assert ("0" + s)[..1] == "0" && DigitsValue("0") == Some(0);
    }
  }

  lemma DigitCharacters()
    ensures forall c :: IsDigit(c) <==> c in "0123456789"
  {
    forall c
      ensures IsDigit(c) <==> c in "0123456789"
    {
      assert IsDigit(c) ==> "0123456789"[(c - '0') as int] == c;
    }
  }

  /** With a sign too; and numbers are read up to the bounds of 64 bits. */
  lemma AtoiOfSigned(n: nat)
    ensures Atoi(Itoa(n)) == if n <= 9223372036854775807 then Some(n) else None
    ensures Atoi("+" + Itoa(n)) == Atoi(Itoa(n))
    ensures Atoi("-" + Itoa(n)) == if n <= 9223372036854775808 then Some(0 - n) else None
  {
    IntegerOfItoa(n);
    IntegerOfSigned(n);
    hide Integer, Itoa;
  }

  lemma IntegerOfSigned(n: nat)
    ensures Integer("+" + Itoa(n)) == Some(n) && Integer("-" + Itoa(n)) == Some(0 - n)
  {
    DigitsOfItoa(n);
    var plus, minus := "+" + Itoa(n), "-" + Itoa(n);
    assert plus[1..] == Itoa(n) && minus[1..] == Itoa(n);
    hide Itoa, DigitsValue;
  }

  /** No separator occurs inside a part, and joining the parts gives the text back. */
  lemma {:induction false} SplitJoin(s: string, sep: char)
    ensures Join(Split(s, sep), sep) == s
    ensures forall part | part in Split(s, sep) :: sep !in part
    decreases |s|
  {
    var i := Find(s, sep);
    if i < |s| {
      SplitJoin(s[i + 1..], sep);
      assert s == s[..i] + [sep] + s[i + 1..];
    }
  }
}
