/**
 Finding the workflow of an HTTP request: path patterns with parameters and wildcards, methods, and an
 index that is tried before the full scan. Whatever the index holds, no request is misrouted.
 */
module Webhook {
  import opened Wrappers
  import opened Text

  // ---------------------------------------------------------------- paths

  function TrimSlashes(s: string): string {
    if s != "" && s[0] == '/' then TrimSlashes(s[1..])
    else if s != "" && s[|s| - 1] == '/' then TrimSlashes(s[..|s| - 1])
    else s
  }

  function SplitPath(path: string): seq<string> {
    var trimmed := TrimSlashes(path);
    if trimmed == "" then [] else Split(trimmed, '/')
  }

  /** What is trimmed away are slashes, all that stand at the ends. */
  lemma {:induction false} TrimmedSlashes(s: string) returns (n: nat, m: nat)
    ensures n <= m <= |s| && TrimSlashes(s) == s[n..m]
    ensures forall i | 0 <= i < n || m <= i < |s| :: s[i] == '/'
    ensures n < m ==> s[n] != '/' && s[m - 1] != '/'
    decreases |s|
  {
    if s != "" && s[0] == '/' {
      var k, l := TrimmedSlashes(s[1..]);
      n, m := k + 1, l + 1;
    } else if s != "" && s[|s| - 1] == '/' {
      n, m := TrimmedSlashes(s[..|s| - 1]);
    } else {
      n, m := 0, |s|;
    }
  }

  type Params = map<string, string>

  predicate IsWildcard(part: string) {
    part != "" && part[0] == '*'
  }

  predicate IsParam(part: string) {
    part != "" && part[0] == ':'
  }

  /** The name of a parameter or wildcard. */
  function NameOf(part: string): string {
    if part == "*" then "wildcard" else if part == "" then "" else part[1..]
  }

  function MatchFrom(pattern: seq<string>, actual: seq<string>, i: nat, params: Params): Option<Params>
    requires i <= |pattern|
    decreases |pattern| - i
  {
    if i == |pattern| then if |pattern| == |actual| then Some(params) else None
    else if i >= |actual| then None
    else if IsWildcard(pattern[i]) then Some(params[NameOf(pattern[i]) := Join(actual[i..], '/')])
    else if IsParam(pattern[i]) then MatchFrom(pattern, actual, i + 1, params[NameOf(pattern[i]) := actual[i]])
    else if pattern[i] != actual[i] then None
    else MatchFrom(pattern, actual, i + 1, params)
  }

  function Match(pattern: string, actual: string): Option<Params> {
    MatchFrom(SplitPath(pattern), SplitPath(actual), 0, map[])
  }

  method MatchWebhookPath(pattern: string, actual: string) returns (r: Option<Params>)
    ensures r == Match(pattern, actual)
  {
    var patternParts, actualParts := SplitPath(pattern), SplitPath(actual);
    var params: Params := map[];
    for index := 0 to |patternParts|
      invariant MatchFrom(patternParts, actualParts, index, params) == Match(pattern, actual)
    {
      if index >= |actualParts| {
        return None;
      }
      var part, actualPart := patternParts[index], actualParts[index];
      if part != "" && part[0] == '*' {
        var name := part[1..];
        if name == "" {
          name := "wildcard";
        }
        return Some(params[name := Join(actualParts[index..], '/')]);
      }
      if part != "" && part[0] == ':' {
        params := params[part[1..] := actualPart];
        continue;
      }
      if part != actualPart {
        return None;
      }
    }
    if |patternParts| != |actualParts| {
      return None;
    }
    return Some(params);
  }

  // ---------------------------------------------------------------- what a match means

  function FirstWildcard(pattern: seq<string>): (k: nat)
    ensures k <= |pattern| && (k < |pattern| ==> IsWildcard(pattern[k]))
    ensures forall i | 0 <= i < k :: !IsWildcard(pattern[i])
  {
    if pattern == [] || IsWildcard(pattern[0]) then 0 else 1 + FirstWildcard(pattern[1..])
  }

  /** Up to the first wildcard every part is a parameter or the same; a wildcard takes at least one part
      and all the rest; without a wildcard the lengths agree. */
  predicate Fits(pattern: seq<string>, actual: seq<string>) {
    FitsFrom(pattern, actual, 0)
  }

  predicate FitsFrom(pattern: seq<string>, actual: seq<string>, from: nat) {
    var k := FirstWildcard(pattern);
    && (if k < |pattern| then k < |actual| else |actual| == |pattern|)
    && forall i | from <= i < k :: IsParam(pattern[i]) || pattern[i] == actual[i]
  }

  lemma {:induction false} MatchesWhatFits(pattern: seq<string>, actual: seq<string>, i: nat, params: Params)
    requires i <= FirstWildcard(pattern)
    ensures MatchFrom(pattern, actual, i, params).Some? <==> FitsFrom(pattern, actual, i)
    decreases |pattern| - i
  {
    var k := FirstWildcard(pattern);
    if i < k && i < |actual| && !IsWildcard(pattern[i]) {
      MatchesWhatFits(pattern, actual, i + 1,
        if IsParam(pattern[i]) then params[NameOf(pattern[i]) := actual[i]] else params);
    }
  }

  lemma MatchIsExact(pattern: string, actual: string)
    ensures Match(pattern, actual).Some? <==> Fits(SplitPath(pattern), SplitPath(actual))
  {
    MatchesWhatFits(SplitPath(pattern), SplitPath(actual), 0, map[]);
  }

  predicate Named(part: string) {
    IsWildcard(part) || IsParam(part)
  }

  /** No two named parts up to the first wildcard have the same name. */
  predicate DistinctNames(pattern: seq<string>) {
    forall i, j | 0 <= i < j < |pattern| && j <= FirstWildcard(pattern) && Named(pattern[i]) && Named(pattern[j]) ::
      NameOf(pattern[i]) != NameOf(pattern[j])
  }

  /** What the first `i` parts of a pattern bind. */
  predicate Bound(pattern: seq<string>, actual: seq<string>, i: nat, params: Params) {
    forall j | 0 <= j < i && j < |pattern| && j < |actual| && IsParam(pattern[j]) ::
      NameOf(pattern[j]) in params && params[NameOf(pattern[j])] == actual[j]
  }

  lemma {:induction false} MatchBinds(pattern: seq<string>, actual: seq<string>, i: nat, params: Params)
    requires DistinctNames(pattern) && i <= FirstWildcard(pattern) && i <= |actual|
    requires Bound(pattern, actual, i, params) && MatchFrom(pattern, actual, i, params).Some?
    ensures var k, r := FirstWildcard(pattern), MatchFrom(pattern, actual, i, params).value;
      && k <= |actual| && Bound(pattern, actual, k, r)
      && (k < |pattern| ==> NameOf(pattern[k]) in r && r[NameOf(pattern[k])] == Join(actual[k..], '/'))
    decreases |pattern| - i
  {
    var k := FirstWildcard(pattern);
    if i < k {
      var more := if IsParam(pattern[i]) then params[NameOf(pattern[i]) := actual[i]] else params;
      assert Bound(pattern, actual, i + 1, more);
      MatchBinds(pattern, actual, i + 1, more);
    }
  }

  function ValueOf(params: Params, part: string): string {
    if NameOf(part) in params then params[NameOf(part)] else ""
  }

  /** The pattern's parts with the values put in for the names, up to and including a wildcard. */
  function Substituted(pattern: seq<string>, params: Params): seq<string> {
    if pattern == [] then []
    else if IsWildcard(pattern[0]) then [ValueOf(params, pattern[0])]
    else
      [if IsParam(pattern[0]) then ValueOf(params, pattern[0]) else pattern[0]] + Substituted(pattern[1..], params)
  }

  lemma {:induction false} SubstitutedIs(pattern: seq<string>, params: Params, parts: seq<string>)
    requires var k := FirstWildcard(pattern); |parts| == if k < |pattern| then k + 1 else k
    requires forall i | 0 <= i < |parts| ::
      parts[i] == (if Named(pattern[i]) then ValueOf(params, pattern[i]) else pattern[i])
    ensures Substituted(pattern, params) == parts
    decreases |pattern|
  {
    if pattern != [] && !IsWildcard(pattern[0]) {
      SubstitutedIs(pattern[1..], params, parts[1..]);
      assert parts == [parts[0]] + parts[1..];
    }
  }

  lemma {:induction false} JoinTwice(parts: seq<string>, k: nat)
    requires k < |parts|
    ensures Join(parts[..k] + [Join(parts[k..], '/')], '/') == Join(parts, '/')
    decreases k
  {
    if k == 0 {
      assert parts[0..] == parts && parts[..0] + [Join(parts, '/')] == [Join(parts, '/')];
    } else {
      JoinTwice(parts[1..], k - 1);
      var whole := parts[..k] + [Join(parts[k..], '/')];
      assert whole[1..] == parts[1..][..k - 1] + [Join(parts[1..][k - 1..], '/')] by {
        assert parts[1..][k - 1..] == parts[k..];
      }
    }
  }

  /** With distinct names, putting the returned values into the pattern gives the actual path. */
  lemma SubstitutionReproduces(pattern: string, actual: string)
    requires Match(pattern, actual).Some? && DistinctNames(SplitPath(pattern))
    ensures Join(Substituted(SplitPath(pattern), Match(pattern, actual).value), '/') == TrimSlashes(actual)
  {
    var patterns, parts := SplitPath(pattern), SplitPath(actual);
    var params, k := Match(pattern, actual).value, FirstWildcard(SplitPath(pattern));
    MatchIsExact(pattern, actual);
    MatchBinds(patterns, parts, 0, map[]);
    var filled := if k < |patterns| then parts[..k] + [Join(parts[k..], '/')] else parts;
    SubstitutedIs(patterns, params, filled);
    if k < |patterns| {
      JoinTwice(parts, k);
    }
    if parts != [] {
      SplitJoin(TrimSlashes(actual), '/');
    }
  }

  // ---------------------------------------------------------------- nodes and methods

  /** `parameters` holds the printed form of each parameter that is there. */
  datatype Node = Node(name: string, kind: string, disabled: bool, webhookId: string, parameters: map<string, string>)

  const NIL: string := "<nil>"

  function Printed(node: Node, key: string): string {
    if key in node.parameters then node.parameters[key] else NIL
  }

  function UpperChar(c: char): char {
    if 'a' <= c <= 'z' then c - 'a' + 'A' else c
  }

  function Upper(s: string): string {
    seq(|s|, (i: nat) requires i < |s| => UpperChar(s[i]))
  }

  function WebhookPath(node: Node): string {
    if "path" in node.parameters then TrimSlashes(node.parameters["path"])
    else if "webhookPath" in node.parameters then TrimSlashes(node.parameters["webhookPath"])
    else if node.webhookId != "" then TrimSlashes(node.webhookId)
    else TrimSlashes(node.name)
  }

  function ExpectedMethod(node: Node): string {
    var expected := Upper(Printed(node, "httpMethod"));
    if expected == "" || expected == "<NIL>" then Upper(Printed(node, "method")) else expected
  }

  const ANY_METHOD: set<string> := {"", "<NIL>", "ALL", "*", "ANY"}

  /** Any method, one of a list, or exactly what is there; letter case does not matter. */
  predicate Accepts(node: Node, verb: string) {
    var expected := ExpectedMethod(node);
    || expected in ANY_METHOD
    || expected == Upper(verb)
    || exists part :: part in Split(expected, ',') && TrimSpace(part) == Upper(verb)
  }

  method WebhookMethod(node: Node, verb: string) returns (r: bool)
    ensures r == Accepts(node, verb)
  {
    var expected := ExpectedMethod(node);
    if expected in ANY_METHOD {
      return true;
    }
    var parts := Split(expected, ',');
    for i := 0 to |parts|
      invariant forall j | 0 <= j < i :: TrimSpace(parts[j]) != Upper(verb)
    {
      if TrimSpace(parts[i]) == Upper(verb) {
        return true;
      }
    }
    return expected == Upper(verb);
  }

  // ---------------------------------------------------------------- what a method parameter means

  /** The method parameter of a node, or its older one. */
  predicate HasMethod(node: Node, text: string) {
    if "httpMethod" in node.parameters && node.parameters["httpMethod"] != ""
       && Upper(node.parameters["httpMethod"]) != "<NIL>"
    then node.parameters["httpMethod"] == text
    else "method" in node.parameters && node.parameters["method"] == text
  }

  /** The path that a node is reached by: its path, or the older parameter, or its own id, or its name. */
  lemma PathMeans(node: Node)
    ensures "path" in node.parameters ==> WebhookPath(node) == TrimSlashes(node.parameters["path"])
    ensures "path" !in node.parameters && "webhookPath" in node.parameters ==>
              WebhookPath(node) == TrimSlashes(node.parameters["webhookPath"])
    ensures "path" !in node.parameters && "webhookPath" !in node.parameters ==>
              WebhookPath(node) == TrimSlashes(if |node.webhookId| > 0 then node.webhookId else node.name)
  {}

  lemma UpperIs(s: string, t: string)
    requires |s| == |t|
    requires forall i | 0 <= i < |s| :: t[i] == if 'a' <= s[i] <= 'z' then s[i] - 'a' + 'A' else s[i]
    ensures Upper(s) == t
  {}

  lemma ExpectedIs(node: Node, text: string)
    requires HasMethod(node, text)
    ensures ExpectedMethod(node) == Upper(text)
  {
    UpperIs("<nil>", "<NIL>");
    if "httpMethod" in node.parameters && Upper(node.parameters["httpMethod"]) == "" {
      assert node.parameters["httpMethod"] == "";
    }
  }

  /** A node for one method gets no other: a node for POST gets POST, however written, and no GET. */
  lemma OneMethodMeans(node: Node, verb: string)
    ensures HasMethod(node, "POST") ==> (Accepts(node, verb) <==> Upper(verb) == "POST")
    ensures HasMethod(node, "GET") ==> (Accepts(node, verb) <==> Upper(verb) == "GET")
    ensures Upper("post") == "POST" && Upper("GET") == "GET"
  {
    UpperIs("post", "POST");
    UpperIs("POST", "POST");
    UpperIs("GET", "GET");
    OneMethod("POST");
    OneMethod("GET");
    if HasMethod(node, "POST") {
      ExpectedIs(node, "POST");
    } else if HasMethod(node, "GET") {
      ExpectedIs(node, "GET");
    }
    hide ExpectedMethod, HasMethod, Split, TrimSpace, Upper;
  }

  lemma UpperKeepsCommas(s: string)
    ensures ',' in Upper(s) <==> ',' in s
  {
    if ',' in s {
      var i :| 0 <= i < |s| && s[i] == ',';
      assert Upper(s)[i] == ',';
    }
  }

  /** A node for two methods, with a comma and perhaps blanks between them, gets these. */
  lemma TwoMethodsMean(node: Node, verb: string, a: string, b: string)
    requires HasMethod(node, a + "," + b) && ',' !in a && ',' !in b
    ensures Accepts(node, verb) <==>
              Upper(verb) in {Upper(a + "," + b), TrimSpace(Upper(a)), TrimSpace(Upper(b))}
  {
    ExpectedIs(node, a + "," + b);
    UpperJoins(a, b);
    UpperKeepsCommas(a);
    UpperKeepsCommas(b);
    SplitsJoined([Upper(a), Upper(b)], ',');
    CommaIsNotAny(Upper(a), Upper(b));
    assert [Upper(a), Upper(b)][0] == Upper(a) && [Upper(a), Upper(b)][1] == Upper(b);
    hide ExpectedMethod, HasMethod, Split, TrimSpace, Upper, ANY_METHOD;
  }

  lemma UpperJoins(a: string, b: string)
    ensures Upper(a + "," + b) == Upper(a) + "," + Upper(b)
  {}

  lemma CommaIsNotAny(a: string, b: string)
    ensures a + "," + b !in ANY_METHOD
  {
    var s := a + "," + b;
    assert s[|a|] == ',' && ',' in s;
    assert ',' !in "<NIL>" && ',' !in "ALL" && ',' !in "ANY" && ',' !in "*";
  }

  /** A node without a method, or for "ALL", "ANY" or "*", gets every request. */
  lemma AnyMethodMeans(node: Node, verb: string, text: string)
    requires HasMethod(node, text) ==> text in {"all", "Any", "*", ""}
    requires !HasMethod(node, text) ==> "httpMethod" !in node.parameters && "method" !in node.parameters
    ensures Accepts(node, verb)
  {
    UpperIs("all", "ALL");
    UpperIs("Any", "ANY");
    UpperIs("*", "*");
    UpperIs("", "");
    UpperIs("<nil>", "<NIL>");
    if HasMethod(node, text) {
      ExpectedIs(node, text);
    }
    hide HasMethod, Split, TrimSpace, Upper;
  }

  lemma OneMethod(text: string)
    requires text in {"POST", "GET"}
    ensures Split(text, ',') == [text] && TrimSpace(text) == text && text !in ANY_METHOD
  {
    assert Find(text, ',') == |text|;
  }

  // ---------------------------------------------------------------- finding the workflow

  /** A stored workflow; `nodes` is None when it cannot be read. */
  datatype Row = Row(id: string, active: bool, nodes: Option<seq<Node>>)

  /** The index says for a path and a method which workflow to try. Reading single rows, or the scan as a
      whole, may fail. */
  datatype Server = Server(
    rows: seq<Row>, index: map<(string, string), string>, unreadable: set<string>, scanFails: bool)

  /** `verb` is the HTTP method. */
  datatype Request = Request(path: string, verb: string, isTest: bool, kinds: set<string>)

  datatype Found = Found(row: Row, node: Node, params: Params)

  predicate NodeFits(node: Node, r: Request) {
    node.kind in r.kinds && !node.disabled && Match(WebhookPath(node), r.path).Some? && Accepts(node, r.verb)
  }

  predicate RowFits(row: Row, r: Request) {
    (row.active || r.isTest) && row.nodes.Some? && exists node :: node in row.nodes.value && NodeFits(node, r)
  }

  function FirstNode(nodes: seq<Node>, r: Request): (found: Option<Node>)
    ensures found.Some? <==> exists node :: node in nodes && NodeFits(node, r)
    ensures found.Some? ==> found.value in nodes && NodeFits(found.value, r)
  {
    if nodes == [] then None else if NodeFits(nodes[0], r) then Some(nodes[0]) else FirstNode(nodes[1..], r)
  }

  /** The row's first node that fits. */
  function InRow(row: Row, r: Request): Option<Found> {
    if (!row.active && !r.isTest) || row.nodes.None? then None
    else
      match FirstNode(row.nodes.value, r)
      case None => None
      case Some(node) => Some(Found(row, node, Match(WebhookPath(node), r.path).value))
  }

  function ScanRows(rows: seq<Row>, r: Request): Option<Found> {
    if rows == [] then None else if InRow(rows[0], r).Some? then InRow(rows[0], r) else ScanRows(rows[1..], r)
  }

  function RowById(rows: seq<Row>, id: string): (r: Option<Row>)
    ensures r.Some? ==> r.value in rows && r.value.id == id
  {
    if rows == [] then None else if rows[0].id == id then Some(rows[0]) else RowById(rows[1..], id)
  }

  function Indexed(s: Server, path: string, verb: string): Option<string> {
    if (path, verb) in s.index then Some(s.index[(path, verb)])
    else if Upper(verb) != "ALL" && (path, "ALL") in s.index then Some(s.index[(path, "ALL")])
    else None
  }

  function LookedUp(s: Server, r: Request): Option<Found> {
    match Indexed(s, r.path, r.verb)
    case None => None
    case Some(id) =>
      var row := RowById(s.rows, id);
      if id in s.unreadable || row.None? then None else InRow(row.value, r)
  }

  datatype FindError = NotFound | StoreFailed

  function FindTrigger(s: Server, r: Request): Result<Found, FindError> {
    if !r.isTest && LookedUp(s, r).Some? then Success(LookedUp(s, r).value)
    else if s.scanFails then Failure(StoreFailed)
    else match ScanRows(s.rows, r)
      case Some(found) => Success(found)
      case None => Failure(NotFound)
  }

  method SearchNodes(row: Row, nodes: seq<Node>, r: Request) returns (found: Option<Found>)
    requires (row.active || r.isTest) && row.nodes == Some(nodes)
    ensures found == InRow(row, r)
  {
    for i := 0 to |nodes|
      invariant FirstNode(nodes[i..], r) == FirstNode(nodes, r)
    {
      assert nodes[i..][1..] == nodes[i + 1..];
      var node := nodes[i];
      if node.kind !in r.kinds || node.disabled {
        continue;
      }
      var params := MatchWebhookPath(WebhookPath(node), r.path);
      var accepts := WebhookMethod(node, r.verb);
      if params.Some? && accepts {
        return Some(Found(row, node, params.value));
      }
    }
    return None;
  }

  method LookupRegistered(s: Server, r: Request) returns (found: Option<Found>)
    ensures found == LookedUp(s, r)
  {
    var id := Indexed(s, r.path, r.verb);
    if id.None? || id.value in s.unreadable {
      return None;
    }
    var row := RowById(s.rows, id.value);
    if row.None? || (!row.value.active && !r.isTest) || row.value.nodes.None? {
      return None;
    }
    found := SearchNodes(row.value, row.value.nodes.value, r);
  }

  method FindHTTPTriggerWorkflow(s: Server, r: Request) returns (result: Result<Found, FindError>)
    ensures result == FindTrigger(s, r)
  {
    if !r.isTest {
      var found := LookupRegistered(s, r);
      if found.Some? {
        return Success(found.value);
      }
    }
    var found: Option<Found> := None;
    for i := 0 to |s.rows|
      invariant (if found.Some? then found else ScanRows(s.rows[i..], r)) == ScanRows(s.rows, r)
    {
      assert s.rows[i..][1..] == s.rows[i + 1..];
      var row := s.rows[i];
      if found.Some? || (!row.active && !r.isTest) || row.nodes.None? {
        continue;
      }
      found := SearchNodes(row, row.nodes.value, r);
    }
    if s.scanFails {
      return Failure(StoreFailed);
    }
    return if found.Some? then Success(found.value) else Failure(NotFound);
  }

  // ---------------------------------------------------------------- no request is misrouted

  lemma InRowFits(row: Row, r: Request)
    ensures InRow(row, r).Some? <==> RowFits(row, r)
    ensures InRow(row, r).Some? ==> InRow(row, r).value.row == row
  {}

  lemma {:induction false} ScanFinds(rows: seq<Row>, r: Request)
    ensures ScanRows(rows, r).Some? <==> exists row :: row in rows && RowFits(row, r)
    ensures ScanRows(rows, r).Some? ==>
      ScanRows(rows, r).value.row in rows && InRow(ScanRows(rows, r).value.row, r) == ScanRows(rows, r)
  {
    hide InRow, RowFits;
    if rows != [] {
      ScanFinds(rows[1..], r);
      InRowFits(rows[0], r);
      assert rows == [rows[0]] + rows[1..];
    }
  }

  /** A request finds a workflow exactly when one fits, while the store can be read; what it finds is an
      enabled node of the right kind in a stored workflow that is active, or of any for a test, and fits
      the path and the method. This holds for any index. */
  lemma NeverMisroutes(s: Server, r: Request)
    ensures FindTrigger(s, r).Success? ==>
              var found := FindTrigger(s, r).value;
              found.row in s.rows && (found.row.active || r.isTest) && found.row.nodes.Some?
              && found.node in found.row.nodes.value && NodeFits(found.node, r)
              && Match(WebhookPath(found.node), r.path) == Some(found.params)
    ensures !s.scanFails ==> (FindTrigger(s, r).Success? <==> exists row :: row in s.rows && RowFits(row, r))
    ensures FindTrigger(s, r) == Failure(NotFound) ==> forall row | row in s.rows :: !RowFits(row, r)
  {
    ScanFinds(s.rows, r);
    var found := LookedUp(s, r);
    if found.Some? {
      assert found.value.row in s.rows && RowFits(found.value.row, r);
    }
  }

  lemma LookedUpFits(s: Server, r: Request)
    requires LookedUp(s, r).Some?
    ensures var row := LookedUp(s, r).value.row; row in s.rows && RowFits(row, r) && InRow(row, r) == LookedUp(s, r)
  {
    hide Indexed, RowFits;
    var row := RowById(s.rows, Indexed(s, r.path, r.verb).value).value;
    InRowFits(row, r);
  }

  /** When one stored workflow fits, the index changes nothing about the answer. */
  lemma OneFitIndexIrrelevant(s: Server, r: Request, row: Row)
    requires !s.scanFails && forall other | other in s.rows && RowFits(other, r) :: other == row
    ensures FindTrigger(s, r) == FindTrigger(s.(index := map[]), r)
  {
    hide InRow, RowFits, Indexed, LookedUp, ScanRows;
    ScanFinds(s.rows, r);
    if LookedUp(s, r).Some? {
      LookedUpFits(s, r);
    }
    NoIndexNoLookup(s, r);
    if ScanRows(s.rows, r).Some? {
      InRowFits(ScanRows(s.rows, r).value.row, r);
    }
  }

  lemma NoIndexNoLookup(s: Server, r: Request)
    ensures LookedUp(s.(index := map[]), r) == None
  {}

  /** The index can lead to the row: its id finds it, and it can be read. */
  predicate Indexable(s: Server, row: Row) {
    row.id !in s.unreadable && RowById(s.rows, row.id) == Some(row)
  }

  /** Each fitting workflow that an index can lead to is the one that the scan finds, if it can be made. */
  ghost predicate OnlyScanned(s: Server, r: Request) {
    forall row | row in s.rows && Indexable(s, row) && RowFits(row, r) ::
      !s.scanFails && InRow(row, r) == ScanRows(s.rows, r)
  }

  ghost predicate IndexIrrelevant(s: Server, r: Request) {
    forall index: map<(string, string), string> ::
      FindTrigger(s.(index := index), r) == FindTrigger(s.(index := map[]), r)
  }

  lemma LookedUpIsIndexable(s: Server, r: Request)
    requires LookedUp(s, r).Some?
    ensures Indexable(s, LookedUp(s, r).value.row)
  {
    hide Indexed;
    InRowFits(RowById(s.rows, Indexed(s, r.path, r.verb).value).value, r);
  }

  /** An index with one entry leads a request to a row. */
  lemma EntryLeadsTo(s: Server, r: Request, row: Row)
    requires Indexable(s, row)
    ensures LookedUp(s.(index := map[(r.path, r.verb) := row.id]), r) == InRow(row, r)
  {}

  /** An entry for "ALL" leads every method to a row, unless there is one for the method itself. */
  lemma AllEntryLeadsTo(s: Server, r: Request, row: Row)
    requires Indexable(s, row) && Upper(r.verb) != "ALL"
    ensures LookedUp(s.(index := map[(r.path, "ALL") := row.id]), r) == InRow(row, r)
    ensures forall other ::
      LookedUp(s.(index := map[(r.path, "ALL") := other, (r.path, r.verb) := row.id]), r) == InRow(row, r)
  {
    UpperIs("ALL", "ALL");
  }

  /** No index changes the answer if and only if the request is a test, or each fitting workflow that an
      index can lead to is the one that the scan finds. */
  lemma IndexIrrelevantExactly(s: Server, r: Request)
    ensures IndexIrrelevant(s, r) <==> r.isTest || OnlyScanned(s, r)
  {
    NoIndexNoLookup(s, r);
    hide LookedUp, Indexed, RowFits, InRow, ScanRows, RowById;
    if r.isTest {
      assert IndexIrrelevant(s, r);
    } else if OnlyScanned(s, r) {
      forall index: map<(string, string), string>
        ensures FindTrigger(s.(index := index), r) == FindTrigger(s.(index := map[]), r)
      {
        var t := s.(index := index);
        if LookedUp(t, r).Some? {
          LookedUpFits(t, r);
          LookedUpIsIndexable(t, r);
          assert Indexable(s, LookedUp(t, r).value.row);
        }
      }
    } else {
      var row :| row in s.rows && Indexable(s, row) && RowFits(row, r)
        && !(!s.scanFails && InRow(row, r) == ScanRows(s.rows, r));
      var index := map[(r.path, r.verb) := row.id];
      EntryLeadsTo(s, r, row);
      InRowFits(row, r);
      assert FindTrigger(s.(index := index), r) == Success(InRow(row, r).value);
    }
  }

  const WEBHOOK: string := "n8n-nodes-base.webhook"

  /** With two fitting workflows the index decides: two active workflows each wait for a POST to the same
      path, and an index entry for the second one sends it there; the scan finds the first. */
  lemma TwoFitsIndexDecides() returns (s: Server, r: Request)
    ensures r == Request("orders", "POST", false, {"n8n-nodes-base.webhook"}) && !s.scanFails && !IndexIrrelevant(s, r)
    ensures FindTrigger(s, r).Success? && FindTrigger(s, r).value.row.id == "2"
    ensures FindTrigger(s.(index := map[]), r).Success? && FindTrigger(s.(index := map[]), r).value.row.id == "1"
  {
    var node := Node("Webhook", WEBHOOK, false, "", map["path" := "orders", "httpMethod" := "POST"]);
    var first, second := Row("1", true, Some([node])), Row("2", true, Some([node]));
    s := Server([first, second], map[("orders", "POST") := "2"], {}, false);
    r := Request("orders", "POST", false, {WEBHOOK});
    PostFits(node, r);
    assert first.nodes.value[0] == node;
    assert NodeFits(first.nodes.value[0], r) && FirstNode([node], r) == Some(node);
    assert RowById(s.rows, "2") == Some(second);
    assert LookedUp(s, r).value.row == second;
    NoIndexNoLookup(s, r);
  }

  lemma PostFits(node: Node, r: Request)
    requires node == Node("Webhook", WEBHOOK, false, "", map["path" := "orders", "httpMethod" := "POST"])
    requires r == Request("orders", "POST", false, {WEBHOOK})
    ensures NodeFits(node, r)
  {
    assert TrimSlashes("orders") == "orders";
    assert Upper("POST") == "POST";
    assert ExpectedMethod(node) == "POST";
    MatchIsExact("orders", "orders");
    assert FirstWildcard(["orders"]) == 1;
  }
}
