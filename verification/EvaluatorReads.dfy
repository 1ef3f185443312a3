/**
 Which delivered items a later run of their node reads. A batch runs as a whole before any of its
 results is delivered, so items for a node that is still behind in the batch come too late for it, and
 they do not queue it again.
 */
module EvaluatorReads {
  import opened Wrappers
  import opened Graph
  import opened Evaluator
  import opened EvaluatorRounds
  import EvaluatorRuns

  // ---------------------------------------------------------------- following one node through a run

  /** `unread`: items were sent to the node after the inputs of its last run were taken. `missed`: the last
      of them were sent while it was behind in the batch that was being delivered. */
  datatype Mark = Mark(unread: bool, missed: bool)

  const NOTHING: Mark := Mark(false, false)

  predicate SendsTo(c: Context, source: string, output: Output, name: string) {
    !EndsHere(c, source) && CanExecute(c, name) && Sends(c.workflow.connections, source, output, |output|, name)
  }

  /** The results from place `i` on, until one suspends or stops the execution. */
  function MarkBatch(c: Context, batch: seq<Node>, results: seq<NodeResult>, i: nat, name: string, m: Mark): Mark
    requires i <= |batch| == |results|
    decreases |batch| - i
  {
    if i == |batch| || Suspends(results[i]) || Stops(batch[i], results[i]) then m
    else
      var sends := SendsTo(c, batch[i].name, results[i].output, name);
      MarkBatch(c, batch, results, i + 1, name, if sends then Mark(true, name in Names(batch[i + 1..])) else m)
  }

  /** A node that is in the batch reads its inputs as the round begins. */
  function MarkRound(c: Context, s: State, executor: Executor, round: nat, name: string, m: Mark): Mark {
    MarkBatch(c, s.queue, Results(executor, round, |s.queue|), 0, name, if name in Names(s.queue) then NOTHING else m)
  }

  function MarkRounds(c: Context, s: State, executor: Executor, round: nat, ends: nat, name: string, m: Mark): Mark
    decreases if round < ends then ends - round else 0
  {
    if s.queue == [] || round >= ends then m
    else
      var (t, suspended) := Round(c, s, executor, round);
      var marked := MarkRound(c, s, executor, round, name, m);
      if suspended || t.stopped.Some? then marked
      else MarkRounds(c, t, executor, round + 1, ends, name, marked)
  }

  // ---------------------------------------------------------------- a node that nothing is sent to

  predicate Untouched(p: Progress, q: Progress, name: string) {
    NodeInputs(q.inputs, name) == NodeInputs(p.inputs, name)
    && (name in Names(q.next) <==> name in Names(p.next))
  }

  lemma EdgeUntouched(c: Context, p: Progress, items: seq<Item>, edge: Connection, name: string)
    requires edge.node != name || !CanExecute(c, name)
    ensures Untouched(p, DeliverEdge(c, p, items, edge), name)
  {
    var q := DeliverEdge(c, p, items, edge);
    if CanExecute(c, edge.node) {
      assert q.inputs == Put(p.inputs, edge.node, edge.index, items);
      if q.next != p.next {
        NamesAppend(p.next, q.next[|p.next|]);
      }
    }
  }

  lemma {:induction false} EdgesUntouched(c: Context, p: Progress, items: seq<Item>, edges: seq<Connection>, n: nat,
      name: string)
    requires n <= |edges| && (LeadsTo(edges, n, name) ==> !CanExecute(c, name))
    ensures Untouched(p, DeliverEdges(c, p, items, edges, n), name)
  {
    hide DeliverEdge, CanExecute;
    if n > 0 {
      assert LeadsTo(edges, n - 1, name) || edges[n - 1].node == name ==> LeadsTo(edges, n, name);
      EdgesUntouched(c, p, items, edges, n - 1, name);
      EdgeUntouched(c, DeliverEdges(c, p, items, edges, n - 1), items, edges[n - 1], name);
    }
  }

  lemma {:induction false} OutputsUntouched(c: Context, p: Progress, source: string, output: Output, n: nat,
      name: string)
    requires n <= |output| && (Sends(c.workflow.connections, source, output, n, name) ==> !CanExecute(c, name))
    ensures Untouched(p, DeliverOutputs(c, p, source, output, n), name)
  {
    hide CanExecute, DeliverEdges, LeadsTo;
    if n > 0 {
      var edges := OutputEdges(c.workflow.connections, source, MAIN, n - 1);
      assert Sends(c.workflow.connections, source, output, n - 1, name)
             || (output[n - 1] != [] && LeadsTo(edges, |edges|, name))
             ==> Sends(c.workflow.connections, source, output, n, name);
      OutputsUntouched(c, p, source, output, n - 1, name);
      if output[n - 1] != [] {
        EdgesUntouched(c, DeliverOutputs(c, p, source, output, n - 1), output[n - 1], edges, |edges|, name);
      }
    }
  }

  lemma {:induction false} EnqueuesNoOther(queue: seq<Node>, queued: set<string>, next: seq<Node>, n: nat, name: string)
    requires n <= |next| && name !in Names(next)
    ensures name in Names(Enqueue(queue, queued, next, n).0) <==> name in Names(queue)
  {
    if n > 0 {
      EnqueuesNoOther(queue, queued, next, n - 1, name);
      NamesAppend(Enqueue(queue, queued, next, n - 1).0, next[n - 1]);
      assert next[n - 1].name in Names(next);
    }
  }

  lemma HandleUntouched(c: Context, s: State, node: Node, result: NodeResult, name: string)
    requires !SendsTo(c, node.name, result.output, name)
    ensures var t := Handle(c, s, node, result);
      NodeInputs(t.inputs, name) == NodeInputs(s.inputs, name) && (name in Names(t.queue) <==> name in Names(s.queue))
  {
    var p := Deliver(c, s.inputs, node.name, result.output);
    var empty := Progress(s.inputs, [], {});
    if !EndsHere(c, node.name) {
      OutputsUntouched(c, empty, node.name, result.output, |result.output|, name);
    }
    assert Untouched(empty, p, name) && name !in Names(p.next);
    EnqueuesNoOther(s.queue, Record(s, node, result).queued, p.next, |p.next|, name);
    hide Deliver, CanExecute, Sends, Enqueue;
  }

  // ---------------------------------------------------------------- unread means missed

  /** Unread items of a node that could run: it is queued, unless they were missed. */
  predicate MarkAgrees(c: Context, s: State, name: string, m: Mark) {
    && (m.missed ==> m.unread)
    && (m.unread && Full(c, s.inputs, name) ==> (name in Names(s.queue) <==> !m.missed))
  }

  lemma HandleMarks(c: Context, s: State, rest: seq<Node>, result: NodeResult, name: string, m: Mark)
    requires rest != [] && QueuedOnce(s, rest) && s.stopped.None? && !Stops(rest[0], result)
    requires IsEnabled(c, name) && CanExecute(c, name) && MarkAgrees(c, s, name, m)
    ensures MarkAgrees(c, Handle(c, s, rest[0], result), name,
                       if SendsTo(c, rest[0].name, result.output, name)
                       then Mark(true, name in Names(rest[1..])) else m)
  {
    var t := Handle(c, s, rest[0], result);
    if !SendsTo(c, rest[0].name, result.output, name) {
      HandleUntouched(c, s, rest[0], result, name);
    } else if Full(c, t.inputs, name) {
      ReadyIsQueued(c, s, rest, result, name);
    }
    hide Handle, Sends, EndsHere, CanExecute;
  }

  lemma {:induction false} BatchMarks(c: Context, s: State, batch: seq<Node>, results: seq<NodeResult>, i: nat,
      name: string, m: Mark)
    requires i <= |batch| == |results| && QueuedOnce(s, batch[i..]) && s.stopped.None?
    requires IsEnabled(c, name) && CanExecute(c, name) && MarkAgrees(c, s, name, m)
    ensures var (t, suspended) := HandleFrom(c, s, batch, results, i);
      !suspended && t.stopped.None? ==>
        QueuedOnce(t, []) && MarkAgrees(c, t, name, MarkBatch(c, batch, results, i, name, m))
    decreases |batch| - i
  {
    hide MarkAgrees, IsEnabled, CanExecute, SendsTo, QueuedOnce, Suspends;
    assert i == |batch| ==> batch[i..] == [];
    if i < |batch| && !Suspends(results[i]) {
      var rest, t := batch[i..], Handle(c, s, batch[i], results[i]);
      assert rest[0] == batch[i] && rest[1..] == batch[i + 1..];
      HandleOnce(c, s, rest, results[i]);
      if Stops(batch[i], results[i]) {
        EvaluatorRuns.StoppedStays(c, t, batch, results, i + 1);
      } else {
        HandleMarks(c, s, rest, results[i], name, m);
        var sends := SendsTo(c, batch[i].name, results[i].output, name);
        BatchMarks(c, t, batch, results, i + 1, name, if sends then Mark(true, name in Names(batch[i + 1..])) else m);
      }
    }
  }

  lemma RoundMarks(c: Context, s: State, executor: Executor, round: nat, name: string, m: Mark)
    requires QueuedOnce(s, []) && s.stopped.None?
    requires IsEnabled(c, name) && CanExecute(c, name) && MarkAgrees(c, s, name, m)
    ensures var (t, suspended) := Round(c, s, executor, round);
      !suspended && t.stopped.None? ==>
        QueuedOnce(t, []) && MarkAgrees(c, t, name, MarkRound(c, s, executor, round, name, m))
  {
    var begun := s.(queue := []);
    assert s.queue[0..] == s.queue && QueuedOnce(begun, s.queue);
    var read := if name in Names(s.queue) then NOTHING else m;
    assert MarkAgrees(c, begun, name, read);
    BatchMarks(c, begun, s.queue, Results(executor, round, |s.queue|), 0, name, read);
  }

  lemma {:induction false} RoundsMark(c: Context, s: State, executor: Executor, round: nat, ends: nat, name: string,
      m: Mark)
    requires QueuedOnce(s, []) && s.stopped.None?
    requires IsEnabled(c, name) && CanExecute(c, name) && MarkAgrees(c, s, name, m)
    ensures var r := Rounds(c, s, executor, round, ends);
      r.status.Succeeded? || r.status.Canceled? ==>
        MarkAgrees(c, r.state, name, MarkRounds(c, s, executor, round, ends, name, m))
        && (r.status.Succeeded? ==> r.state.queue == [])
    decreases if round < ends then ends - round else 0
  {
    hide MarkAgrees, IsEnabled, CanExecute, QueuedOnce, MarkRound;
    if s.queue != [] && round < ends {
      RoundMarks(c, s, executor, round, name, m);
      var (t, suspended) := Round(c, s, executor, round);
      if !suspended && t.stopped.None? {
        RoundsMark(c, t, executor, round + 1, ends, name, MarkRound(c, s, executor, round, name, m));
      }
    }
  }

  /** When an execution succeeds, an enabled and permitted node with full inputs has run after the last
      items were sent to it, unless exactly these were sent while it was behind in the batch. */
  lemma UnreadExactly(c: Context, inputs: Inputs, runData: RunData, start: seq<Node>, executor: Executor, ends: nat,
      name: string)
    requires DistinctNames(start) && IsEnabled(c, name) && CanExecute(c, name)
    requires var r := Rounds(c, StartState(inputs, runData, start), executor, 0, ends);
      r.status.Succeeded? && Full(c, r.state.inputs, name)
    ensures var m := MarkRounds(c, StartState(inputs, runData, start), executor, 0, ends, name, NOTHING);
      m.unread <==> m.missed
  {
    RoundsMark(c, StartState(inputs, runData, start), executor, 0, ends, name, NOTHING);
  }

  // ---------------------------------------------------------------- workflows that lose nothing

  /** All walks from a start node to the node are of one length. */
  ghost predicate OneLength(c: Context, start: set<string>, name: string) {
    forall j: nat, k: nat | Reached(c, start, name, j) && Reached(c, start, name, k) :: j == k
  }

  lemma SentIsNext(c: Context, start: set<string>, source: string, output: Output, name: string, k: nat)
    requires Reached(c, start, source, k) && IsEnabled(c, name) && SendsTo(c, source, output, name)
    ensures Reached(c, start, name, k + 1)
  {
    var connections := c.workflow.connections;
    var o :| 0 <= o < |output| && output[o] != []
      && LeadsTo(OutputEdges(connections, source, MAIN, o), |OutputEdges(connections, source, MAIN, o)|, name);
    var edge :| edge in OutputEdges(connections, source, MAIN, o) && edge.node == name;
    assert HasEdge(connections, Edge(source, MAIN, o, edge.node, edge.index));
    ReachedNext(c, start, source, k, LastNamed(c.workflow.nodes, name).value);
  }

  lemma {:induction false} BatchMissesNothing(c: Context, start: set<string>, batch: seq<Node>,
      results: seq<NodeResult>, i: nat, name: string, m: Mark, k: nat)
    requires i <= |batch| == |results| && AllReached(c, start, batch, k)
    requires IsEnabled(c, name) && OneLength(c, start, name) && !m.missed
    ensures !MarkBatch(c, batch, results, i, name, m).missed
    decreases |batch| - i
  {
    hide IsEnabled, SendsTo, Reached;
    if i < |batch| && !Suspends(results[i]) && !Stops(batch[i], results[i]) {
      var sends := SendsTo(c, batch[i].name, results[i].output, name);
      if sends {
        SentIsNext(c, start, batch[i].name, results[i].output, name, k);
        assert forall node | node in batch[i + 1..] :: node in batch;
        assert name !in Names(batch[i + 1..]);
      }
      BatchMissesNothing(c, start, batch, results, i + 1, name, if sends then Mark(true, false) else m, k);
    }
  }

  lemma {:induction false} RoundsMissNothing(c: Context, start: set<string>, s: State, executor: Executor, round: nat,
      ends: nat, name: string, m: Mark)
    requires Prepared(c) && AllReached(c, start, s.queue, round)
    requires IsEnabled(c, name) && OneLength(c, start, name) && !m.missed
    ensures !MarkRounds(c, s, executor, round, ends, name, m).missed
    decreases if round < ends then ends - round else 0
  {
    hide IsEnabled, OneLength, AllReached, Found;
    if s.queue != [] && round < ends {
      var read := if name in Names(s.queue) then NOTHING else m;
      BatchMissesNothing(c, start, s.queue, Results(executor, round, |s.queue|), 0, name, read, round);
      RoundFinds(c, start, s, executor, round);
      var (t, suspended) := Round(c, s, executor, round);
      if !suspended && t.stopped.None? {
        RoundsMissNothing(c, start, t, executor, round + 1, ends, name, MarkRound(c, s, executor, round, name, m));
      }
    }
  }

  /** Seen from the workflow alone: if all walks from the start nodes to a node are of one length, then an
      execution that succeeds leaves none of its items unread. */
  lemma OneLengthReadsAll(c: Context, inputs: Inputs, runData: RunData, start: seq<Node>, executor: Executor,
      ends: nat, name: string)
    requires Prepared(c) && FromWorkflow(c, start) && DistinctNames(start)
    requires IsEnabled(c, name) && CanExecute(c, name) && OneLength(c, Names(start), name)
    requires var r := Rounds(c, StartState(inputs, runData, start), executor, 0, ends);
      r.status.Succeeded? && Full(c, r.state.inputs, name)
    ensures !MarkRounds(c, StartState(inputs, runData, start), executor, 0, ends, name, NOTHING).unread
  {
    UnreadExactly(c, inputs, runData, start, executor, ends, name);
    StartsReached(c, start);
    RoundsMissNothing(c, Names(start), StartState(inputs, runData, start), executor, 0, ends, name, NOTHING);
  }

  // ---------------------------------------------------------------- items that no run reads

  const ITEMS: seq<Item> := [Item("x")]

  function Step(name: string): Node {
    Node(name, "n8n-nodes-base.set", false, None, false)
  }

  /** "s" leads to "a" and "b", in this order, and "a" leads to "b": all to input 0. */
  function Shortcut(): Workflow {
    Workflow([Step("s"), Step("a"), Step("b")],
             map["s" := map[MAIN := [[Connection("a", 0), Connection("b", 0)]]],
                 "a" := map[MAIN := [[Connection("b", 0)]]]])
  }

  /** Every node passes one item on. */
  function PassOn(): Executor {
    (round, place) => NodeResult([ITEMS], None)
  }

  lemma ShortcutInputs(c: Context)
    requires c.workflow == Shortcut() && Prepared(c)
    ensures forall name :: InputCount(c.inverted, name, MAIN) <= 1
    ensures forall name | name in {"s", "a", "b"} :: LastNamed(c.workflow.nodes, name) == Some(Step(name))
  {
    forall name
      ensures InputCount(c.inverted, name, MAIN) <= 1
    {
      assert 1 < InputCount(c.inverted, name, MAIN) ==> EntersFrom(c.workflow.connections, name, MAIN, 1);
    }
    LastNamedAt(c.workflow.nodes, "s", 0);
    LastNamedAt(c.workflow.nodes, "a", 1);
    LastNamedAt(c.workflow.nodes, "b", 2);
  }

  /** One item along one edge to a node that is then found. */
  lemma EdgeFindsStep(c: Context, p: Progress, name: string)
    requires c.workflow == Shortcut() && Prepared(c) && c.allowed.None? && c.destination.None?
    requires name in {"a", "b"} && name !in p.found
    ensures DeliverEdge(c, p, ITEMS, Connection(name, 0)) ==
            Progress(Put(p.inputs, name, 0, ITEMS), p.next + [Step(name)], p.found + {name})
  {
    ShortcutInputs(c);
    assert 0 in Put(p.inputs, name, 0, ITEMS)[name];
  }

  ghost predicate IsShortcut(c: Context) {
    c.workflow == Shortcut() && Prepared(c) && c.allowed.None? && c.destination.None?
  }

  const PASSED: NodeResult := NodeResult([ITEMS], None)

  lemma DeliversOneOutput(c: Context, inputs: Inputs, source: string)
    requires c.destination.None?
    ensures var edges := OutputEdges(c.workflow.connections, source, MAIN, 0);
      Deliver(c, inputs, source, [ITEMS]) == DeliverEdges(c, Progress(inputs, [], {}), ITEMS, edges, |edges|)
  {
    var p := Progress(inputs, [], {});
    assert DeliverOutputs(c, p, source, [ITEMS], 0) == p;
  }

  lemma DeliverFirst(c: Context)
    requires IsShortcut(c)
    ensures Deliver(c, map[], "s", [ITEMS]) ==
            Progress(Put(Put(map[], "a", 0, ITEMS), "b", 0, ITEMS), [Step("a"), Step("b")], {"a", "b"})
  {
    var p := Progress(map[], [], {});
    var edges := [Connection("a", 0), Connection("b", 0)];
    DeliversOneOutput(c, map[], "s");
    hide DeliverEdge, Put, Deliver, OutputEdges;
    assert DeliverEdges(c, p, ITEMS, edges, 0) == p;
    EdgeFindsStep(c, p, "a");
    var q := DeliverEdges(c, p, ITEMS, edges, 1);
    assert q == Progress(Put(map[], "a", 0, ITEMS), [Step("a")], {"a"});
    EdgeFindsStep(c, q, "b");
  }

  lemma DeliverSecond(c: Context, inputs: Inputs)
    requires IsShortcut(c)
    ensures Deliver(c, inputs, "a", [ITEMS]) == Progress(Put(inputs, "b", 0, ITEMS), [Step("b")], {"b"})
  {
    var p := Progress(inputs, [], {});
    var edges := [Connection("b", 0)];
    DeliversOneOutput(c, inputs, "a");
    hide DeliverEdge, Put, Deliver, OutputEdges;
    assert DeliverEdges(c, p, ITEMS, edges, 0) == p;
    EdgeFindsStep(c, p, "b");
  }

  lemma EnqueueBoth()
    ensures Enqueue([], {}, [Step("a"), Step("b")], 2) == ([Step("a"), Step("b")], {"a", "b"})
    ensures Enqueue([], {"b"}, [Step("b")], 1) == ([], {"b"})
  {
    var next, none: seq<Node>, names: set<string> := [Step("a"), Step("b")], [], {};
    assert Enqueue(none, names, next, 0) == (none, names);
    assert next[0].name == "a" && next[1].name == "b";
    assert Enqueue(none, names, next, 1) == (none + [next[0]], names + {"a"});
    assert "b" !in names + {"a"};
    assert Enqueue(none, names, next, 2) == (none + [next[0]] + [next[1]], names + {"a"} + {"b"});
    assert none + [next[0]] + [next[1]] == next && names + {"a"} + {"b"} == {"a", "b"};
    assert Enqueue([], {"b"}, [Step("b")], 0) == ([], {"b"});
  }

  lemma HandleFirst(c: Context, s: State)
    requires IsShortcut(c) && s == StartState(map[], map[], [Step("s")]).(queue := [])
    ensures var t := Handle(c, s, Step("s"), PASSED);
      && t.inputs == Put(Put(map[], "a", 0, ITEMS), "b", 0, ITEMS) && t.queue == [Step("a"), Step("b")]
      && t.queued == {"a", "b"} && t.stopped.None? && t.runData.Keys == {"s"}
  {
    DeliverFirst(c);
    EnqueueBoth();
    assert s.queued - {"s"} == {};
    hide Deliver, Enqueue, Put, Prepared;
  }

  lemma HandleSecond(c: Context, s: State)
    requires IsShortcut(c) && s.queue == [] && s.queued == {"a", "b"} && s.stopped.None? && s.runData.Keys == {"s"}
    ensures var t := Handle(c, s, Step("a"), PASSED);
      && t.inputs == Put(s.inputs, "b", 0, ITEMS) && t.queue == [] && t.queued == {"b"} && t.stopped.None?
      && t.runData.Keys == {"s", "a"}
  {
    DeliverSecond(c, s.inputs);
    EnqueueBoth();
    assert s.queued - {"a"} == {"b"};
    hide Deliver, Enqueue, Put, Prepared;
  }

  lemma HandleThird(c: Context, s: State)
    requires IsShortcut(c) && s.queue == [] && s.queued == {"b"} && s.stopped.None? && s.runData.Keys == {"s", "a"}
    ensures var t := Handle(c, s, Step("b"), PASSED);
      && t.inputs == s.inputs && t.queue == [] && t.stopped.None? && Runs(t, "b") == 1
  {
    DeliversOneOutput(c, s.inputs, "b");
  }

  lemma FirstRound(c: Context) returns (t: State)
    requires IsShortcut(c)
    ensures Round(c, StartState(map[], map[], [Step("s")]), PassOn(), 0) == (t, false)
    ensures t.inputs == Put(Put(map[], "a", 0, ITEMS), "b", 0, ITEMS) && t.queue == [Step("a"), Step("b")]
    ensures t.queued == {"a", "b"} && t.stopped.None? && t.runData.Keys == {"s"}
  {
    var s, batch := StartState(map[], map[], [Step("s")]), [Step("s")];
    assert s.queued == {"s"};
    var results := Results(PassOn(), 0, 1);
    assert results == [PASSED];
    HandleFirst(c, s.(queue := []));
    t := Handle(c, s.(queue := []), Step("s"), PASSED);
    assert HandleFrom(c, t, batch, results, 1) == (t, false);
    hide Handle;
    assert HandleFrom(c, s.(queue := []), batch, results, 0) == (t, false);
  }

  lemma SecondRound(c: Context, s: State) returns (t: State)
    requires IsShortcut(c) && s.queue == [Step("a"), Step("b")]
    requires s.queued == {"a", "b"} && s.stopped.None? && s.runData.Keys == {"s"}
    ensures Round(c, s, PassOn(), 1) == (t, false)
    ensures t.inputs == Put(s.inputs, "b", 0, ITEMS) && t.queue == [] && t.stopped.None? && Runs(t, "b") == 1
  {
    var batch, results := s.queue, Results(PassOn(), 1, 2);
    assert results == [PASSED, PASSED];
    var begun := s.(queue := []);
    HandleSecond(c, begun);
    var u := Handle(c, begun, Step("a"), PASSED);
    HandleThird(c, u);
    t := Handle(c, u, Step("b"), PASSED);
    assert HandleFrom(c, t, batch, results, 2) == (t, false);
    hide Handle;
    assert HandleFrom(c, u, batch, results, 1) == (t, false);
    assert HandleFrom(c, begun, batch, results, 0) == (t, false);
  }

  lemma SecondRoundMisses(c: Context, s: State, m: Mark)
    requires IsShortcut(c) && s.queue == [Step("a"), Step("b")]
    ensures MarkRound(c, s, PassOn(), 1, "b", m) == Mark(true, true)
  {
    var batch, results := s.queue, Results(PassOn(), 1, 2);
    assert results == [PASSED, PASSED];
    assert Step("b") in batch && batch[1..] == [Step("b")];
    assert Step("b") in batch[1..] && "b" in Names(batch[1..]);
    assert OutputEdges(c.workflow.connections, "a", MAIN, 0)[0].node == "b";
    assert LeadsTo(OutputEdges(c.workflow.connections, "a", MAIN, 0), 1, "b");
    assert SendsTo(c, "a", [ITEMS], "b");
    assert OutputEdges(c.workflow.connections, "b", MAIN, 0) == [] && !SendsTo(c, "b", [ITEMS], "b");
    assert MarkBatch(c, batch, results, 2, "b", Mark(true, true)) == Mark(true, true);
    assert MarkBatch(c, batch, results, 1, "b", Mark(true, true)) == Mark(true, true);
  }

  /** The execution of the shortcut succeeds after two rounds. "b" ran once, in the same round as "a", on
      the item from "s"; the item from "a" lies in its input and is never read. */
  lemma ShortcutLosesItem(c: Context)
    requires IsShortcut(c)
    ensures var s := StartState(map[], map[], [Step("s")]);
      var cut, r := Rounds(c, s, PassOn(), 0, 1), Rounds(c, s, PassOn(), 0, 2);
      && cut.status.Canceled? && cut.state.queue == [Step("a"), Step("b")] && ItemsAt(cut.state.inputs, "b", 0) == ITEMS
      && r.status.Succeeded? && Runs(r.state, "b") == 1 && ItemsAt(r.state.inputs, "b", 0) == ITEMS + ITEMS
      && MarkRounds(c, s, PassOn(), 0, 2, "b", NOTHING) == Mark(true, true)
  {
    var s := StartState(map[], map[], [Step("s")]);
    var t := FirstRound(c);
    var u := SecondRound(c, t);
    assert Rounds(c, t, PassOn(), 1, 1) == Execution(Canceled, t, 1);
    assert Rounds(c, u, PassOn(), 2, 2) == Execution(Succeeded, u, 2);
    assert Rounds(c, t, PassOn(), 1, 2) == Execution(Succeeded, u, 2);
    var m := MarkRound(c, s, PassOn(), 0, "b", NOTHING);
    SecondRoundMisses(c, t, m);
    hide MarkRound, Round;
    assert MarkRounds(c, u, PassOn(), 2, 2, "b", Mark(true, true)) == Mark(true, true);
    assert MarkRounds(c, t, PassOn(), 1, 2, "b", m) == Mark(true, true);
  }
}
