/** What every execution keeps: items are conserved, outputs are recorded, and how its rounds end. */
module EvaluatorRuns {
  import opened Wrappers
  import opened Graph
  import opened Evaluator

  // ---------------------------------------------------------------- items are conserved

  function Repeat(items: seq<Item>, times: nat): seq<Item> {
    if times == 0 then [] else Repeat(items, times - 1) + items
  }

  /** What the first `n` outputs send to one input: each of them once for every edge into it. */
  function SentBy(c: Connections, source: string, output: Output, n: nat, to: Connection): seq<Item>
    requires n <= |output|
  {
    if n == 0 then []
    else
      var edges := OutputEdges(c, source, MAIN, n - 1);
      SentBy(c, source, output, n - 1, to) + Repeat(output[n - 1], multiset(edges)[to])
  }

  /** What the delivered outputs send to one input, in delivery order. Nothing is sent to a node that
      may not run, nor by the destination itself when it is included. */
  function Sent(c: Context, log: seq<Delivery>, to: Connection): seq<Item>
    decreases |log|
  {
    if log == [] || !CanExecute(c, to.node) then []
    else
      var d := log[|log| - 1];
      var sent :=
        if EndsHere(c, d.source) then [] else SentBy(c.workflow.connections, d.source, d.output, |d.output|, to);
      Sent(c, log[..|log| - 1], to) + sent
  }

  /** `after` holds what `before` held, then `sent`; an entry is there if it was or something came. */
  predicate Gained(before: Inputs, after: Inputs, to: Connection, sent: seq<Item>) {
    && ItemsAt(after, to.node, to.index) == ItemsAt(before, to.node, to.index) + sent
    && (to.index in NodeInputs(after, to.node) <==> (to.index in NodeInputs(before, to.node) || sent != []))
  }

  lemma GainedThen(before: Inputs, middle: Inputs, after: Inputs, to: Connection, first: seq<Item>, second: seq<Item>)
    requires Gained(before, middle, to, first) && Gained(middle, after, to, second)
    ensures Gained(before, after, to, first + second)
  {
    assert ItemsAt(before, to.node, to.index) + first + second == ItemsAt(before, to.node, to.index) + (first + second);
  }

  lemma EdgeSends(c: Context, p: Progress, items: seq<Item>, edge: Connection, to: Connection)
    requires items != []
    ensures Gained(p.inputs, DeliverEdge(c, p, items, edge).inputs, to,
                   if CanExecute(c, to.node) && edge == to then items else [])
  {
    assert DeliverEdge(c, p, items, edge).inputs ==
           if CanExecute(c, edge.node) then Put(p.inputs, edge.node, edge.index, items) else p.inputs;
  }

  function SentAlong(c: Context, items: seq<Item>, edges: seq<Connection>, to: Connection): seq<Item> {
    if CanExecute(c, to.node) then Repeat(items, multiset(edges)[to]) else []
  }

  lemma SentAlongOneMore(c: Context, items: seq<Item>, edges: seq<Connection>, edge: Connection, to: Connection)
    ensures SentAlong(c, items, edges + [edge], to) ==
            SentAlong(c, items, edges, to) + if CanExecute(c, to.node) && edge == to then items else []
  {
    assert multiset(edges + [edge]) == multiset(edges) + multiset{edge};
  }

  lemma {:induction false} EdgesSend(c: Context, p: Progress, items: seq<Item>, edges: seq<Connection>, n: nat,
      to: Connection)
    requires n <= |edges| && items != []
    ensures Gained(p.inputs, DeliverEdges(c, p, items, edges, n).inputs, to, SentAlong(c, items, edges[..n], to))
  {
    if n > 0 {
      EdgesSend(c, p, items, edges, n - 1, to);
      var q, r := DeliverEdges(c, p, items, edges, n - 1), DeliverEdges(c, p, items, edges, n);
      var sent := if CanExecute(c, to.node) && edges[n - 1] == to then items else [];
      assert Gained(q.inputs, r.inputs, to, sent) by {
        EdgeSends(c, q, items, edges[n - 1], to);
      }
      GainedThen(p.inputs, q.inputs, r.inputs, to, SentAlong(c, items, edges[..n - 1], to), sent);
      assert SentAlong(c, items, edges[..n], to) == SentAlong(c, items, edges[..n - 1], to) + sent by {
        assert edges[..n] == edges[..n - 1] + [edges[n - 1]];
        SentAlongOneMore(c, items, edges[..n - 1], edges[n - 1], to);
      }
    }
  }

  lemma {:induction false} OutputsSend(c: Context, p: Progress, source: string, output: Output, n: nat, to: Connection)
    requires n <= |output|
    ensures Gained(p.inputs, DeliverOutputs(c, p, source, output, n).inputs, to,
                   if CanExecute(c, to.node) then SentBy(c.workflow.connections, source, output, n, to) else [])
  {
    if n > 0 {
      OutputsSend(c, p, source, output, n - 1, to);
      var q := DeliverOutputs(c, p, source, output, n - 1);
      var edges := OutputEdges(c.workflow.connections, source, MAIN, n - 1);
      var sent := SentAlong(c, output[n - 1], edges, to);
      if output[n - 1] == [] {
        RepeatNothing(multiset(edges)[to]);
      } else {
        EdgesSend(c, q, output[n - 1], edges, |edges|, to);
        assert edges[..|edges|] == edges;
      }
      GainedThen(p.inputs, q.inputs, DeliverOutputs(c, p, source, output, n).inputs, to,
        if CanExecute(c, to.node) then SentBy(c.workflow.connections, source, output, n - 1, to) else [], sent);
    }
  }

  lemma {:induction false} RepeatNothing(times: nat)
    ensures Repeat([], times) == []
  {
    if times > 0 {
      RepeatNothing(times - 1);
    }
  }

  /** The input holds its initial items, then all that was sent to it. */
  predicate Conserves(c: Context, initial: Inputs, s: State, to: Connection) {
    Gained(initial, s.inputs, to, Sent(c, s.log, to))
  }

  lemma HandleConserves(c: Context, initial: Inputs, s: State, node: Node, result: NodeResult, to: Connection)
    requires Conserves(c, initial, s, to)
    ensures Conserves(c, initial, Handle(c, s, node, result), to)
  {
    var t := Handle(c, s, node, result);
    if t.log != s.log {
      assert t.log[..|t.log| - 1] == s.log;
      if !EndsHere(c, node.name) {
        var sent :=
          if CanExecute(c, to.node)
          then SentBy(c.workflow.connections, node.name, result.output, |result.output|, to) else [];
        OutputsSend(c, Progress(s.inputs, [], {}), node.name, result.output, |result.output|, to);
        GainedThen(initial, s.inputs, t.inputs, to, Sent(c, s.log, to), sent);
      }
    }
  }

  lemma {:induction false} BatchConserves(c: Context, initial: Inputs, s: State, batch: seq<Node>,
      results: seq<NodeResult>, i: nat, to: Connection, end: State)
    requires i <= |batch| == |results| && end == HandleFrom(c, s, batch, results, i).0
    requires Conserves(c, initial, s, to)
    ensures Conserves(c, initial, end, to)
    decreases |batch| - i
  {
    if i == |batch| {
      assert end == s;
    } else if Suspends(results[i]) {
      assert end.inputs == s.inputs && end.log == s.log;
    } else {
      var t := Handle(c, s, batch[i], results[i]);
      HandleConserves(c, initial, s, batch[i], results[i], to);
      BatchConserves(c, initial, t, batch, results, i + 1, to, end);
    }
  }

  lemma RoundConserves(c: Context, initial: Inputs, s: State, executor: Executor, round: nat, to: Connection)
    requires Conserves(c, initial, s, to)
    ensures Conserves(c, initial, Round(c, s, executor, round).0, to)
  {
    BatchConserves(c, initial, s.(queue := []), s.queue, Results(executor, round, |s.queue|), 0, to,
      Round(c, s, executor, round).0);
  }

  lemma {:induction false} RoundsConserve(c: Context, initial: Inputs, s: State, executor: Executor, round: nat,
      ends: nat, to: Connection)
    requires Conserves(c, initial, s, to)
    ensures Conserves(c, initial, Rounds(c, s, executor, round, ends).state, to)
    decreases if round < ends then ends - round else 0
  {
    if s.queue != [] && round < ends {
      RoundConserves(c, initial, s, executor, round, to);
      var (t, suspended) := Round(c, s, executor, round);
      if !suspended && t.stopped.None? {
        RoundsConserve(c, initial, t, executor, round + 1, ends, to);
      }
    }
  }

  /** Wherever an execution ends or is cut off, every input holds its initial items followed by
      everything sent to it, in delivery order, and has an entry only if one of the two gave it one. */
  lemma ItemsAreConserved(c: Context, inputs: Inputs, runData: RunData, start: seq<Node>, executor: Executor,
      ends: nat, to: Connection)
    ensures var t := Rounds(c, StartState(inputs, runData, start), executor, 0, ends).state;
      Gained(inputs, t.inputs, to, Sent(c, t.log, to))
  {
    RoundsConserve(c, inputs, StartState(inputs, runData, start), executor, 0, ends, to);
  }

  // ---------------------------------------------------------------- what was sent is what was recorded

  function Outputs(tasks: seq<Task>): seq<Output> {
    seq(|tasks|, (i: nat) requires i < |tasks| => tasks[i].output)
  }

  function TasksOf(runData: RunData, name: string): seq<Task> {
    if name in runData then runData[name] else []
  }

  function DeliveredBy(log: seq<Delivery>, name: string): seq<Output>
    decreases |log|
  {
    if log == [] then []
    else
      var d := log[|log| - 1];
      DeliveredBy(log[..|log| - 1], name) + if d.source == name then [d.output] else []
  }

  /** The delivered outputs of a node are those of its new tasks. */
  predicate Logged(before: RunData, s: State, name: string) {
    Outputs(TasksOf(s.runData, name)) == Outputs(TasksOf(before, name)) + DeliveredBy(s.log, name)
  }

  lemma OutputsAppend(tasks: seq<Task>, task: Task)
    ensures Outputs(tasks + [task]) == Outputs(tasks) + [task.output]
  {}

  lemma HandleLogs(c: Context, before: RunData, s: State, node: Node, result: NodeResult, name: string)
    requires Logged(before, s, name) && s.stopped.None? && !Stops(node, result)
    ensures Logged(before, Handle(c, s, node, result), name)
  {
    var t := Handle(c, s, node, result);
    var task: Task :| task.output == result.output
      && t.runData == s.runData[node.name := TasksOf(s.runData, node.name) + [task]];
    if node.name == name {
      OutputsAppend(TasksOf(s.runData, name), task);
    } else {
      assert TasksOf(t.runData, name) == TasksOf(s.runData, name);
    }
  }

  lemma {:induction false} StoppedStays(c: Context, s: State, batch: seq<Node>, results: seq<NodeResult>, i: nat)
    requires i <= |batch| == |results| && s.stopped.Some?
    ensures var t := HandleFrom(c, s, batch, results, i).0;
      t.stopped == s.stopped && t.inputs == s.inputs && t.log == s.log && t.queue == s.queue
    decreases |batch| - i
  {
    if i < |batch| && !Suspends(results[i]) {
      StoppedStays(c, Handle(c, s, batch[i], results[i]), batch, results, i + 1);
    }
  }

  lemma {:induction false} BatchLogs(c: Context, before: RunData, s: State, batch: seq<Node>,
      results: seq<NodeResult>, i: nat, name: string)
    requires i <= |batch| == |results| && Logged(before, s, name) && s.stopped.None?
    ensures var (t, suspended) := HandleFrom(c, s, batch, results, i);
      !suspended && t.stopped.None? ==> Logged(before, t, name)
    decreases |batch| - i
  {
    if i < |batch| && !Suspends(results[i]) {
      var t := Handle(c, s, batch[i], results[i]);
      if Stops(batch[i], results[i]) {
        StoppedStays(c, t, batch, results, i + 1);
      } else {
        HandleLogs(c, before, s, batch[i], results[i], name);
        BatchLogs(c, before, t, batch, results, i + 1, name);
      }
    }
  }

  lemma {:induction false} RoundsLog(c: Context, before: RunData, s: State, executor: Executor, round: nat, ends: nat,
      name: string)
    requires Logged(before, s, name) && s.stopped.None?
    ensures var r := Rounds(c, s, executor, round, ends);
      r.status.Succeeded? || r.status.Canceled? ==> Logged(before, r.state, name)
    decreases if round < ends then ends - round else 0
  {
    if s.queue != [] && round < ends {
      BatchLogs(c, before, s.(queue := []), s.queue, Results(executor, round, |s.queue|), 0, name);
      var (t, suspended) := Round(c, s, executor, round);
      if !suspended && t.stopped.None? {
        RoundsLog(c, before, t, executor, round + 1, ends, name);
      }
    }
  }

  /** Between rounds, and at the end of an execution that succeeds, each node has delivered exactly the
      outputs recorded for its new tasks, in order. */
  lemma RecordedIsDelivered(c: Context, inputs: Inputs, runData: RunData, start: seq<Node>, executor: Executor,
      ends: nat, name: string)
    ensures var r := Rounds(c, StartState(inputs, runData, start), executor, 0, ends);
      r.status.Succeeded? || r.status.Canceled? ==>
        Outputs(TasksOf(r.state.runData, name)) == Outputs(TasksOf(runData, name)) + DeliveredBy(r.state.log, name)
  {
    RoundsLog(c, runData, StartState(inputs, runData, start), executor, 0, ends, name);
  }

  // ---------------------------------------------------------------- how a round ends

  /** A result after which the round delivers nothing more: the node suspended, its context ended, or it
      failed without leave to go on. Its own setting for errors counts before the older one. */
  predicate EndsRound(node: Node, result: NodeResult) {
    match result.error
    case None => false
    case Some(NodeFailed) => if node.onError.Some? then node.onError == Some(StopWorkflow) else !node.continueOnFail
    case Some(_) => true
  }

  lemma EndsOrNot(node: Node, result: NodeResult)
    ensures EndsRound(node, result) <==> Suspends(result) || Stops(node, result)
    ensures Suspends(result) <==> result.error == Some(Suspended)
  {}

  /** The first result from place `i` on that ends the round, or |batch|. */
  function FirstEnding(batch: seq<Node>, results: seq<NodeResult>, i: nat): (k: nat)
    requires i <= |batch| == |results|
    ensures i <= k <= |batch| && (k < |batch| ==> EndsRound(batch[k], results[k]))
    ensures forall j | i <= j < k :: !EndsRound(batch[j], results[j])
    decreases |batch| - i
  {
    if i == |batch| || EndsRound(batch[i], results[i]) then i else FirstEnding(batch, results, i + 1)
  }

  function Deliveries(batch: seq<Node>, results: seq<NodeResult>, from: nat, to: nat): seq<Delivery>
    requires from <= to <= |batch| == |results|
  {
    seq(to - from, (j: nat) requires j < to - from => Delivery(batch[from + j].name, results[from + j].output))
  }

  lemma {:induction false} SuspendsInBatch(c: Context, s: State, batch: seq<Node>, results: seq<NodeResult>, i: nat)
    requires i <= |batch| == |results|
    ensures HandleFrom(c, s, batch, results, i).1 <==> exists j :: i <= j < |batch| && Suspends(results[j])
    decreases |batch| - i
  {
    if i < |batch| && !Suspends(results[i]) {
      SuspendsInBatch(c, Handle(c, s, batch[i], results[i]), batch, results, i + 1);
    }
  }

  lemma HandleDelivers(c: Context, s: State, node: Node, result: NodeResult)
    requires s.stopped.None?
    ensures var t := Handle(c, s, node, result);
      && t.log == s.log + (if Stops(node, result) then [] else [Delivery(node.name, result.output)])
      && t.stopped == (if Stops(node, result) then result.error else None)
      && (Stops(node, result) ==> result.error.Some?)
  {}

  lemma DeliveriesFromFirst(batch: seq<Node>, results: seq<NodeResult>, i: nat, k: nat)
    requires i < k <= |batch| == |results|
    ensures Deliveries(batch, results, i, k) ==
            [Delivery(batch[i].name, results[i].output)] + Deliveries(batch, results, i + 1, k)
  {}

  lemma {:induction false} BatchOutcome(c: Context, s: State, batch: seq<Node>, results: seq<NodeResult>, i: nat)
    requires i <= |batch| == |results| && s.stopped.None?
    ensures var t, k := HandleFrom(c, s, batch, results, i).0, FirstEnding(batch, results, i);
      && t.log == s.log + Deliveries(batch, results, i, k)
      && t.stopped == if k < |batch| && !Suspends(results[k]) then results[k].error else None
    decreases |batch| - i
  {
    var k := FirstEnding(batch, results, i);
    assert Deliveries(batch, results, i, i) == [];
    if i < |batch| {
      EndsOrNot(batch[i], results[i]);
    }
    if k < |batch| {
      EndsOrNot(batch[k], results[k]);
    }
    hide Handle, Deliveries, Stops, Suspends, EndsRound;
    if i < |batch| && !Suspends(results[i]) {
      HandleDelivers(c, s, batch[i], results[i]);
    }
    if i < k {
      BatchOutcome(c, Handle(c, s, batch[i], results[i]), batch, results, i + 1);
      DeliveriesFromFirst(batch, results, i, k);
    } else if i < |batch| && !Suspends(results[i]) {
      StoppedStays(c, Handle(c, s, batch[i], results[i]), batch, results, i + 1);
    }
  }

  /** A round delivers the outputs before the first result that ends it, and no later ones. It waits
      exactly if some result suspends, even after a stop; the error it stops with is that of the first
      result, in the order of the batch, that ends it. */
  lemma RoundOutcome(c: Context, s: State, executor: Executor, round: nat)
    requires s.stopped.None?
    ensures var (t, suspended) := Round(c, s, executor, round);
      var batch, results := s.queue, Results(executor, round, |s.queue|);
      var k := FirstEnding(batch, results, 0);
      && (suspended <==> exists j :: 0 <= j < |batch| && results[j].error == Some(Suspended))
      && t.log == s.log + Deliveries(batch, results, 0, k)
      && t.stopped == if k < |batch| && results[k].error != Some(Suspended) then results[k].error else None
  {
    var results := Results(executor, round, |s.queue|);
    SuspendsInBatch(c, s.(queue := []), s.queue, results, 0);
    BatchOutcome(c, s.(queue := []), s.queue, results, 0);
  }

  /** How an execution goes on after a round: it waits if some node suspends; else it stops with the first
      error that ends the round, and goes on with the next round if there is none. */
  lemma RoundDecides(c: Context, s: State, executor: Executor, round: nat, ends: nat)
    requires s.stopped.None? && s.queue != [] && round < ends
    ensures var r, t := Rounds(c, s, executor, round, ends), Round(c, s, executor, round).0;
      var batch, results := s.queue, Results(executor, round, |s.queue|);
      var k := FirstEnding(batch, results, 0);
      if exists j :: 0 <= j < |batch| && results[j].error == Some(Suspended)
      then r == Execution(Waiting, t, round + 1)
      else if k < |batch| then results[k].error.Some? && r == Execution(Stopped(results[k].error.value), t, round + 1)
      else t.stopped.None? && r == Rounds(c, t, executor, round + 1, ends)
  {
    RoundOutcome(c, s, executor, round);
  }

  // ---------------------------------------------------------------- run data only grows

  /** The earlier tasks are kept, and each new one is numbered by its place. */
  ghost predicate Appended(before: RunData, after: RunData, name: string) {
    && TasksOf(before, name) <= TasksOf(after, name)
    && forall j | |TasksOf(before, name)| <= j < |TasksOf(after, name)| :: TasksOf(after, name)[j].executionIndex == j
  }

  lemma RecordAppends(before: RunData, s: State, node: Node, result: NodeResult, name: string)
    requires Appended(before, s.runData, name)
    ensures Appended(before, Record(s, node, result).runData, name)
  {
    var was, tasks := TasksOf(s.runData, name), TasksOf(Record(s, node, result).runData, name);
    if node.name == name {
      assert tasks[..|was|] == was && tasks[|was|].executionIndex == |was|;
    }
  }

  lemma {:induction false} BatchAppends(c: Context, before: RunData, s: State, batch: seq<Node>,
      results: seq<NodeResult>, i: nat, name: string)
    requires i <= |batch| == |results| && Appended(before, s.runData, name)
    ensures Appended(before, HandleFrom(c, s, batch, results, i).0.runData, name)
    decreases |batch| - i
  {
    hide Appended;
    if i < |batch| {
      RecordAppends(before, s, batch[i], results[i], name);
      if !Suspends(results[i]) {
        BatchAppends(c, before, Handle(c, s, batch[i], results[i]), batch, results, i + 1, name);
      }
    }
  }

  /** However an execution ends or is cut off, the run data it was given is kept, and new tasks are
      appended with consecutive execution indexes. */
  lemma {:induction false} RunDataGrows(c: Context, before: RunData, s: State, executor: Executor, round: nat,
      ends: nat, name: string)
    requires Appended(before, s.runData, name)
    ensures Appended(before, Rounds(c, s, executor, round, ends).state.runData, name)
    decreases if round < ends then ends - round else 0
  {
    hide Appended;
    if s.queue != [] && round < ends {
      BatchAppends(c, before, s.(queue := []), s.queue, Results(executor, round, |s.queue|), 0, name);
      var (t, suspended) := Round(c, s, executor, round);
      if !suspended && t.stopped.None? {
        RunDataGrows(c, before, t, executor, round + 1, ends, name);
      }
    }
  }
}
