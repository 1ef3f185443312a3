/** The nodes that rounds run: ready, allowed, reached by a walk as long as the round's number, each
    once a round; so an acyclic workflow ends within as many rounds as it has nodes. */
module EvaluatorRounds {
  import opened Wrappers
  import opened Graph
  import opened Evaluator

  // ---------------------------------------------------------------- what is queued

  ghost predicate Ready(c: Context, inputs: Inputs, name: string) {
    forall index: nat | index < InputCount(c.inverted, name, MAIN) :: index in NodeInputs(inputs, name)
  }

  /** An enabled node of the workflow that may run and has an entry at every input. */
  ghost predicate Found(c: Context, inputs: Inputs, node: Node) {
    && LastNamed(c.workflow.nodes, node.name) == Some(node) && !node.disabled
    && CanExecute(c, node.name) && Ready(c, inputs, node.name)
  }

  ghost predicate AllFound(c: Context, p: Progress, source: string) {
    forall node | node in p.next :: Found(c, p.inputs, node) && MainEdge(c.workflow.connections, source, node.name)
  }

  ghost predicate Grown(before: Inputs, after: Inputs) {
    forall name :: NodeInputs(before, name).Keys <= NodeInputs(after, name).Keys
  }

  /** An edge that is followed enters its target below the input count: one input means input 0. */
  lemma FullIsReady(c: Context, inputs: Inputs, source: string, output: nat, edge: Connection)
    requires Prepared(c) && edge in OutputEdges(c.workflow.connections, source, MAIN, output)
    requires edge.index in NodeInputs(inputs, edge.node)
    requires HasAllInputs(NodeInputs(inputs, edge.node), InputCount(c.inverted, edge.node, MAIN))
    ensures MainEdge(c.workflow.connections, source, edge.node) && Ready(c, inputs, edge.node)
  {
    var e := Edge(source, MAIN, output, edge.node, edge.index);
    assert HasEdge(c.workflow.connections, e);
    assert EntersFrom(c.workflow.connections, edge.node, MAIN, edge.index);
    assert edge.index < InputCount(c.inverted, edge.node, MAIN);
  }

  lemma EdgeFinds(c: Context, p: Progress, source: string, output: nat, items: seq<Item>, edge: Connection)
    requires Prepared(c) && edge in OutputEdges(c.workflow.connections, source, MAIN, output) && AllFound(c, p, source)
    ensures AllFound(c, DeliverEdge(c, p, items, edge), source)
    ensures Grown(p.inputs, DeliverEdge(c, p, items, edge).inputs)
  {
    if CanExecute(c, edge.node) {
      var q := DeliverEdge(c, p, items, edge);
      assert q.inputs == Put(p.inputs, edge.node, edge.index, items);
      assert Grown(p.inputs, q.inputs);
      forall node | node in q.next
        ensures Found(c, q.inputs, node) && MainEdge(c.workflow.connections, source, node.name)
      {
        if node !in p.next {
          FullIsReady(c, q.inputs, source, output, edge);
        }
      }
    }
  }

  lemma {:induction false} EdgesFind(c: Context, p: Progress, source: string, output: nat, items: seq<Item>, n: nat)
    requires n <= |OutputEdges(c.workflow.connections, source, MAIN, output)| && Prepared(c) && AllFound(c, p, source)
    ensures var q := DeliverEdges(c, p, items, OutputEdges(c.workflow.connections, source, MAIN, output), n);
      AllFound(c, q, source) && Grown(p.inputs, q.inputs)
  {
    hide AllFound, DeliverEdge;
    if n > 0 {
      var edges := OutputEdges(c.workflow.connections, source, MAIN, output);
      EdgesFind(c, p, source, output, items, n - 1);
      EdgeFinds(c, DeliverEdges(c, p, items, edges, n - 1), source, output, items, edges[n - 1]);
    }
  }

  lemma {:induction false} OutputsFind(c: Context, p: Progress, source: string, output: Output, n: nat)
    requires n <= |output| && Prepared(c) && AllFound(c, p, source)
    ensures var q := DeliverOutputs(c, p, source, output, n); AllFound(c, q, source) && Grown(p.inputs, q.inputs)
  {
    if n > 0 {
      OutputsFind(c, p, source, output, n - 1);
      if output[n - 1] != [] {
        var edges := OutputEdges(c.workflow.connections, source, MAIN, n - 1);
        EdgesFind(c, DeliverOutputs(c, p, source, output, n - 1), source, n - 1, output[n - 1], |edges|);
      }
    }
  }

  lemma {:induction false} EnqueuesOnlyNext(queue: seq<Node>, queued: set<string>, next: seq<Node>, n: nat)
    requires n <= |next|
    ensures forall node | node in Enqueue(queue, queued, next, n).0 :: node in queue || node in next
  {
    if n > 0 {
      EnqueuesOnlyNext(queue, queued, next, n - 1);
    }
  }

  // ---------------------------------------------------------------- walks as long as the round's number

  /** The name ends a walk of `k` main edges from a start node, through nodes of the workflow. */
  ghost predicate Reached(c: Context, start: set<string>, name: string, k: nat) {
    exists walk :: IsWalk(c.workflow.connections, walk) && Joins(walk, start, name, k)
      && forall x | x in walk :: x in Names(c.workflow.nodes)
  }

  predicate Joins(walk: seq<string>, start: set<string>, name: string, k: nat) {
    |walk| == k + 1 && walk[0] in start && walk[k] == name
  }

  lemma ReachedNext(c: Context, start: set<string>, name: string, k: nat, node: Node)
    requires Reached(c, start, name, k) && MainEdge(c.workflow.connections, name, node.name) && node in c.workflow.nodes
    ensures Reached(c, start, node.name, k + 1)
  {
    var walk :| IsWalk(c.workflow.connections, walk) && Joins(walk, start, name, k)
      && forall x | x in walk :: x in Names(c.workflow.nodes);
    var longer := walk + [node.name];
    assert IsWalk(c.workflow.connections, longer) && Joins(longer, start, node.name, k + 1);
  }

  ghost predicate AllReached(c: Context, start: set<string>, nodes: seq<Node>, k: nat) {
    forall node | node in nodes :: Reached(c, start, node.name, k)
  }

  /** What holds of the queue that a round fills: its nodes are found, one edge further on. */
  ghost predicate NextRound(c: Context, start: set<string>, s: State, k: nat) {
    AllReached(c, start, s.queue, k) && forall node | node in s.queue :: Found(c, s.inputs, node)
  }

  lemma HandleFinds(c: Context, start: set<string>, s: State, node: Node, result: NodeResult, k: nat)
    requires Prepared(c) && NextRound(c, start, s, k + 1) && Reached(c, start, node.name, k)
    ensures NextRound(c, start, Handle(c, s, node, result), k + 1)
  {
    var t := Handle(c, s, node, result);
    if t.queue != s.queue || t.inputs != s.inputs {
      var p := Deliver(c, s.inputs, node.name, result.output);
      if !EndsHere(c, node.name) {
        OutputsFind(c, Progress(s.inputs, [], {}), node.name, result.output, |result.output|);
      }
      var queued := Record(s, node, result).queued;
      EnqueuesOnlyNext(s.queue, queued, p.next, |p.next|);
      forall after | after in t.queue
        ensures Found(c, t.inputs, after) && Reached(c, start, after.name, k + 1)
      {
        if after !in s.queue {
          ReachedNext(c, start, node.name, k, after);
        }
      }
    }
  }

  lemma {:induction false} BatchFinds(c: Context, start: set<string>, s: State, batch: seq<Node>,
      results: seq<NodeResult>, i: nat, k: nat)
    requires i <= |batch| == |results| && Prepared(c) && NextRound(c, start, s, k + 1) && AllReached(c, start, batch, k)
    ensures NextRound(c, start, HandleFrom(c, s, batch, results, i).0, k + 1)
    decreases |batch| - i
  {
    if i < |batch| && !Suspends(results[i]) {
      HandleFinds(c, start, s, batch[i], results[i], k);
      BatchFinds(c, start, Handle(c, s, batch[i], results[i]), batch, results, i + 1, k);
    }
  }

  lemma RoundFinds(c: Context, start: set<string>, s: State, executor: Executor, round: nat)
    requires Prepared(c) && AllReached(c, start, s.queue, round)
    ensures NextRound(c, start, Round(c, s, executor, round).0, round + 1)
  {
    BatchFinds(c, start, s.(queue := []), s.queue, Results(executor, round, |s.queue|), 0, round);
  }

  lemma {:induction false} RoundsFind(c: Context, start: set<string>, s: State, executor: Executor, round: nat,
      ends: nat)
    requires Prepared(c) && AllReached(c, start, s.queue, round) && round <= ends
    ensures var r := Rounds(c, s, executor, round, ends);
      r.status.Canceled? ==>
        r.rounds == ends && AllReached(c, start, r.state.queue, ends)
        && (ends > round ==> NextRound(c, start, r.state, ends))
    decreases ends - round
  {
    if s.queue != [] && round < ends {
      RoundFinds(c, start, s, executor, round);
      var (t, suspended) := Round(c, s, executor, round);
      if !suspended && t.stopped.None? {
        RoundsFind(c, start, t, executor, round + 1, ends);
      }
    }
  }

  ghost predicate FromWorkflow(c: Context, start: seq<Node>) {
    forall node | node in start :: node in c.workflow.nodes
  }

  lemma StartsReached(c: Context, start: seq<Node>)
    requires FromWorkflow(c, start)
    ensures AllReached(c, Names(start), start, 0)
  {
    forall node | node in start
      ensures Reached(c, Names(start), node.name, 0)
    {
      assert IsWalk(c.workflow.connections, [node.name]) && Joins([node.name], Names(start), node.name, 0);
    }
  }

  /** Every node of round `k` ends a walk of `k` main edges from a start node. A node of a later round
      than the first is enabled, may run, and has an entry at each of its inputs. */
  lemma BatchesAreReady(c: Context, inputs: Inputs, runData: RunData, start: seq<Node>, executor: Executor, k: nat,
      node: Node)
    requires Prepared(c) && FromWorkflow(c, start) && node in Batch(c, StartState(inputs, runData, start), executor, k)
    ensures Reached(c, Names(start), node.name, k)
    ensures k > 0 ==> Found(c, Rounds(c, StartState(inputs, runData, start), executor, 0, k).state.inputs, node)
  {
    StartsReached(c, start);
    RoundsFind(c, Names(start), StartState(inputs, runData, start), executor, 0, k);
  }

  // ---------------------------------------------------------------- acyclic workflows end

  ghost predicate Acyclic(c: Connections) {
    forall walk | IsWalk(c, walk) && |walk| > 1 :: walk[0] != walk[|walk| - 1]
  }

  lemma WalkIsSimple(c: Connections, walk: seq<string>, i: nat, j: nat)
    requires Acyclic(c) && IsWalk(c, walk) && i < j < |walk|
    ensures walk[i] != walk[j]
  {
    var part := walk[i..j + 1];
    forall k | 0 <= k < |part| - 1
      ensures MainEdge(c, part[k], part[k + 1])
    {
      assert MainEdge(c, walk[i + k], walk[i + k + 1]);
    }
    assert part[0] == walk[i] && part[|part| - 1] == walk[j];
  }

  lemma {:induction false} DistinctFit(names: seq<string>, all: set<string>)
    requires forall i, j | 0 <= i < j < |names| :: names[i] != names[j]
    requires forall x | x in names :: x in all
    ensures |names| <= |all|
    decreases |names|
  {
    if names != [] {
      var last := names[|names| - 1];
      DistinctFit(names[..|names| - 1], all - {last});
    }
  }

  lemma {:induction false} NamesFit(nodes: seq<Node>)
    ensures |Names(nodes)| <= |nodes|
    decreases |nodes|
  {
    if nodes != [] {
      var front := nodes[..|nodes| - 1];
      NamesFit(front);
      assert nodes == front + [nodes[|nodes| - 1]];
      assert Names(nodes) == Names(front) + {nodes[|nodes| - 1].name};
    }
  }

  lemma ReachedIsShort(c: Context, start: set<string>, name: string, k: nat)
    requires Acyclic(c.workflow.connections) && Reached(c, start, name, k)
    ensures k < |c.workflow.nodes|
  {
    var walk :| IsWalk(c.workflow.connections, walk) && Joins(walk, start, name, k)
      && forall x | x in walk :: x in Names(c.workflow.nodes);
    forall i, j | 0 <= i < j < |walk|
      ensures walk[i] != walk[j]
    {
      WalkIsSimple(c.workflow.connections, walk, i, j);
    }
    DistinctFit(walk, Names(c.workflow.nodes));
    NamesFit(c.workflow.nodes);
  }

  lemma {:induction false} RoundsCounted(c: Context, s: State, executor: Executor, round: nat, ends: nat)
    requires round <= ends
    ensures var r := Rounds(c, s, executor, round, ends);
      round <= r.rounds <= ends && (r.status.Canceled? ==> r.state.queue != [])
    decreases ends - round
  {
    if s.queue != [] && round < ends {
      var (t, suspended) := Round(c, s, executor, round);
      if !suspended && t.stopped.None? {
        RoundsCounted(c, t, executor, round + 1, ends);
      }
    }
  }

  /** Whatever its nodes do, an acyclic workflow ends within as many rounds as it has nodes. */
  lemma AcyclicEnds(c: Context, inputs: Inputs, runData: RunData, start: seq<Node>, executor: Executor)
    requires Prepared(c) && FromWorkflow(c, start) && Acyclic(c.workflow.connections)
    ensures var r := Rounds(c, StartState(inputs, runData, start), executor, 0, |c.workflow.nodes|);
      !r.status.Canceled? && r.rounds <= |c.workflow.nodes|
  {
    var s, n := StartState(inputs, runData, start), |c.workflow.nodes|;
    var r := Rounds(c, s, executor, 0, n);
    RoundsCounted(c, s, executor, 0, n);
    if r.status.Canceled? {
      BatchesAreReady(c, inputs, runData, start, executor, n, r.state.queue[0]);
      ReachedIsShort(c, Names(start), r.state.queue[0].name, n);
    }
  }

  /** More rounds change nothing once an execution has ended. */
  lemma {:induction false} EndedStays(c: Context, s: State, executor: Executor, round: nat, ends: nat, later: nat)
    requires round <= ends <= later && !Rounds(c, s, executor, round, ends).status.Canceled?
    ensures Rounds(c, s, executor, round, later) == Rounds(c, s, executor, round, ends)
    decreases ends - round
  {
    if s.queue != [] && round < ends {
      var (t, suspended) := Round(c, s, executor, round);
      if !suspended && t.stopped.None? {
        EndedStays(c, t, executor, round + 1, ends, later);
      }
    }
  }

  // ---------------------------------------------------------------- each node once a round

  predicate DistinctNames(nodes: seq<Node>) {
    forall i, j | 0 <= i < j < |nodes| :: nodes[i].name != nodes[j].name
  }

  /** The queued names are those of the next round's queue and of what is left of the batch. */
  ghost predicate QueuedOnce(s: State, rest: seq<Node>) {
    DistinctNames(s.queue) && DistinctNames(rest) && Names(s.queue) !! Names(rest)
    && s.queued == Names(s.queue) + Names(rest)
  }

  lemma NamesAppend(nodes: seq<Node>, node: Node)
    ensures Names(nodes + [node]) == Names(nodes) + {node.name}
    ensures DistinctNames(nodes) && node.name !in Names(nodes) ==> DistinctNames(nodes + [node])
  {
    var longer := nodes + [node];
    assert longer[|nodes|] == node && forall x | x in nodes :: x in longer;
    if DistinctNames(nodes) && node.name !in Names(nodes) {
      forall i, j | 0 <= i < j < |longer|
        ensures longer[i].name != longer[j].name
      {
        assert longer[i] in nodes && longer[i].name in Names(nodes);
      }
    }
  }

  lemma {:induction false} EnqueuesOnce(queue: seq<Node>, queued: set<string>, rest: set<string>, next: seq<Node>,
      n: nat)
    requires n <= |next| && DistinctNames(queue) && Names(queue) !! rest && queued == Names(queue) + rest
    ensures var (q, names) := Enqueue(queue, queued, next, n);
      DistinctNames(q) && Names(q) !! rest && names == Names(q) + rest
      && forall i | 0 <= i < n :: next[i].name in names
  {
    if n > 0 {
      EnqueuesOnce(queue, queued, rest, next, n - 1);
      NamesAppend(Enqueue(queue, queued, next, n - 1).0, next[n - 1]);
    }
  }

  lemma HandleOnce(c: Context, s: State, rest: seq<Node>, result: NodeResult)
    requires rest != [] && QueuedOnce(s, rest)
    ensures QueuedOnce(Record(s, rest[0], result), rest[1..])
    ensures QueuedOnce(Handle(c, s, rest[0], result), rest[1..])
  {
    var t := Record(s, rest[0], result);
    assert t.queued == Names(s.queue) + Names(rest[1..]);
    var p := Deliver(c, t.inputs, rest[0].name, result.output);
    EnqueuesOnce(t.queue, t.queued, Names(rest[1..]), p.next, |p.next|);
  }

  function Runs(s: State, name: string): nat {
    if name in s.runData then |s.runData[name]| else 0
  }

  predicate RanOnce(before: State, after: State, names: set<string>, suspended: bool, name: string) {
    var most := Runs(before, name) + if name in names then 1 else 0;
    if suspended then Runs(before, name) <= Runs(after, name) <= most else Runs(after, name) == most
  }

  lemma {:induction false} BatchOnce(c: Context, s: State, batch: seq<Node>, results: seq<NodeResult>, i: nat,
      name: string)
    requires i <= |batch| == |results| && QueuedOnce(s, batch[i..])
    ensures var (t, suspended) := HandleFrom(c, s, batch, results, i);
      (!suspended ==> QueuedOnce(t, [])) && RanOnce(s, t, Names(batch[i..]), suspended, name)
    decreases |batch| - i
  {
    if i < |batch| {
      HandleOnce(c, s, batch[i..], results[i]);
      assert batch[i..][1..] == batch[i + 1..];
      if !Suspends(results[i]) {
        BatchOnce(c, Handle(c, s, batch[i], results[i]), batch, results, i + 1, name);
      }
    }
  }

  lemma RoundOnce(c: Context, s: State, executor: Executor, round: nat, name: string)
    requires QueuedOnce(s, [])
    ensures var (t, suspended) := Round(c, s, executor, round);
      (!suspended ==> QueuedOnce(t, [])) && RanOnce(s, t, Names(s.queue), suspended, name)
  {
    assert s.queue[0..] == s.queue;
    BatchOnce(c, s.(queue := []), s.queue, Results(executor, round, |s.queue|), 0, name);
  }

  lemma {:induction false} RunsBounded(c: Context, s: State, executor: Executor, round: nat, ends: nat, name: string)
    requires QueuedOnce(s, []) && round <= ends
    ensures var r := Rounds(c, s, executor, round, ends);
      Runs(s, name) <= Runs(r.state, name) <= Runs(s, name) + r.rounds - round
      && (r.status.Canceled? || r.status.Succeeded? ==> QueuedOnce(r.state, []))
    decreases ends - round
  {
    if s.queue != [] && round < ends {
      RoundOnce(c, s, executor, round, name);
      var (t, suspended) := Round(c, s, executor, round);
      if !suspended && t.stopped.None? {
        RunsBounded(c, t, executor, round + 1, ends, name);
      }
    }
  }

  /** With distinct start nodes no batch names a node twice, and a node runs at most once a round; so
      in an acyclic workflow no node runs more often than there are nodes. */
  lemma AcyclicRunsAreFew(c: Context, inputs: Inputs, runData: RunData, start: seq<Node>, executor: Executor,
      ends: nat, name: string)
    requires Prepared(c) && FromWorkflow(c, start) && DistinctNames(start)
    ensures var s := StartState(inputs, runData, start);
      && DistinctNames(Batch(c, s, executor, ends))
      && var r := Rounds(c, s, executor, 0, ends);
         && Runs(r.state, name) <= Runs(s, name) + r.rounds
         && (Acyclic(c.workflow.connections) ==> Runs(r.state, name) <= Runs(s, name) + |c.workflow.nodes|)
  {
    var s, n := StartState(inputs, runData, start), |c.workflow.nodes|;
    RunsBounded(c, s, executor, 0, ends, name);
    if Acyclic(c.workflow.connections) && ends > n {
      AcyclicEnds(c, inputs, runData, start, executor);
      EndedStays(c, s, executor, 0, n, ends);
    } else {
      RoundsCounted(c, s, executor, 0, ends);
    }
  }

  // ---------------------------------------------------------------- no ready node is forgotten

  predicate IsEnabled(c: Context, name: string) {
    LastNamed(c.workflow.nodes, name).Some? && !LastNamed(c.workflow.nodes, name).value.disabled
  }

  predicate Full(c: Context, inputs: Inputs, name: string) {
    HasAllInputs(NodeInputs(inputs, name), InputCount(c.inverted, name, MAIN))
  }

  /** If something was sent to the node and its inputs are full, it was found. */
  ghost predicate Noticed(c: Context, p: Progress, name: string, sent: bool) {
    && (name in p.found ==> name in Names(p.next))
    && (sent && IsEnabled(c, name) && Full(c, p.inputs, name) ==> name in p.found)
  }

  lemma EdgeNotices(c: Context, p: Progress, items: seq<Item>, edge: Connection, name: string, sent: bool)
    requires Noticed(c, p, name, sent)
    ensures Noticed(c, DeliverEdge(c, p, items, edge), name, sent || (CanExecute(c, name) && edge.node == name))
  {
    var q := DeliverEdge(c, p, items, edge);
    if CanExecute(c, edge.node) {
      assert q.inputs == Put(p.inputs, edge.node, edge.index, items);
      if q.next != p.next {
        NamesAppend(p.next, q.next[|p.next|]);
      }
    }
  }

  predicate LeadsTo(edges: seq<Connection>, n: nat, name: string) {
    exists i :: 0 <= i < n && i < |edges| && edges[i].node == name
  }

  lemma {:induction false} EdgesNotice(c: Context, p: Progress, items: seq<Item>, edges: seq<Connection>, n: nat,
      name: string, sent: bool)
    requires n <= |edges| && Noticed(c, p, name, sent) && CanExecute(c, name)
    ensures Noticed(c, DeliverEdges(c, p, items, edges, n), name, sent || LeadsTo(edges, n, name))
  {
    hide Noticed, DeliverEdge;
    if n > 0 {
      EdgesNotice(c, p, items, edges, n - 1, name, sent);
      var before := sent || LeadsTo(edges, n - 1, name);
      EdgeNotices(c, DeliverEdges(c, p, items, edges, n - 1), items, edges[n - 1], name, before);
      assert (sent || LeadsTo(edges, n, name)) == (before || edges[n - 1].node == name);
    }
  }

  /** One of the first `n` outputs is not empty and has an edge to the node. */
  predicate Sends(c: Connections, source: string, output: Output, n: nat, name: string) {
    exists o :: 0 <= o < n && o < |output| && output[o] != []
      && LeadsTo(OutputEdges(c, source, MAIN, o), |OutputEdges(c, source, MAIN, o)|, name)
  }

  lemma {:induction false} OutputsNotice(c: Context, p: Progress, source: string, output: Output, n: nat, name: string)
    requires n <= |output| && CanExecute(c, name) && p.next == [] && p.found == {}
    ensures Noticed(c, DeliverOutputs(c, p, source, output, n), name,
                    Sends(c.workflow.connections, source, output, n, name))
  {
    if n > 0 {
      OutputsNotice(c, p, source, output, n - 1, name);
      var q := DeliverOutputs(c, p, source, output, n - 1);
      var edges := OutputEdges(c.workflow.connections, source, MAIN, n - 1);
      var before := Sends(c.workflow.connections, source, output, n - 1, name);
      assert Sends(c.workflow.connections, source, output, n, name) ==
             (before || (output[n - 1] != [] && LeadsTo(edges, |edges|, name)));
      if output[n - 1] != [] {
        EdgesNotice(c, q, output[n - 1], edges, |edges|, name, before);
      }
    }
  }

  /** When a result is delivered, an enabled and permitted node that it sends items to, and whose inputs
      are then full, is queued for the next round if and only if it is not behind in the same batch. There
      the whole batch has run already, on the inputs from before: the items wait for another delivery. */
  lemma ReadyIsQueued(c: Context, s: State, rest: seq<Node>, result: NodeResult, name: string)
    requires rest != [] && QueuedOnce(s, rest) && s.stopped.None?
    requires !Stops(rest[0], result) && !EndsHere(c, rest[0].name)
    requires Sends(c.workflow.connections, rest[0].name, result.output, |result.output|, name)
    requires CanExecute(c, name) && IsEnabled(c, name) && Full(c, Handle(c, s, rest[0], result).inputs, name)
    ensures name in Names(Handle(c, s, rest[0], result).queue) <==> name !in Names(rest[1..])
  {
    hide Sends, IsEnabled, Full;
    HandleOnce(c, s, rest, result);
    var t := Record(s, rest[0], result);
    assert t.queued == Names(s.queue) + Names(rest[1..]);
    var p := Deliver(c, t.inputs, rest[0].name, result.output);
    OutputsNotice(c, Progress(t.inputs, [], {}), rest[0].name, result.output, |result.output|, name);
    assert name in Names(p.next);
    EnqueuesOnce(t.queue, t.queued, Names(rest[1..]), p.next, |p.next|);
  }
}
