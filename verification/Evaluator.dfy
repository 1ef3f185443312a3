/**
 The workflow evaluator: rounds of ready nodes, whose outputs are delivered along main edges until
 no node is ready, a node fails, a node suspends or the context ends. What a node returns is an
 arbitrary function of the round and of its place in the round's batch.
 */
module Evaluator {
  import opened Wrappers
  import opened Graph

  // ---------------------------------------------------------------- data

  datatype Item = Item(json: string)

  type Output = seq<seq<Item>>

  datatype NodeError = Suspended | ContextEnded | NodeFailed

  datatype NodeResult = NodeResult(output: Output, error: Option<NodeError>)

  datatype Task = Task(output: Output, error: Option<NodeError>, executionIndex: nat)

  /** node -> input index -> items */
  type Inputs = map<string, map<int, seq<Item>>>

  type RunData = map<string, seq<Task>>

  datatype Destination = Destination(node: string, exclusive: bool)

  /** What stays fixed during one execution. */
  datatype Context = Context(
    workflow: Workflow, inverted: Inverted, allowed: Option<set<string>>, destination: Option<Destination>)

  datatype Delivery = Delivery(source: string, output: Output)

  /** `queue` are the nodes of the next round and `queued` the names not to queue again; `log` records
      the outputs that were delivered, in order. */
  datatype State = State(
    inputs: Inputs, runData: RunData, queue: seq<Node>, queued: set<string>, last: string,
    stopped: Option<NodeError>, log: seq<Delivery>)

  datatype Status = Succeeded | Stopped(error: NodeError) | Waiting | Canceled

  datatype Execution = Execution(status: Status, state: State, rounds: nat)

  // ---------------------------------------------------------------- delivering outputs

  predicate CanExecute(c: Context, name: string) {
    && (c.allowed.Some? ==> name in c.allowed.value)
    && !(c.destination.Some? && c.destination.value.exclusive && name == c.destination.value.node)
  }

  function NodeInputs(inputs: Inputs, name: string): map<int, seq<Item>> {
    if name in inputs then inputs[name] else map[]
  }

  function ItemsAt(inputs: Inputs, name: string, index: int): seq<Item> {
    if index in NodeInputs(inputs, name) then NodeInputs(inputs, name)[index] else []
  }

  function Put(inputs: Inputs, name: string, index: int, items: seq<Item>): Inputs {
    inputs[name := NodeInputs(inputs, name)[index := ItemsAt(inputs, name, index) + items]]
  }

  predicate HasAllInputs(inputs: map<int, seq<Item>>, expected: nat) {
    if expected <= 1 then |inputs| > 0
    else |inputs| >= expected && forall index | 0 <= index < expected :: index in inputs
  }

  /** The inputs as filled so far, and the nodes found ready, each once. */
  datatype Progress = Progress(inputs: Inputs, next: seq<Node>, found: set<string>)

  function DeliverEdge(c: Context, p: Progress, items: seq<Item>, edge: Connection): Progress {
    if !CanExecute(c, edge.node) then p
    else
      var inputs := Put(p.inputs, edge.node, edge.index, items);
      var target := LastNamed(c.workflow.nodes, edge.node);
      if HasAllInputs(inputs[edge.node], InputCount(c.inverted, edge.node, MAIN))
         && edge.node !in p.found && target.Some? && !target.value.disabled
      then Progress(inputs, p.next + [target.value], p.found + {edge.node})
      else p.(inputs := inputs)
  }

  /** The first `n` edges of one output. */
  function DeliverEdges(c: Context, p: Progress, items: seq<Item>, edges: seq<Connection>, n: nat): Progress
    requires n <= |edges|
  {
    if n == 0 then p else DeliverEdge(c, DeliverEdges(c, p, items, edges, n - 1), items, edges[n - 1])
  }

  /** The first `n` outputs of a node; an empty output sends nothing. */
  function DeliverOutputs(c: Context, p: Progress, source: string, output: Output, n: nat): Progress
    requires n <= |output|
  {
    if n == 0 then p
    else
      var q := DeliverOutputs(c, p, source, output, n - 1);
      var edges := OutputEdges(c.workflow.connections, source, MAIN, n - 1);
      if output[n - 1] == [] then q else DeliverEdges(c, q, output[n - 1], edges, |edges|)
  }

  predicate EndsHere(c: Context, source: string) {
    c.destination.Some? && !c.destination.value.exclusive && source == c.destination.value.node
  }

  function Deliver(c: Context, inputs: Inputs, source: string, output: Output): Progress {
    if EndsHere(c, source) then Progress(inputs, [], {})
    else DeliverOutputs(c, Progress(inputs, [], {}), source, output, |output|)
  }

  /** The first `n` of the ready nodes are queued, unless their name is queued already. */
  function Enqueue(queue: seq<Node>, queued: set<string>, next: seq<Node>, n: nat): (seq<Node>, set<string>)
    requires n <= |next|
  {
    if n == 0 then (queue, queued)
    else
      var (q, names) := Enqueue(queue, queued, next, n - 1);
      if next[n - 1].name in names then (q, names) else (q + [next[n - 1]], names + {next[n - 1].name})
  }

  // ---------------------------------------------------------------- one round

  predicate Stops(node: Node, result: NodeResult) {
    result.error.Some? && (result.error.value.ContextEnded? || node.EffectiveOnError() == StopWorkflow)
  }

  predicate Suspends(result: NodeResult) {
    result.error == Some(Suspended)
  }

  /** The result is recorded in the run data. */
  function Record(s: State, node: Node, result: NodeResult): State {
    var tasks := if node.name in s.runData then s.runData[node.name] else [];
    s.(queued := s.queued - {node.name}, last := node.name,
       runData := s.runData[node.name := tasks + [Task(result.output, result.error, |tasks|)]])
  }

  function DeliverResult(c: Context, s: State, node: Node, result: NodeResult): State {
    var p := Deliver(c, s.inputs, node.name, result.output);
    var (queue, queued) := Enqueue(s.queue, s.queued, p.next, |p.next|);
    s.(inputs := p.inputs, queue := queue, queued := queued, log := s.log + [Delivery(node.name, result.output)])
  }

  /** A result that does not suspend: after the first stopping error nothing is delivered. */
  function Handle(c: Context, s: State, node: Node, result: NodeResult): State {
    var t := Record(s, node, result);
    if Stops(node, result) then t.(stopped := if s.stopped.Some? then s.stopped else result.error)
    else if s.stopped.Some? then t
    else DeliverResult(c, t, node, result)
  }

  /** The results from place `i` on, until one suspends. */
  function HandleFrom(c: Context, s: State, batch: seq<Node>, results: seq<NodeResult>, i: nat): (State, bool)
    requires i <= |batch| == |results|
    decreases |batch| - i
  {
    if i == |batch| then (s, false)
    else if Suspends(results[i]) then (Record(s, batch[i], results[i]), true)
    else HandleFrom(c, Handle(c, s, batch[i], results[i]), batch, results, i + 1)
  }

  // ---------------------------------------------------------------- whole executions

  /** What the node at a place of a round's batch returns. */
  type Executor = (nat, nat) -> NodeResult

  function Results(executor: Executor, round: nat, size: nat): (r: seq<NodeResult>)
    ensures |r| == size && forall i | 0 <= i < size :: r[i] == executor(round, i)
  {
    seq(size, (i: nat) => executor(round, i))
  }

  /** One round: the whole queue is the batch. The second result says that the batch suspended. */
  function Round(c: Context, s: State, executor: Executor, round: nat): (State, bool) {
    HandleFrom(c, s.(queue := []), s.queue, Results(executor, round, |s.queue|), 0)
  }

  /** The rounds from `round` on. The context is seen to have ended at the start of round `ends`. */
  function Rounds(c: Context, s: State, executor: Executor, round: nat, ends: nat): Execution
    decreases if round < ends then ends - round else 0
  {
    if s.queue == [] then Execution(Succeeded, s, round)
    else if round >= ends then Execution(Canceled, s, round)
    else
      var (t, suspended) := Round(c, s, executor, round);
      if suspended then Execution(Waiting, t, round + 1)
      else if t.stopped.Some? then Execution(Stopped(t.stopped.value), t, round + 1)
      else Rounds(c, t, executor, round + 1, ends)
  }

  /** The nodes that round `k` runs: those still queued when the execution is cut off there. */
  function Batch(c: Context, s: State, executor: Executor, k: nat): seq<Node> {
    var cut := Rounds(c, s, executor, 0, k);
    if cut.status.Canceled? then cut.state.queue else []
  }

  function Names(nodes: seq<Node>): set<string> {
    set node | node in nodes :: node.name
  }

  function StartState(inputs: Inputs, runData: RunData, start: seq<Node>): State {
    State(inputs, runData, start, Names(start), "", None, [])
  }

  /** The inverted connections are right, and with a destination exactly its ancestors are allowed. */
  ghost predicate Prepared(c: Context) {
    && InvertsAll(c.workflow.connections, c.inverted)
    && (c.allowed.Some? <==> c.destination.Some?)
    && (c.destination.Some? ==>
          forall x :: x in c.allowed.value <==> Reaches(c.workflow.connections, x, c.destination.value.node))
  }
}
