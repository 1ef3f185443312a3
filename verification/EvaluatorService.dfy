/** Starting and running one execution, step by step, against the specification of rounds. */
module EvaluatorService {
  import opened Wrappers
  import opened Graph
  import opened Evaluator
  import opened EvaluatorRounds

  datatype Target = Target(node: string, mode: string)

  datatype Options = Options(
    destination: Option<Target>, trigger: string, triggerItems: seq<Item>, initialInputs: Inputs,
    startNodes: seq<string>, runData: RunData)

  datatype StartError = UnsupportedMode | DestinationNotFound

  const INCLUSIVE: string := "inclusive"
  const EXCLUSIVE: string := "exclusive"

  const TRIGGER_KINDS: set<string> := {
    "n8n-nodes-base.manualTrigger", "n8n-nodes-base.start", "n8n-nodes-base.webhook",
    "n8n-nodes-base.scheduleTrigger", "n8n-nodes-base.executeWorkflowTrigger",
    "n8n-nodes-base.errorTrigger", "n8n-nodes-base.formTrigger"
  }

  // ---------------------------------------------------------------- where an execution starts

  function FirstNamed(nodes: seq<Node>, name: string): (r: Option<Node>)
    ensures r.Some? ==> r.value in nodes && r.value.name == name
    ensures r.None? ==> forall node | node in nodes :: node.name != name
  {
    if nodes == [] then None
    else if nodes[0].name == name then Some(nodes[0])
    else FirstNamed(nodes[1..], name)
  }

  /** An enabled trigger, or an enabled node that no main edge enters. */
  ghost predicate IsStart(w: Workflow, node: Node) {
    !node.disabled && (node.kind in TRIGGER_KINDS || !EntersFrom(w.connections, node.name, MAIN, 0))
  }

  ghost function WorkflowStarts(w: Workflow, n: nat): seq<Node>
    requires n <= |w.nodes|
  {
    if n == 0 then []
    else WorkflowStarts(w, n - 1) + if IsStart(w, w.nodes[n - 1]) then [w.nodes[n - 1]] else []
  }

  /** Without named starts: nodes with initial inputs if there are any inputs, else the start nodes. */
  ghost predicate Begins(c: Context, o: Options, node: Node) {
    && !node.disabled && CanExecute(c, node.name)
    && (if o.initialInputs != map[] then node.name in o.initialInputs else IsStart(c.workflow, node))
  }

  ghost function Beginning(c: Context, o: Options, n: nat): seq<Node>
    requires n <= |c.workflow.nodes|
  {
    if n == 0 then []
    else
      var node := c.workflow.nodes[n - 1];
      Beginning(c, o, n - 1) + if Begins(c, o, node) then [node] else []
  }

  function NamedStarts(c: Context, names: seq<string>, n: nat): seq<Node>
    requires n <= |names|
  {
    if n == 0 then []
    else
      var node := FirstNamed(c.workflow.nodes, names[n - 1]);
      NamedStarts(c, names, n - 1)
        + if node.Some? && !node.value.disabled && CanExecute(c, node.value.name) then [node.value] else []
  }

  ghost function Starting(c: Context, o: Options): seq<Node> {
    if o.trigger != "" then
      var node := FirstNamed(c.workflow.nodes, o.trigger);
      if node.Some? && !node.value.disabled then [node.value] else []
    else if o.startNodes != [] then NamedStarts(c, o.startNodes, |o.startNodes|)
    else Beginning(c, o, |c.workflow.nodes|)
  }

  function StartInputs(o: Options): Inputs {
    if o.trigger != "" then o.initialInputs[o.trigger := map[0 := o.triggerItems]] else o.initialInputs
  }

  ghost function Start(c: Context, o: Options): State {
    StartState(StartInputs(o), o.runData, Starting(c, o))
  }

  /** The node may take part: it is the named trigger, or it may run. */
  predicate MayStart(c: Context, o: Options, node: Node) {
    node in c.workflow.nodes && !node.disabled
    && (if o.trigger != "" then node.name == o.trigger else CanExecute(c, node.name))
  }

  lemma {:induction false} BeginningMayStart(c: Context, o: Options, n: nat)
    requires n <= |c.workflow.nodes| && o.trigger == ""
    ensures forall node | node in Beginning(c, o, n) :: MayStart(c, o, node) && node in c.workflow.nodes[..n]
    ensures DistinctNames(c.workflow.nodes) ==> DistinctNames(Beginning(c, o, n))
  {
    if n > 0 {
      BeginningMayStart(c, o, n - 1);
      var node := c.workflow.nodes[n - 1];
      assert c.workflow.nodes[..n] == c.workflow.nodes[..n - 1] + [node];
      NamesAppend(Beginning(c, o, n - 1), node);
    }
  }

  lemma {:induction false} NamedStartsMayStart(c: Context, o: Options, names: seq<string>, n: nat)
    requires n <= |names| && o.trigger == ""
    ensures forall node | node in NamedStarts(c, names, n) :: MayStart(c, o, node) && node.name in names[..n]
    ensures (forall i, j | 0 <= i < j < |names| :: names[i] != names[j]) ==> DistinctNames(NamedStarts(c, names, n))
  {
    if n > 0 {
      NamedStartsMayStart(c, o, names, n - 1);
      var node := FirstNamed(c.workflow.nodes, names[n - 1]);
      assert names[..n] == names[..n - 1] + [names[n - 1]];
      if node.Some? {
        NamesAppend(NamedStarts(c, names, n - 1), node.value);
      }
    }
  }

  predicate DistinctStarts(o: Options) {
    forall i, j | 0 <= i < j < |o.startNodes| :: o.startNodes[i] != o.startNodes[j]
  }

  lemma StartingMayStart(c: Context, o: Options)
    ensures forall node | node in Starting(c, o) :: MayStart(c, o, node)
    ensures DistinctNames(c.workflow.nodes) && DistinctStarts(o) ==> DistinctNames(Starting(c, o))
  {
    if o.trigger == "" {
      BeginningMayStart(c, o, |c.workflow.nodes|);
      NamedStartsMayStart(c, o, o.startNodes, |o.startNodes|);
    }
  }

  lemma {:induction false} BeginningHolds(c: Context, o: Options, n: nat, node: Node)
    requires n <= |c.workflow.nodes|
    ensures node in Beginning(c, o, n) <==> node in c.workflow.nodes[..n] && Begins(c, o, node)
  {
    if n > 0 {
      BeginningHolds(c, o, n - 1, node);
      assert c.workflow.nodes[..n] == c.workflow.nodes[..n - 1] + [c.workflow.nodes[n - 1]];
    }
  }

  lemma {:induction false} NamedStartsHold(c: Context, names: seq<string>, n: nat, node: Node)
    requires n <= |names|
    ensures node in NamedStarts(c, names, n) <==>
              node.name in names[..n] && FirstNamed(c.workflow.nodes, node.name) == Some(node)
              && !node.disabled && CanExecute(c, node.name)
  {
    if n > 0 {
      NamedStartsHold(c, names, n - 1, node);
      assert names[..n] == names[..n - 1] + [names[n - 1]];
    }
  }

  /** The node is allowed, and not an exclusive destination. */
  predicate InSlice(c: Context, name: string) {
    && (c.allowed.Some? ==> name in c.allowed.value)
    && (c.destination.Some? && c.destination.value.exclusive ==> name != c.destination.value.node)
  }

  /** The kinds of nodes that start a workflow even if edges enter them. */
  predicate IsTriggerKind(kind: string) {
    || kind == "n8n-nodes-base.manualTrigger"
    || kind == "n8n-nodes-base.start"
    || kind == "n8n-nodes-base.webhook"
    || kind == "n8n-nodes-base.formTrigger"
    || kind == "n8n-nodes-base.scheduleTrigger"
    || kind == "n8n-nodes-base.errorTrigger"
    || kind == "n8n-nodes-base.executeWorkflowTrigger"
  }

  /** Exactly which nodes an execution starts with: the named trigger; or the named nodes; or those that are
      given inputs; or, without any of these, the triggers and the nodes that no main edge enters. All but the
      trigger have to be in the slice, and none may be disabled. */
  lemma StartsExactly(c: Context, o: Options, node: Node)
    ensures node in Starting(c, o) <==>
              if o.trigger != "" then
                !node.disabled && node.name == o.trigger && FirstNamed(c.workflow.nodes, o.trigger) == Some(node)
              else
                !node.disabled && InSlice(c, node.name) && node in c.workflow.nodes
                && if o.startNodes != [] then
                     node.name in o.startNodes && FirstNamed(c.workflow.nodes, node.name) == Some(node)
                   else if o.initialInputs != map[] then node.name in o.initialInputs
                   else IsTriggerKind(node.kind) || !EntersFrom(c.workflow.connections, node.name, MAIN, 0)
  {
    assert node.kind in TRIGGER_KINDS <==> IsTriggerKind(node.kind);
    hide IsTriggerKind, TRIGGER_KINDS;
    assert c.workflow.nodes[..|c.workflow.nodes|] == c.workflow.nodes;
    assert o.startNodes[..|o.startNodes|] == o.startNodes;
    BeginningHolds(c, o, |c.workflow.nodes|, node);
    NamedStartsHold(c, o.startNodes, |o.startNodes|, node);
  }

  /** The items of a trigger are what it finds at its input 0, and nothing else; all other inputs are those
      that were given. */
  lemma TriggerItemsAtInputZero(o: Options, name: string, index: int)
    ensures ItemsAt(StartInputs(o), name, index) ==
              if o.trigger == "" || name != o.trigger then ItemsAt(o.initialInputs, name, index)
              else if index == 0 then o.triggerItems
              else []
  {}

  // ---------------------------------------------------------------- slicing by destination

  /** No disabled node runs. With a destination, only nodes run that reach it along main edges, and an
      exclusive destination does not run; a trigger that is named in the first round is the exception. */
  lemma SliceIsExact(c: Context, o: Options, executor: Executor, k: nat, node: Node)
    requires Prepared(c) && node in Batch(c, Start(c, o), executor, k)
    ensures node in c.workflow.nodes && !node.disabled
    ensures k == 0 && o.trigger != "" ==> node.name == o.trigger
    ensures (k > 0 || o.trigger == "") && c.destination.Some? ==>
              Reaches(c.workflow.connections, node.name, c.destination.value.node)
              && (c.destination.value.exclusive ==> node.name != c.destination.value.node)
  {
    StartingMayStart(c, o);
    BatchesAreReady(c, StartInputs(o), o.runData, Starting(c, o), executor, k, node);
    if k == 0 {
      assert MayStart(c, o, node);
    }
  }

  /** Any execution of an acyclic workflow ends, within as many rounds as there are nodes; with unique
      names and distinct named starts, no node runs more often than that. */
  lemma ExecutionEnds(c: Context, o: Options, executor: Executor, name: string)
    requires Prepared(c) && Acyclic(c.workflow.connections)
    ensures var r := Rounds(c, Start(c, o), executor, 0, |c.workflow.nodes|);
      && !r.status.Canceled? && r.rounds <= |c.workflow.nodes|
      && (DistinctNames(c.workflow.nodes) && DistinctStarts(o) ==>
            Runs(r.state, name) <= Runs(Start(c, o), name) + |c.workflow.nodes|)
  {
    StartingMayStart(c, o);
    AcyclicEnds(c, StartInputs(o), o.runData, Starting(c, o), executor);
    if DistinctNames(Starting(c, o)) {
      AcyclicRunsAreFew(c, StartInputs(o), o.runData, Starting(c, o), executor, |c.workflow.nodes|, name);
    }
  }

  // ---------------------------------------------------------------- the engine's loops

  method NodeByName(workflow: Workflow, name: string) returns (r: Option<Node>)
    ensures r == FirstNamed(workflow.nodes, name)
  {
    for i := 0 to |workflow.nodes|
      invariant FirstNamed(workflow.nodes, name) == FirstNamed(workflow.nodes[i..], name)
    {
      if workflow.nodes[i].name == name {
        return Some(workflow.nodes[i]);
      }
      assert workflow.nodes[i..][1..] == workflow.nodes[i + 1..];
    }
    r := None;
  }

  /** The nodes that take no main input, and the triggers. */
  method StartNodes(workflow: Workflow) returns (nodes: seq<Node>)
    ensures nodes == WorkflowStarts(workflow, |workflow.nodes|)
  {
    var inverted := InvertConnections(workflow.connections);
    nodes := [];
    for i := 0 to |workflow.nodes|
      invariant nodes == WorkflowStarts(workflow, i)
    {
      var node := workflow.nodes[i];
      assert 0 < InputCount(inverted, node.name, MAIN) <==> EntersFrom(workflow.connections, node.name, MAIN, 0);
      if !node.disabled && (InputCount(inverted, node.name, MAIN) == 0 || node.kind in TRIGGER_KINDS) {
        nodes := nodes + [node];
      }
    }
  }

  method FilterStarts(nodes: seq<Node>, c: Context) returns (filtered: seq<Node>)
    ensures filtered == Permitted(c, nodes, |nodes|)
  {
    filtered := [];
    for i := 0 to |nodes|
      invariant filtered == Permitted(c, nodes, i)
    {
      if CanExecute(c, nodes[i].name) {
        filtered := filtered + [nodes[i]];
      }
    }
  }

  function Permitted(c: Context, nodes: seq<Node>, n: nat): seq<Node>
    requires n <= |nodes|
  {
    if n == 0 then []
    else Permitted(c, nodes, n - 1) + if CanExecute(c, nodes[n - 1].name) then [nodes[n - 1]] else []
  }

  lemma {:induction false} PermittedPrefix(c: Context, nodes: seq<Node>, more: seq<Node>, n: nat)
    requires n <= |nodes|
    ensures Permitted(c, nodes + more, n) == Permitted(c, nodes, n)
  {
    if n > 0 {
      PermittedPrefix(c, nodes, more, n - 1);
    }
  }

  lemma {:induction false} EverythingPermitted(c: Context, nodes: seq<Node>, n: nat)
    requires n <= |nodes| && c.allowed.None? && c.destination.None?
    ensures Permitted(c, nodes, n) == nodes[..n]
  {
    if n > 0 {
      EverythingPermitted(c, nodes, n - 1);
      assert nodes[..n] == nodes[..n - 1] + [nodes[n - 1]];
    }
  }

  /** Filtering the start nodes of the whole workflow leaves those of the slice. */
  lemma {:induction false} PermittedStarts(c: Context, o: Options, n: nat)
    requires n <= |c.workflow.nodes| && o.initialInputs == map[]
    ensures var all := WorkflowStarts(c.workflow, n); Permitted(c, all, |all|) == Beginning(c, o, n)
  {
    if n > 0 {
      PermittedStarts(c, o, n - 1);
      var node, all := c.workflow.nodes[n - 1], WorkflowStarts(c.workflow, n - 1);
      var last := WorkflowStarts(c.workflow, n);
      PermittedPrefix(c, all, [node], |all|);
      assert last == all || last == all + [node];
      assert (all + [node])[|all|] == node;
    }
  }

  method NamedQueue(c: Context, names: seq<string>) returns (queue: seq<Node>)
    ensures queue == NamedStarts(c, names, |names|)
  {
    queue := [];
    for i := 0 to |names|
      invariant queue == NamedStarts(c, names, i)
    {
      var node := NodeByName(c.workflow, names[i]);
      if node.Some? && !node.value.disabled && CanExecute(c, node.value.name) {
        queue := queue + [node.value];
      }
    }
  }

  method GivenQueue(c: Context, o: Options) returns (queue: seq<Node>)
    requires o.initialInputs != map[]
    ensures queue == Beginning(c, o, |c.workflow.nodes|)
  {
    queue := [];
    for i := 0 to |c.workflow.nodes|
      invariant queue == Beginning(c, o, i)
    {
      var node := c.workflow.nodes[i];
      if !node.disabled && CanExecute(c, node.name) && node.name in o.initialInputs {
        queue := queue + [node];
      }
    }
  }

  method StartQueue(c: Context, o: Options) returns (queue: seq<Node>)
    requires Prepared(c)
    ensures queue == Starting(c, o)
  {
    if o.trigger != "" {
      var node := NodeByName(c.workflow, o.trigger);
      return if node.Some? && !node.value.disabled then [node.value] else [];
    }
    if |o.startNodes| > 0 {
      queue := NamedQueue(c, o.startNodes);
    } else if |o.initialInputs| > 0 {
      queue := GivenQueue(c, o);
    } else {
      assert o.initialInputs == map[];
      PermittedStarts(c, o, |c.workflow.nodes|);
      queue := StartNodes(c.workflow);
      if c.allowed.Some? || c.destination.Some? {
        queue := FilterStarts(queue, c);
      } else {
        EverythingPermitted(c, queue, |queue|);
      }
    }
  }

  method AllowedNodes(graph: Graph, destination: Option<Target>) returns (r: Result<Context, StartError>)
    requires graph.Valid()
    ensures r.Failure? <==> destination.Some? && !Supported(graph.workflow, destination.value)
    ensures r.Failure? ==>
              r.error == (if destination.value.mode in {"", "inclusive", "exclusive"}
                          then DestinationNotFound else UnsupportedMode)
    ensures r.Success? ==>
              Prepared(r.value) && r.value.workflow == graph.workflow && r.value.inverted == graph.inverted
              && r.value.destination ==
                 if destination.None? then None
                 else Some(Destination(destination.value.node, destination.value.mode == "exclusive"))
  {
    if destination.None? {
      return Success(Context(graph.workflow, graph.inverted, None, None));
    }
    var target := destination.value;
    if target.mode == "" {
      target := target.(mode := INCLUSIVE);
    }
    if target.mode != INCLUSIVE && target.mode != EXCLUSIVE {
      return Failure(UnsupportedMode);
    }
    var node := graph.Lookup(target.node);
    if node.None? {
      return Failure(DestinationNotFound);
    }
    var ancestors := graph.Ancestors(target.node);
    var exact := Destination(target.node, target.mode == EXCLUSIVE);
    return Success(Context(graph.workflow, graph.inverted, Some(ancestors), Some(exact)));
  }

  predicate Supported(workflow: Workflow, target: Target) {
    target.mode in {"", "inclusive", "exclusive"} && exists node :: node in workflow.nodes && node.name == target.node
  }

  method AllInputs(inputs: map<int, seq<Item>>, expected: nat) returns (ready: bool)
    ensures ready == HasAllInputs(inputs, expected)
  {
    if expected <= 1 {
      return |inputs| > 0;
    }
    if |inputs| < expected {
      return false;
    }
    for index := 0 to expected
      invariant forall i | 0 <= i < index :: i in inputs
    {
      if index !in inputs {
        return false;
      }
    }
    return true;
  }

  /** The items are added to the edge's input; a ready, enabled target is found, once. */
  method FollowEdge(graph: Graph, c: Context, p: Progress, items: seq<Item>, edge: Connection) returns (q: Progress)
    requires graph.Valid() && graph.workflow == c.workflow && graph.inverted == c.inverted
    ensures q == DeliverEdge(c, p, items, edge)
  {
    if !CanExecute(c, edge.node) {
      return p;
    }
    var inputs := p.inputs;
    if edge.node !in inputs {
      inputs := inputs[edge.node := map[]];
    }
    var held := if edge.index in inputs[edge.node] then inputs[edge.node][edge.index] else [];
    inputs := inputs[edge.node := inputs[edge.node][edge.index := held + items]];
    assert inputs == Put(p.inputs, edge.node, edge.index, items);
    var ready := AllInputs(inputs[edge.node], InputCount(graph.inverted, edge.node, MAIN));
    if !ready || edge.node in p.found {
      return p.(inputs := inputs);
    }
    var node := graph.Lookup(edge.node);
    if node.None? || node.value.disabled {
      return p.(inputs := inputs);
    }
    return Progress(inputs, p.next + [node.value], p.found + {edge.node});
  }

  method FollowEdges(graph: Graph, c: Context, p: Progress, items: seq<Item>, edges: seq<Connection>)
    returns (q: Progress)
    requires graph.Valid() && graph.workflow == c.workflow && graph.inverted == c.inverted
    ensures q == DeliverEdges(c, p, items, edges, |edges|)
  {
    q := p;
    for k := 0 to |edges|
      invariant q == DeliverEdges(c, p, items, edges, k)
    {
      q := FollowEdge(graph, c, q, items, edges[k]);
    }
  }

  method SendOutputs(graph: Graph, c: Context, source: string, output: Output, inputs: Inputs)
    returns (filled: Inputs, next: seq<Node>)
    requires graph.Valid() && graph.workflow == c.workflow && graph.inverted == c.inverted
    ensures filled == Deliver(c, inputs, source, output).inputs && next == Deliver(c, inputs, source, output).next
  {
    if c.destination.Some? && !c.destination.value.exclusive && source == c.destination.value.node {
      return inputs, [];
    }
    var p := Progress(inputs, [], {});
    for index := 0 to |output|
      invariant p == DeliverOutputs(c, Progress(inputs, [], {}), source, output, index)
    {
      if output[index] != [] {
        p := FollowEdges(graph, c, p, output[index], OutputEdges(graph.workflow.connections, source, MAIN, index));
      }
    }
    return p.inputs, p.next;
  }

  method QueueNext(queue: seq<Node>, queued: set<string>, next: seq<Node>)
    returns (queue': seq<Node>, queued': set<string>)
    ensures (queue', queued') == Enqueue(queue, queued, next, |next|)
  {
    queue', queued' := queue, queued;
    for k := 0 to |next|
      invariant (queue', queued') == Enqueue(queue, queued, next, k)
    {
      if next[k].name !in queued' {
        queue', queued' := queue' + [next[k]], queued' + {next[k].name};
      }
    }
  }

  /** The results of a batch, in the order of the batch. */
  method HandleBatch(graph: Graph, c: Context, s: State, batch: seq<Node>, results: seq<NodeResult>)
    returns (t: State, suspended: bool)
    requires graph.Valid() && graph.workflow == c.workflow && graph.inverted == c.inverted && |batch| == |results|
    ensures (t, suspended) == HandleFrom(c, s, batch, results, 0)
  {
    t := s;
    for i := 0 to |batch|
      invariant HandleFrom(c, t, batch, results, i) == HandleFrom(c, s, batch, results, 0)
    {
      var node, result := batch[i], results[i];
      ghost var before := t;
      var tasks := if node.name in t.runData then t.runData[node.name] else [];
      t := t.(queued := t.queued - {node.name}, last := node.name,
              runData := t.runData[node.name := tasks + [Task(result.output, result.error, |tasks|)]]);
      assert t == Record(before, node, result);
      if result.error == Some(Suspended) {
        return t, true;
      }
      if result.error.Some? && (result.error.value.ContextEnded? || node.EffectiveOnError() == StopWorkflow) {
        if t.stopped.None? {
          t := t.(stopped := result.error);
        }
      } else if t.stopped.None? {
        var inputs, next := SendOutputs(graph, c, node.name, result.output, t.inputs);
        var queue, queued := QueueNext(t.queue, t.queued, next);
        t := t.(inputs := inputs, queue := queue, queued := queued,
                log := t.log + [Delivery(node.name, result.output)]);
      }
      assert t == Handle(c, before, node, result);
    }
    suspended := false;
  }

  method RunBatch(executor: Executor, round: nat, size: nat) returns (results: seq<NodeResult>)
    ensures results == Results(executor, round, size)
  {
    results := [];
    for i := 0 to size
      invariant |results| == i && forall j | 0 <= j < i :: results[j] == executor(round, j)
    {
      results := results + [executor(round, i)];
    }
  }

  method RunRounds(graph: Graph, c: Context, start: State, executor: Executor, ends: nat) returns (r: Execution)
    requires graph.Valid() && graph.workflow == c.workflow && graph.inverted == c.inverted
    ensures r == Rounds(c, start, executor, 0, ends)
  {
    var s, round := start, 0;
    while |s.queue| > 0
      invariant round <= ends && Rounds(c, s, executor, round, ends) == Rounds(c, start, executor, 0, ends)
      decreases ends - round
    {
      if round >= ends {
        return Execution(Canceled, s, round);
      }
      var results := RunBatch(executor, round, |s.queue|);
      var t, suspended := HandleBatch(graph, c, s.(queue := []), s.queue, results);
      assert (t, suspended) == Round(c, s, executor, round);
      s, round := t, round + 1;
      if suspended {
        return Execution(Waiting, s, round);
      }
      if s.stopped.Some? {
        return Execution(Stopped(s.stopped.value), s, round);
      }
    }
    return Execution(Succeeded, s, round);
  }

  method NamesOf(nodes: seq<Node>) returns (names: set<string>)
    ensures names == Names(nodes)
  {
    names := {};
    for i := 0 to |nodes|
      invariant names == Names(nodes[..i])
    {
      NamesAppend(nodes[..i], nodes[i]);
      assert nodes[..i + 1] == nodes[..i] + [nodes[i]];
      names := names + {nodes[i].name};
    }
    assert nodes[..|nodes|] == nodes;
  }

  /** The context is seen to have ended at the start of round `ends`. */
  method ExecuteWithOptions(workflow: Workflow, o: Options, executor: Executor, ends: nat)
    returns (outcome: Result<Execution, StartError>, ghost c: Context)
    ensures outcome.Failure? <==> o.destination.Some? && !Supported(workflow, o.destination.value)
    ensures outcome.Success? ==>
              Prepared(c) && c.workflow == workflow
              && c.destination ==
                 (if o.destination.None? then None
                  else Some(Destination(o.destination.value.node, o.destination.value.mode == "exclusive")))
              && outcome.value == Rounds(c, Start(c, o), executor, 0, ends)
  {
    var graph := new Graph(workflow);
    var prepared := AllowedNodes(graph, o.destination);
    if prepared.Failure? {
      return Failure(prepared.error), Context(workflow, graph.inverted, None, None);
    }
    var context := prepared.value;
    var inputs := o.initialInputs;
    if o.trigger != "" {
      inputs := inputs[o.trigger := map[0 := o.triggerItems]];
    }
    var queue := StartQueue(context, o);
    var queued := NamesOf(queue);
    var execution := RunRounds(graph, context, State(inputs, o.runData, queue, queued, "", None, []), executor, ends);
    return Success(execution), context;
  }
}
