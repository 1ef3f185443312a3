/** Workflow graphs: the inverted connections, parents and ancestors along main edges. */
module Graph {
  import opened Wrappers

  datatype OnError = StopWorkflow | ContinueRegularOutput | ContinueErrorOutput

  datatype Node = Node(name: string, kind: string, disabled: bool, onError: Option<OnError>, continueOnFail: bool) {
    function EffectiveOnError(): OnError {
      if onError.Some? then onError.value
      else if continueOnFail then ContinueRegularOutput
      else StopWorkflow
    }
  }

  /** The edge's own type field is not read by the engine. */
  datatype Connection = Connection(node: string, index: nat)

  /** source -> connection type -> output index -> edges */
  type Connections = map<string, map<string, seq<seq<Connection>>>>

  datatype InverseConnection = InverseConnection(node: string, output: nat)

  /** target -> connection type -> input index -> edges */
  type Inverted = map<string, map<string, seq<seq<InverseConnection>>>>

  datatype Workflow = Workflow(nodes: seq<Node>, connections: Connections)

  const MAIN: string := "main"

  /** The node that a map from names to nodes keeps when it is filled in order. */
  function LastNamed(nodes: seq<Node>, name: string): (r: Option<Node>)
    ensures r.Some? ==> r.value in nodes && r.value.name == name
    ensures r.None? ==> forall node | node in nodes :: node.name != name
  {
    if nodes == [] then None
    else if nodes[|nodes| - 1].name == name then Some(nodes[|nodes| - 1])
    else LastNamed(nodes[..|nodes| - 1], name)
  }

  lemma {:induction false} LastNamedAt(nodes: seq<Node>, name: string, i: nat)
    requires i < |nodes| && nodes[i].name == name && forall j | i < j < |nodes| :: nodes[j].name != name
    ensures LastNamed(nodes, name) == Some(nodes[i])
    decreases |nodes|
  {
    if i < |nodes| - 1 {
      LastNamedAt(nodes[..|nodes| - 1], name, i);
    }
  }

  datatype Edge = Edge(source: string, kind: string, output: nat, target: string, index: nat)

  function OutputEdges(c: Connections, source: string, kind: string, output: nat): seq<Connection> {
    if source in c && kind in c[source] && output < |c[source][kind]| then c[source][kind][output] else []
  }

  predicate HasEdge(c: Connections, e: Edge) {
    Connection(e.target, e.index) in OutputEdges(c, e.source, e.kind, e.output)
  }

  // ---------------------------------------------------------------- inverting connections

  function InputLists(inverted: Inverted, target: string, kind: string): seq<seq<InverseConnection>> {
    if target in inverted && kind in inverted[target] then inverted[target][kind] else []
  }

  function InputCount(inverted: Inverted, target: string, kind: string): nat {
    |InputLists(inverted, target, kind)|
  }

  predicate InvertedHas(inverted: Inverted, e: Edge) {
    var lists := InputLists(inverted, e.target, e.kind);
    e.index < |lists| && InverseConnection(e.source, e.output) in lists[e.index]
  }

  /** Some edge of the set enters the target at this index or above. */
  ghost predicate EntersAt(edges: set<Edge>, target: string, kind: string, index: nat) {
    exists e :: e in edges && e.target == target && e.kind == kind && e.index >= index
  }

  /** The inverted connections hold exactly these edges, with no more input slots than they need. */
  ghost predicate Inverts(inverted: Inverted, edges: set<Edge>) {
    && (forall e :: InvertedHas(inverted, e) <==> e in edges)
    && (forall target, kind, index: nat ::
          index < InputCount(inverted, target, kind) <==> EntersAt(edges, target, kind, index))
  }

  function Widened(lists: seq<seq<InverseConnection>>, index: nat): (r: seq<seq<InverseConnection>>)
    ensures |r| == if |lists| <= index then index + 1 else |lists|
    ensures forall i | 0 <= i < |r| :: r[i] == if i < |lists| then lists[i] else []
    decreases index + 1 - |lists|
  {
    if |lists| <= index then Widened(lists + [[]], index) else lists
  }

  function Added(inverted: Inverted, e: Edge): Inverted {
    var byKind := if e.target in inverted then inverted[e.target] else map[];
    var lists := Widened(if e.kind in byKind then byKind[e.kind] else [], e.index);
    inverted[e.target := byKind[e.kind := lists[e.index := lists[e.index] + [InverseConnection(e.source, e.output)]]]]
  }

  lemma AddingInverts(inverted: Inverted, edges: set<Edge>, e: Edge)
    requires Inverts(inverted, edges)
    ensures Inverts(Added(inverted, e), edges + {e})
  {
    var after := Added(inverted, e);
    forall f
      ensures InvertedHas(after, f) <==> f in edges + {e}
    {
      assert InvertedHas(inverted, f) <==> f in edges;
    }
    forall target, kind, index: nat
      ensures index < InputCount(after, target, kind) <==> EntersAt(edges + {e}, target, kind, index)
    {
      assert index < InputCount(inverted, target, kind) <==> EntersAt(edges, target, kind, index);
      if EntersAt(edges, target, kind, index) {
        var f :| f in edges && f.target == target && f.kind == kind && f.index >= index;
        assert f in edges + {e};
      }
      assert e in edges + {e};
    }
  }

  method AddEdge(inverted: Inverted, e: Edge) returns (r: Inverted)
    ensures r == Added(inverted, e)
  {
    var byKind := if e.target in inverted then inverted[e.target] else map[];
    var lists := if e.kind in byKind then byKind[e.kind] else [];
    ghost var before := lists;
    while |lists| <= e.index
      invariant Widened(lists, e.index) == Widened(before, e.index)
      decreases e.index + 1 - |lists|
    {
      lists := lists + [[]];
    }
    lists := lists[e.index := lists[e.index] + [InverseConnection(e.source, e.output)]];
    r := inverted[e.target := byKind[e.kind := lists]];
  }

  /** The edges of one output, of one connection type, and of one source. */
  ghost predicate FromOutput(list: seq<Connection>, n: nat, e: Edge) {
    exists i :: 0 <= i < n && i < |list| && list[i] == Connection(e.target, e.index)
  }

  ghost predicate FromKind(outputs: seq<seq<Connection>>, n: nat, e: Edge) {
    e.output < n && e.output < |outputs| && Connection(e.target, e.index) in outputs[e.output]
  }

  ghost predicate FromSource(byKind: map<string, seq<seq<Connection>>>, kinds: set<string>, e: Edge) {
    e.kind in kinds && e.kind in byKind && FromKind(byKind[e.kind], |byKind[e.kind]|, e)
  }

  method InvertOutput(inverted: Inverted, source: string, kind: string, output: nat, list: seq<Connection>,
      ghost edges: set<Edge>)
    returns (r: Inverted, ghost all: set<Edge>)
    requires Inverts(inverted, edges)
    ensures Inverts(r, all)
    ensures forall e :: e in all <==>
      || e in edges
      || (e.source == source && e.kind == kind && e.output == output && Connection(e.target, e.index) in list)
  {
    r, all := inverted, edges;
    for i := 0 to |list|
      invariant Inverts(r, all)
      invariant forall e :: e in all <==>
        e in edges || (e.source == source && e.kind == kind && e.output == output && FromOutput(list, i, e))
    {
      var e := Edge(source, kind, output, list[i].node, list[i].index);
      AddingInverts(r, all, e);
      r := AddEdge(r, e);
      all := all + {e};
    }
  }

  method InvertKind(inverted: Inverted, source: string, kind: string, outputs: seq<seq<Connection>>,
      ghost edges: set<Edge>)
    returns (r: Inverted, ghost all: set<Edge>)
    requires Inverts(inverted, edges)
    ensures Inverts(r, all)
    ensures forall e :: e in all <==>
      e in edges || (e.source == source && e.kind == kind && FromKind(outputs, |outputs|, e))
  {
    r, all := inverted, edges;
    for output := 0 to |outputs|
      invariant Inverts(r, all)
      invariant forall e :: e in all <==>
        e in edges || (e.source == source && e.kind == kind && FromKind(outputs, output, e))
    {
      r, all := InvertOutput(r, source, kind, output, outputs[output], all);
    }
  }

  method InvertSource(inverted: Inverted, source: string, byKind: map<string, seq<seq<Connection>>>,
      ghost edges: set<Edge>)
    returns (r: Inverted, ghost all: set<Edge>)
    requires Inverts(inverted, edges)
    ensures Inverts(r, all)
    ensures forall e :: e in all <==> e in edges || (e.source == source && FromSource(byKind, byKind.Keys, e))
  {
    r, all := inverted, edges;
    var kinds := byKind.Keys;
    while kinds != {}
      invariant kinds <= byKind.Keys && Inverts(r, all)
      invariant forall e :: e in all <==>
        e in edges || (e.source == source && FromSource(byKind, byKind.Keys - kinds, e))
      decreases |kinds|
    {
      var kind :| kind in kinds;  // any map order
      r, all := InvertKind(r, source, kind, byKind[kind], all);
      kinds := kinds - {kind};
    }
  }

  ghost predicate EntersFrom(c: Connections, target: string, kind: string, index: nat) {
    exists e :: HasEdge(c, e) && e.target == target && e.kind == kind && e.index >= index
  }

  /** Exactly the edges of the connections, turned around. */
  ghost predicate InvertsAll(c: Connections, inverted: Inverted) {
    && (forall e :: InvertedHas(inverted, e) <==> HasEdge(c, e))
    && (forall target, kind, index: nat ::
          index < InputCount(inverted, target, kind) <==> EntersFrom(c, target, kind, index))
  }

  method InvertConnections(c: Connections) returns (inverted: Inverted)
    ensures InvertsAll(c, inverted)
  {
    inverted := map[];
    ghost var edges: set<Edge> := {};
    var sources := c.Keys;
    while sources != {}
      invariant sources <= c.Keys && Inverts(inverted, edges)
      invariant forall e :: e in edges <==> e.source in c.Keys - sources && HasEdge(c, e)
      decreases |sources|
    {
      var source :| source in sources;
      inverted, edges := InvertSource(inverted, source, c[source], edges);
      sources := sources - {source};
    }
    forall target, kind, index: nat
      ensures index < InputCount(inverted, target, kind) <==> EntersFrom(c, target, kind, index)
    {
      assert index < InputCount(inverted, target, kind) <==> EntersAt(edges, target, kind, index);
      if EntersFrom(c, target, kind, index) {
        var e :| HasEdge(c, e) && e.target == target && e.kind == kind && e.index >= index;
        assert e in edges;
      }
    }
  }

  // ---------------------------------------------------------------- walks along main edges

  ghost predicate EdgeOf(c: Connections, kind: string, source: string, target: string) {
    exists e :: HasEdge(c, e) && e.kind == kind && e.source == source && e.target == target
  }

  ghost predicate MainEdge(c: Connections, source: string, target: string) {
    EdgeOf(c, MAIN, source, target)
  }

  lemma MainEdgesAre(c: Connections, source: string, target: string)
    ensures MainEdge(c, source, target) <==>
              exists output: nat, index: nat :: HasEdge(c, Edge(source, "main", output, target, index))
  {
    if MainEdge(c, source, target) {
      var e :| HasEdge(c, e) && e.kind == MAIN && e.source == source && e.target == target;
      assert e == Edge(source, "main", e.output, target, e.index);
    }
  }

  ghost predicate IsWalk(c: Connections, walk: seq<string>) {
    walk != [] && forall i | 0 <= i < |walk| - 1 :: MainEdge(c, walk[i], walk[i + 1])
  }

  ghost predicate Reaches(c: Connections, source: string, target: string) {
    exists walk :: IsWalk(c, walk) && walk[0] == source && walk[|walk| - 1] == target
  }

  lemma ReachesItself(c: Connections, name: string)
    ensures Reaches(c, name, name)
  {
    assert IsWalk(c, [name]) && [name][0] == name && [name][|[name]| - 1] == name;
  }

  lemma EdgeThenReach(c: Connections, parent: string, name: string, target: string)
    requires MainEdge(c, parent, name) && Reaches(c, name, target)
    ensures Reaches(c, parent, target)
  {
    var walk :| IsWalk(c, walk) && walk[0] == name && walk[|walk| - 1] == target;
    var longer := [parent] + walk;
    assert IsWalk(c, longer) && longer[0] == parent && longer[|longer| - 1] == target;
  }

  /** A set that contains the target and is closed under parents contains all that reach it. */
  lemma {:induction false} ClosedUnderParents(c: Connections, names: set<string>, walk: seq<string>)
    requires IsWalk(c, walk) && walk[|walk| - 1] in names
    requires forall parent, name | name in names && MainEdge(c, parent, name) :: parent in names
    ensures walk[0] in names
    decreases |walk|
  {
    if |walk| > 1 {
      assert MainEdge(c, walk[0], walk[1]);
      forall i | 0 <= i < |walk[1..]| - 1
        ensures MainEdge(c, walk[1..][i], walk[1..][i + 1])
      {
        assert MainEdge(c, walk[i + 1], walk[i + 2]);
      }
      ClosedUnderParents(c, names, walk[1..]);
    }
  }

  // ---------------------------------------------------------------- the graph

  predicate IsLastNamed(nodes: seq<Node>, name: string, i: nat) {
    i < |nodes| && nodes[i].name == name && forall j | i < j < |nodes| :: nodes[j].name != name
  }

  ghost predicate ParentBefore(inputs: seq<seq<InverseConnection>>, index: nat, k: nat, parent: string) {
    exists i, j :: 0 <= i <= index && i < |inputs| && 0 <= j < |inputs[i]| && (i == index ==> j < k)
      && inputs[i][j].node == parent
  }

  method VisitParents(parents: seq<string>, visited: set<string>, queue: seq<string>)
    returns (visited': set<string>, queue': seq<string>)
    ensures forall x :: x in visited' <==> x in visited || x in parents
    ensures forall x :: x in queue' <==> x in queue || (x in parents && x !in visited)
    ensures visited' == visited ==> queue' == queue
  {
    visited', queue' := visited, queue;
    for k := 0 to |parents|
      invariant forall x :: x in visited' <==> x in visited || x in parents[..k]
      invariant forall x :: x in queue' <==> x in queue || (x in parents[..k] && x !in visited)
      invariant visited' == visited ==> queue' == queue
    {
      if parents[k] !in visited' {
        visited' := visited' + {parents[k]};
        queue' := queue' + [parents[k]];
        assert parents[k] in visited' && parents[k] !in visited;
      }
    }
    assert parents[..|parents|] == parents;
  }

  class Graph {
    const workflow: Workflow
    var nodes: map<string, nat>
    var inverted: Inverted

    ghost predicate Valid()
      reads this
    {
      && InvertsAll(workflow.connections, inverted)
      && (forall name | name in nodes :: IsLastNamed(workflow.nodes, name, nodes[name]))
      && (forall i | 0 <= i < |workflow.nodes| :: workflow.nodes[i].name in nodes)
    }

    constructor (workflow: Workflow)
      ensures Valid() && this.workflow == workflow
    {
      this.workflow := workflow;
      nodes := map[];
      inverted := map[];
      new;
      for index := 0 to |workflow.nodes|
        invariant this.workflow == workflow
        invariant forall name | name in nodes :: IsLastNamed(workflow.nodes[..index], name, nodes[name])
        invariant forall i | 0 <= i < index :: workflow.nodes[i].name in nodes
      {
        nodes := nodes[workflow.nodes[index].name := index];
      }
      assert workflow.nodes[..|workflow.nodes|] == workflow.nodes;
      inverted := InvertConnections(workflow.connections);
    }

    method Lookup(name: string) returns (r: Option<Node>)
      requires Valid()
      ensures r == LastNamed(workflow.nodes, name)
    {
      if name in nodes {
        LastNamedAt(workflow.nodes, name, nodes[name]);
        return Some(workflow.nodes[nodes[name]]);
      }
      return None;
    }

    method Parents(name: string, kind: string) returns (parents: seq<string>)
      requires Valid()
      ensures forall i, j | 0 <= i < j < |parents| :: parents[i] != parents[j]
      ensures forall parent :: parent in parents <==> EdgeOf(workflow.connections, kind, parent, name)
    {
      var inputs := InputLists(inverted, name, kind);
      parents := [];
      for index := 0 to |inputs|
        invariant forall i, j | 0 <= i < j < |parents| :: parents[i] != parents[j]
        invariant forall parent :: parent in parents <==> ParentBefore(inputs, index, 0, parent)
      {
        var edges := inputs[index];
        for k := 0 to |edges|
          invariant forall i, j | 0 <= i < j < |parents| :: parents[i] != parents[j]
          invariant forall parent :: parent in parents <==> ParentBefore(inputs, index, k, parent)
        {
          if edges[k].node !in parents {
            parents := parents + [edges[k].node];
          }
        }
      }
      forall parent
        ensures parent in parents <==> EdgeOf(workflow.connections, kind, parent, name)
      {
        if parent in parents {
          var i, j :| 0 <= i < |inputs| && 0 <= j < |inputs[i]| && inputs[i][j].node == parent;
          assert InvertedHas(inverted, Edge(parent, kind, inputs[i][j].output, name, i));
        }
        if e :| HasEdge(workflow.connections, e) && e.kind == kind && e.source == parent && e.target == name {
          assert InvertedHas(inverted, e);
        }
      }
    }

    /** A breadth-first search upwards: exactly the nodes that reach `name` along main edges. */
    method Ancestors(name: string) returns (visited: set<string>)
      requires Valid()
      ensures forall x :: x in visited <==> Reaches(workflow.connections, x, name)
    {
      ghost var all := workflow.connections.Keys + {name};
      visited := {name};
      var queue := [name];
      ReachesItself(workflow.connections, name);
      while queue != []
        invariant name in visited && visited <= all
        invariant forall x | x in queue :: x in visited
        invariant forall x | x in visited :: Reaches(workflow.connections, x, name)
        invariant forall parent, x | x in visited && x !in queue && MainEdge(workflow.connections, parent, x) ::
          parent in visited
        decreases all - visited, |queue|
      {
        var current := queue[0];
        var parents := Parents(current, MAIN);
        forall parent | parent in parents
          ensures parent in all && Reaches(workflow.connections, parent, name)
        {
          assert MainEdge(workflow.connections, parent, current);
          EdgeThenReach(workflow.connections, parent, current, name);
        }
        ghost var before := visited;
        visited, queue := VisitParents(parents, visited, queue[1..]);
        if visited != before {
          assert all - visited < all - before;
        }
      }
      forall x | Reaches(workflow.connections, x, name)
        ensures x in visited
      {
        var walk :| IsWalk(workflow.connections, walk) && walk[0] == x && walk[|walk| - 1] == name;
        ClosedUnderParents(workflow.connections, visited, walk);
      }
    }
  }
}
