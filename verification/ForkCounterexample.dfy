/** A definition in which a splitter dominates everything, and still two legs of one group deliver
    together, and two workflow.output nodes that the compiler lets through fire together. */
module ForkCounterexample {
  import opened Common
  import opened Digraphs
  import opened WorkflowGraph
  import opened Executor
  import opened ScheduleIndependence
  import opened ExecutorProgress
  import opened Exclusivity
  import opened OutputRuns
  import Compile
  import ExecutorInvariant
  import Joins
  import WorkflowOutputs

  function Edge(from: NodeId, output: string, to: NodeId): EdgeConfig {
    EdgeConfig(from, to, output, None)
  }

  /** X.then -> A, C, P, Q; X.else -> B, P; A, B, C -> J. */
  const EDGES: seq<EdgeConfig> :=
    [Edge("X", "then", "A"), Edge("X", "then", "C"), Edge("X", "then", "P"), Edge("X", "then", "Q"),
     Edge("X", "else", "B"), Edge("X", "else", "P"),
     Edge("A", "success", "J"), Edge("B", "success", "J"), Edge("C", "success", "J")]

  const NODES: set<NodeId> := {"X", "A", "B", "C", "J", "P", "Q"}

  /** P and Q are workflow outputs, each with its own id for a name. */
  function ConfigOf(id: NodeId): NodeConfig {
    NodeConfig(if id == "P" || id == "Q" then "workflow.output" else "step", id, "", {})
  }

  const FORK: WorkflowConfig := WorkflowConfig(NoTimeout, map id | id in NODES :: ConfigOf(id), EDGES)

  function Outputs(c: NodeConfig): seq<string> {
    ["then", "else", "success", "error"]
  }

  ghost predicate IsEdge(u: NodeId, o: string, t: NodeId) {
    || (u == "X" && o == "then" && t in {"A", "C", "P", "Q"})
    || (u == "X" && o == "else" && t in {"B", "P"})
    || (u in {"A", "B", "C"} && o == "success" && t == "J")
  }

  lemma ListedIsEdge(e: EdgeConfig)
    requires e in EDGES
    ensures IsEdge(e.from, e.output, e.to) && e.Port() == e.output
  {
  }

  lemma IsEdgeListed(u: NodeId, o: string, t: NodeId)
    requires IsEdge(u, o, t)
    ensures Edge(u, o, t) in EDGES
  {
    if u == "X" && o == "then" {
      assert Edge(u, o, t) == EDGES[0] || Edge(u, o, t) == EDGES[1] || Edge(u, o, t) == EDGES[2] || Edge(u, o, t) == EDGES[3];
    } else if u == "X" {
      assert Edge(u, o, t) == EDGES[4] || Edge(u, o, t) == EDGES[5];
    } else {
      assert Edge(u, o, t) == EDGES[6] || Edge(u, o, t) == EDGES[7] || Edge(u, o, t) == EDGES[8];
    }
  }

  lemma EdgesMeanIsEdge(u: NodeId, o: string, t: NodeId)
    ensures (exists e :: e in EDGES && e.from == u && e.Port() == o && e.to == t) <==> IsEdge(u, o, t)
  {
    if e :| e in EDGES && e.from == u && e.Port() == o && e.to == t { ListedIsEdge(e); }
    if IsEdge(u, o, t) {
      IsEdgeListed(u, o, t);
      ListedIsEdge(Edge(u, o, t));
    }
  }

  /** The adjacency holds exactly the nine edges. */
  ghost predicate Wires(adjacency: Adjacency) {
    && adjacency.Keys == NODES
    && forall u, o, t :: u in adjacency && o in adjacency[u] && t in adjacency[u][o] <==> IsEdge(u, o, t)
  }

  lemma ListedWires()
    ensures Wires(Compile.AdjacencyOf(NODES, EDGES))
  {
    var adjacency := Compile.AdjacencyOf(NODES, EDGES);
    forall u, o, t ensures u in adjacency && o in adjacency[u] && t in adjacency[u][o] <==> IsEdge(u, o, t) {
      EdgesMeanIsEdge(u, o, t);
      if u in NODES { Compile.AdjacencyHolds(NODES, EDGES, u, o, t); }
    }
  }

  lemma CompiledWires(g: CompiledGraph, wf: WorkflowConfig)
    requires Compile.Implements(g, wf, Outputs) && wf.nodes.Keys == NODES && wf.edges == EDGES
    ensures Wires(g.adjacency)
  {
    Compile.ImplementsAdjacency(g, wf, Outputs);
    ListedWires();
  }

  lemma Successors(adjacency: Adjacency, u: NodeId, t: NodeId)
    requires Wires(adjacency)
    ensures t in Succ(ArrowsOf(adjacency), u) <==> exists o :: IsEdge(u, o, t)
  {
    if t in Succ(ArrowsOf(adjacency), u) {
      var o :| o in adjacency[u] && t in adjacency[u][o];
      assert IsEdge(u, o, t);
    }
    if o :| IsEdge(u, o, t) {
      assert u in adjacency && o in adjacency[u] && t in adjacency[u][o];
      assert t in Children(adjacency, u);
    }
  }

  /** Below X, everything but J is reached only from itself. */
  lemma ReachesBelow(adjacency: Adjacency, s: NodeId, t: NodeId)
    requires Wires(adjacency) && s != "X" && Reaches(ArrowsOf(adjacency), s, t)
    ensures t == s || t == "J"
  {
    var closed := {s, "J"};
    forall x | x in closed ensures Succ(ArrowsOf(adjacency), x) <= closed {
      forall y | y in Succ(ArrowsOf(adjacency), x) ensures y in closed { Successors(adjacency, x, y); }
    }
    ClosedHoldsReachable(ArrowsOf(adjacency), closed, s, t);
  }

  lemma TwoOutputs(adjacency: Adjacency)
    requires Wires(adjacency)
    ensures |adjacency["X"]| > 1
  {
    assert IsEdge("X", "then", "A") && IsEdge("X", "else", "B");
    SubsetCardinality({"then", "else"}, adjacency["X"].Keys);
  }

  // ---------------------------------------------------------------------------
  // One group of legs

  lemma DescendsFromX(adjacency: Adjacency, src: NodeId, o: string)
    requires Wires(adjacency) && src in {"A", "B", "C"}
    ensures Joins.Descends(adjacency, "X", "J", src, o) <==> o == if src == "B" then "else" else "then"
  {
    var own := if src == "B" then "else" else "then";
    assert IsEdge("X", own, src);
    ReachesSelf(ArrowsOf(adjacency), src);
    if Joins.Descends(adjacency, "X", "J", src, o) {
      var s :| s in adjacency["X"][o] && Reaches(ArrowsOf(adjacency), s, src);
      assert IsEdge("X", o, s);
      ReachesBelow(adjacency, s, src);
    }
  }

  lemma LegsAreExclusive(adjacency: Adjacency, leg: NodeId)
    requires Wires(adjacency) && leg in {"A", "C"}
    ensures Joins.Exclusive(adjacency, "J", leg, "B")
  {
    TwoOutputs(adjacency);
    forall o ensures !(Joins.Descends(adjacency, "X", "J", leg, o) && Joins.Descends(adjacency, "X", "J", "B", o)) {
      DescendsFromX(adjacency, leg, o);
      DescendsFromX(adjacency, "B", o);
    }
    DescendsFromX(adjacency, leg, "then");
    DescendsFromX(adjacency, "B", "else");
    assert Joins.Descends(adjacency, "X", "J", leg, "then") && Joins.Descends(adjacency, "X", "J", "B", "else");
    assert Joins.Splits(adjacency, "X", "J", leg, "B");
  }

  /** A and C are linked through B. */
  lemma LegsShareGroup(adjacency: Adjacency, sources: set<NodeId>, groups: map<NodeId, nat>, count: nat)
    requires Wires(adjacency) && sources == {"A", "B", "C"}
    requires Joins.Partitions(adjacency, "J", sources, groups, count)
    ensures groups["A"] == groups["C"]
  {
    LegsAreExclusive(adjacency, "A");
    LegsAreExclusive(adjacency, "C");
    Joins.ExclusiveSymmetric(adjacency, "J", "C", "B");
    var x := Joins.ExclusionGraph(adjacency, "J", sources);
    assert "B" in Succ(x, "A") && "C" in Succ(x, "B");
    ReachesSelf(x, "C");
    ReachesEdgeThen(x, "B", "C", "C");
    ReachesEdgeThen(x, "A", "B", "C");
  }

  lemma SourcesMeanEdges(g: CompiledGraph, v: NodeId, u: NodeId)
    requires Wired(g) && Wires(g.adjacency)
    ensures u in Inbound(g, v) <==> exists o :: IsEdge(u, o, v)
  {
    ArrowIsEdge(g, u, v);
    Successors(g.adjacency, u, v);
  }

  lemma LegSources(g: CompiledGraph)
    requires Wired(g) && Wires(g.adjacency)
    ensures Elements(Inbound(g, "J")) == {"A", "B", "C"}
  {
    forall u ensures u in Inbound(g, "J") <==> u in {"A", "B", "C"} {
      SourcesMeanEdges(g, "J", u);
      if u in {"A", "B", "C"} { assert IsEdge(u, "success", "J"); }
    }
  }

  lemma SameGroupOfJ(g: CompiledGraph)
    requires Wired(g) && Wires(g.adjacency) && Compile.JoinClassified(g, "J")
    ensures SameGroup(g, "J", Group(g, "J", "A"), "A", "C")
  {
    LegSources(g);
    assert "A" in Elements(Inbound(g, "J")) && "C" in Elements(Inbound(g, "J"));
    LegsShareGroup(g.adjacency, {"A", "B", "C"}, g.joinGroups["J"], g.joinGroupCount["J"]);
  }

  // ---------------------------------------------------------------------------
  // The run in which X follows "then"

  ghost function TakeThen(): Choice {
    (u: NodeId) => if u == "X" then "then" else "success"
  }

  lemma XRuns(g: CompiledGraph, nodes: set<NodeId>)
    requires Wired(g) && Wires(g.adjacency) && Closed(g, TakeThen(), nodes)
    ensures "X" in nodes
  {
    if Inbound(g, "X") != [] { SourcesMeanEdges(g, "X", Inbound(g, "X")[0]); }
    assert Due(g, TakeThen(), nodes, "X");
  }

  lemma OnlySourceIsX(g: CompiledGraph, t: NodeId, u: NodeId)
    requires Wired(g) && Wires(g.adjacency) && t in {"A", "C", "P", "Q"} && u in Inbound(g, t)
    ensures u == "X"
  {
    SourcesMeanEdges(g, t, u);
  }

  lemma BelowThenRuns(g: CompiledGraph, nodes: set<NodeId>, t: NodeId)
    requires Wired(g) && Wires(g.adjacency) && t in {"A", "C", "P", "Q"} && Grouped(g, t)
    requires Closed(g, TakeThen(), nodes) && "X" in nodes
    ensures t in nodes
  {
    assert IsEdge("X", "then", t);
    SourcesMeanEdges(g, t, "X");
    forall i: nat | i < GroupCount(g, t) ensures Feeds(g, TakeThen(), nodes, t, i) {
      assert HasSource(g, t, i);
      var u :| u in g.joinGroups[t] && g.joinGroups[t][u] == i;
      OnlySourceIsX(g, t, u);
      assert t in Targets(g, "X", TakeThen()("X"));
    }
    assert Due(g, TakeThen(), nodes, t);
  }

  /** All that "then" leads to runs, in the least closed set of the choice. */
  lemma ThenRuns(w: Setup, t: NodeId) returns (es: seq<Event>)
    requires Runnable(w.g) && Wires(w.g.adjacency)
    ensures Possible(w, es) && LeastClosed(w.g, TakeThen(), Dispatched(After(w, es)))
    ensures t in {"A", "C", "P", "Q"} ==> t in Dispatched(After(w, es))
  {
    es := EveryChoiceHasARun(w, TakeThen());
    if t in {"A", "C", "P", "Q"} { StaticallyRuns(w.g, Dispatched(After(w, es)), t); }
  }

  lemma StaticallyRuns(g: CompiledGraph, nodes: set<NodeId>, t: NodeId)
    requires Runnable(g) && Wires(g.adjacency) && Closed(g, TakeThen(), nodes) && t in {"A", "C", "P", "Q"}
    ensures t in nodes
  {
    XRuns(g, nodes);
    assert Grouped(g, t);
    BelowThenRuns(g, nodes, t);
  }

  lemma BothDeliverToJ(w: Setup)
    requires Runnable(w.g) && Wires(w.g.adjacency)
    ensures CanBothDeliver(w, "J", "A", "C")
  {
    var es := ThenRuns(w, "A");
    var nodes := Dispatched(After(w, es));
    StaticallyRuns(w.g, nodes, "C");
    FeedJ(w.g, nodes);
    StaticsAreDelivered(w, TakeThen(), nodes, "J", "A", "C");
  }

  lemma FeedJ(g: CompiledGraph, nodes: set<NodeId>)
    requires Wires(g.adjacency) && "A" in nodes && "C" in nodes
    ensures BothFeed(g, TakeThen(), nodes, "J", "A", "C")
  {
    assert IsEdge("A", "success", "J") && IsEdge("C", "success", "J");
  }

  /** X lies on every entry path: it is the only entry. */
  lemma XDominates(g: CompiledGraph, v: NodeId)
    requires Wired(g) && Wires(g.adjacency)
    ensures Dominates(g, "X", v)
  {
    forall p | IsPath(Arrows(g), p) && ExecutorInvariant.IsEntry(g, p[0]) && p[0] in g.nodes && p[|p|-1] == v
      ensures "X" in p
    {
      if p[0] != "X" {
        var o, u := if p[0] == "B" then "else" else if p[0] == "J" then "success" else "then",
                    if p[0] == "J" then "A" else "X";
        assert IsEdge(u, o, p[0]);
        SourcesMeanEdges(g, p[0], u);
      }
    }
  }

  /** Groups are closures: though X dominates every node and splits A from B and C from B, the legs
      A and C share a group of J and both deliver in some run. */
  lemma GroupCanDeliverTwice(w: Setup)
    requires Compile.Implements(w.g, FORK, Outputs)
    ensures SameGroup(w.g, "J", Group(w.g, "J", "A"), "A", "C")
    ensures CanBothDeliver(w, "J", "A", "C")
    ensures Dominates(w.g, "X", "A") && Dominates(w.g, "X", "B") && Dominates(w.g, "X", "C")
  {
    CompiledWires(w.g, FORK);
    SameGroupOfJ(w.g);
    BothDeliverToJ(w);
    XDominates(w.g, "A");
    XDominates(w.g, "B");
    XDominates(w.g, "C");
  }

  // ---------------------------------------------------------------------------
  // Two outputs

  lemma LeadsFromX(adjacency: Adjacency, o: string, t: NodeId)
    requires Wires(adjacency) && t in {"P", "Q"}
    ensures WorkflowOutputs.Leads(adjacency, "X", o, t) <==> IsEdge("X", o, t)
  {
    ReachesSelf(ArrowsOf(adjacency), t);
    if WorkflowOutputs.Leads(adjacency, "X", o, t) {
      var s :| s in adjacency["X"][o] && Reaches(ArrowsOf(adjacency), s, t);
      assert IsEdge("X", o, s);
      ReachesBelow(adjacency, s, t);
    }
    if IsEdge("X", o, t) { assert t in adjacency["X"][o]; }
  }

  /** P's first output is "else", though "then" leads to it as well. */
  lemma OutputsSeparated(adjacency: Adjacency)
    requires Wires(adjacency)
    ensures WorkflowOutputs.Separated(adjacency, "P", "Q")
  {
    TwoOutputs(adjacency);
    assert IsEdge("X", "else", "P") && IsEdge("X", "then", "Q");
    forall t | t in {"P", "Q"} ensures StrictlyReaches(ArrowsOf(adjacency), "X", t) {
      assert IsEdge("X", "then", t);
      Successors(adjacency, "X", t);
      ReachesSelf(ArrowsOf(adjacency), t);
    }
    forall o ensures WorkflowOutputs.Leads(adjacency, "X", o, "P") <==> o == "else" || o == "then" {
      LeadsFromX(adjacency, o, "P");
    }
    forall o ensures WorkflowOutputs.Leads(adjacency, "X", o, "Q") <==> o == "then" { LeadsFromX(adjacency, o, "Q"); }
    assert Leq("else", "then");
    assert Leq("else", "else") && Leq("then", "then");
    assert WorkflowOutputs.FirstLeading(adjacency, "X", "else", "P");
    assert WorkflowOutputs.FirstLeading(adjacency, "X", "then", "Q");
    assert WorkflowOutputs.KeepsApart(adjacency, "X", "P", "Q");
  }

  function Height(u: NodeId): nat {
    if u == "X" then 2 else if u in {"A", "B", "C"} then 1 else 0
  }

  lemma EdgeFalls(e: EdgeConfig)
    requires e in EDGES
    ensures Height(e.to) < Height(e.from) && e.to in NODES && e.from in NODES
  {
  }

  lemma ForkIsAcyclic()
    ensures Acyclic(Compile.EdgeGraph(NODES, EDGES))
  {
    forall e | e in EDGES ensures e.to in NODES && Height(e.to) < Height(e.from) { EdgeFalls(e); }
    Compile.FallingEdgesAcyclic(NODES, EDGES, Height);
  }

  lemma EdgeIsValid(nodes: map<NodeId, CompiledNode>, e: EdgeConfig)
    requires nodes.Keys == NODES && forall id :: id in NODES ==> nodes[id] == Compile.Node(ConfigOf(id), Outputs)
    requires e in EDGES
    ensures Compile.EdgeOk(nodes, e)
  {
    EdgeFalls(e);
    PlainEdge(e);
    DeclaredOutput(nodes, e);
  }

  lemma PlainEdge(e: EdgeConfig)
    requires e in EDGES
    ensures e.retry.None? && (e.output == "then" || e.output == "else" || e.output == "success")
  {
  }

  lemma DeclaredOutput(nodes: map<NodeId, CompiledNode>, e: EdgeConfig)
    requires e.from in nodes && e.to in nodes && nodes[e.from].outputs == ["then", "else", "success", "error"]
    requires e.retry.None? && (e.output == "then" || e.output == "else" || e.output == "success")
    ensures Compile.EdgeOk(nodes, e)
  {
    var outputs := nodes[e.from].outputs;
    assert outputs[0] == "then" && outputs[1] == "else" && outputs[2] == "success";
  }

  lemma OnlyTwoOutputs(nodes: map<NodeId, CompiledNode>, id: NodeId)
    requires nodes.Keys == NODES && forall id :: id in NODES ==> nodes[id] == Compile.Node(ConfigOf(id), Outputs)
    requires WorkflowOutputs.IsOutput(nodes, id)
    ensures (id == "P" || id == "Q") && nodes[id].name == id
  {
  }

  lemma ForkOutputsAllowed(nodes: map<NodeId, CompiledNode>)
    requires nodes.Keys == NODES && forall id :: id in NODES ==> nodes[id] == Compile.Node(ConfigOf(id), Outputs)
    ensures WorkflowOutputs.Allowed(nodes, Compile.AdjacencyOf(NODES, EDGES))
  {
    var adjacency := Compile.AdjacencyOf(NODES, EDGES);
    ListedWires();
    OutputsSeparated(adjacency);
    WorkflowOutputs.SeparatedSymmetric(adjacency, "P", "Q");
    forall a, b | WorkflowOutputs.IsOutput(nodes, a) && WorkflowOutputs.IsOutput(nodes, b) && a != b
      ensures WorkflowOutputs.PairAllowed(nodes, adjacency, a, b)
    {
      OnlyTwoOutputs(nodes, a);
      OnlyTwoOutputs(nodes, b);
    }
  }

  /** The compiler accepts the definition, its output check included. */
  lemma ForkCompiles()
    ensures Compile.Compilable(FORK, Outputs)
  {
    var nodes := map id | id in FORK.nodes :: Compile.Node(FORK.nodes[id], Outputs);
    assert nodes.Keys == NODES;
    forall e | e in EDGES ensures Compile.EdgeOk(nodes, e) { EdgeIsValid(nodes, e); }
    ForkIsAcyclic();
    ForkOutputsAllowed(nodes);
  }

  /** "Only one can fire" fails although the definition compiles: both outputs run in some run. */
  lemma OutputsCanBothFire(w: Setup)
    requires Compile.Implements(w.g, FORK, Outputs)
    ensures WorkflowOutputs.IsOutput(w.g.nodes, "P") && WorkflowOutputs.IsOutput(w.g.nodes, "Q")
    ensures CanBothRun(w, "P", "Q")
  {
    CompiledWires(w.g, FORK);
    BothOutputsRun(w);
  }

  lemma BothOutputsRun(w: Setup)
    requires Runnable(w.g) && Wires(w.g.adjacency)
    ensures CanBothRun(w, "P", "Q")
  {
    var es := ThenRuns(w, "P");
    StaticallyRuns(w.g, Dispatched(After(w, es)), "Q");
  }
}
