/** A definition for which the compiler puts two legs into one exclusive group although both
    deliver in some run: the splitting node X is bypassed when W follows its output "b". */
module ExclusivityCounterexample {
  import opened Common
  import opened Digraphs
  import opened WorkflowGraph
  import opened Executor
  import opened ScheduleIndependence
  import opened ExecutorProgress
  import opened Exclusivity
  import Compile
  import Joins

  function Edge(from: NodeId, output: string, to: NodeId): EdgeConfig {
    EdgeConfig(from, to, output, None)
  }

  /** W.a -> X, X.then -> A, X.else -> B, W.b -> A, W.b -> B, A -> J, B -> J. */
  const EDGES: seq<EdgeConfig> :=
    [Edge("W", "a", "X"), Edge("X", "then", "A"), Edge("X", "else", "B"), Edge("W", "b", "A"), Edge("W", "b", "B"),
     Edge("A", "success", "J"), Edge("B", "success", "J")]

  const BYPASS: WorkflowConfig :=
    WorkflowConfig(NoTimeout, map id | id in {"W", "X", "A", "B", "J"} :: NodeConfig("step", "", "", {}), EDGES)

  function Outputs(c: NodeConfig): seq<string> {
    ["a", "b", "then", "else", "success", "error"]
  }

  ghost predicate IsEdge(u: NodeId, o: string, t: NodeId) {
    || (u == "W" && ((o == "a" && t == "X") || (o == "b" && (t == "A" || t == "B"))))
    || (u == "X" && ((o == "then" && t == "A") || (o == "else" && t == "B")))
    || ((u == "A" || u == "B") && o == "success" && t == "J")
  }

  lemma ListedIsEdge(e: EdgeConfig)
    requires e in EDGES
    ensures IsEdge(e.from, e.output, e.to) && e.Port() == e.output
  {
  }

  lemma IsEdgeListed(u: NodeId, o: string, t: NodeId)
    requires IsEdge(u, o, t)
    ensures Edge(u, o, t) in EDGES
  {
    if u == "W" {
      assert Edge(u, o, t) == EDGES[0] || Edge(u, o, t) == EDGES[3] || Edge(u, o, t) == EDGES[4];
    } else if u == "X" {
      assert Edge(u, o, t) == EDGES[1] || Edge(u, o, t) == EDGES[2];
    } else {
      assert Edge(u, o, t) == EDGES[5] || Edge(u, o, t) == EDGES[6];
    }
  }

  lemma EdgesMeanIsEdge(u: NodeId, o: string, t: NodeId)
    ensures (exists e :: e in EDGES && e.from == u && e.Port() == o && e.to == t) <==> IsEdge(u, o, t)
  {
    if e :| e in EDGES && e.from == u && e.Port() == o && e.to == t { ListedIsEdge(e); }
    if IsEdge(u, o, t) {
      IsEdgeListed(u, o, t);
      ListedIsEdge(Edge(u, o, t));
    }
  }

  /** The adjacency holds exactly the seven edges. */
  ghost predicate Wires(adjacency: Adjacency) {
    && adjacency.Keys == {"W", "X", "A", "B", "J"}
    && forall u, o, t :: u in adjacency && o in adjacency[u] && t in adjacency[u][o] <==> IsEdge(u, o, t)
  }

  lemma CompiledWires(g: CompiledGraph, wf: WorkflowConfig)
    requires Compile.Implements(g, wf, Outputs)
    requires wf.nodes.Keys == {"W", "X", "A", "B", "J"} && wf.edges == EDGES
    ensures Wires(g.adjacency)
  {
    Compile.ImplementsAdjacency(g, wf, Outputs);
    ListedWires(wf.nodes.Keys);
  }

  lemma ListedWires(nodes: set<NodeId>)
    requires nodes == {"W", "X", "A", "B", "J"}
    ensures Wires(Compile.AdjacencyOf(nodes, EDGES))
  {
    var adjacency := Compile.AdjacencyOf(nodes, EDGES);
    forall u, o, t ensures u in adjacency && o in adjacency[u] && t in adjacency[u][o] <==> IsEdge(u, o, t) {
      EdgesMeanIsEdge(u, o, t);
      if u in nodes { Compile.AdjacencyHolds(nodes, EDGES, u, o, t); }
    }
  }

  lemma Successors(adjacency: Adjacency, u: NodeId, t: NodeId)
    requires Wires(adjacency)
    ensures t in Succ(ArrowsOf(adjacency), u) <==> exists o :: IsEdge(u, o, t)
  {
    if t in Succ(ArrowsOf(adjacency), u) {
      var o :| o in adjacency[u] && t in adjacency[u][o];
      assert IsEdge(u, o, t);
    }
    if o :| IsEdge(u, o, t) {
      assert u in adjacency && o in adjacency[u] && t in adjacency[u][o];
      assert t in Children(adjacency, u);
    }
  }

  /** The only arrow out of A or B goes to J, and J has none. */
  lemma CannotReach(adjacency: Adjacency, s: NodeId, t: NodeId)
    requires Wires(adjacency) && s in {"A", "B"} && t !in {s, "J"}
    ensures !Reaches(ArrowsOf(adjacency), s, t)
  {
    if Reaches(ArrowsOf(adjacency), s, t) {
      var closed := {s, "J"};
      forall x | x in closed ensures Succ(ArrowsOf(adjacency), x) <= closed {
        forall y | y in Succ(ArrowsOf(adjacency), x) ensures y in closed { Successors(adjacency, x, y); }
      }
      ClosedHoldsReachable(ArrowsOf(adjacency), closed, s, t);
    }
  }

  lemma TwoOutputs(outputs: map<string, seq<NodeId>>, o: string, o': string)
    requires o in outputs && o' in outputs && o != o'
    ensures |outputs| > 1
  {
    SubsetCardinality({o, o'}, outputs.Keys);
  }

  /** Through X, the leg A descends only from "then" and the leg B only from "else". */
  lemma DescendsFromX(adjacency: Adjacency, src: NodeId, o: string)
    requires Wires(adjacency) && src in {"A", "B"}
    ensures Joins.Descends(adjacency, "X", "J", src, o) <==> o == if src == "A" then "then" else "else"
  {
    var own := if src == "A" then "then" else "else";
    assert IsEdge("X", own, src);
    ReachesSelf(ArrowsOf(adjacency), src);
    if Joins.Descends(adjacency, "X", "J", src, o) {
      var s :| s in adjacency["X"][o] && Reaches(ArrowsOf(adjacency), s, src);
      assert IsEdge("X", o, s);
      if s != src { CannotReach(adjacency, s, src); }
    }
  }

  /** X separates the legs A and B of J. */
  lemma LegsAreExclusive(adjacency: Adjacency)
    requires Wires(adjacency)
    ensures Joins.Exclusive(adjacency, "J", "A", "B")
  {
    assert IsEdge("X", "then", "A") && IsEdge("X", "else", "B");
    TwoOutputs(adjacency["X"], "then", "else");
    forall o ensures !(Joins.Descends(adjacency, "X", "J", "A", o) && Joins.Descends(adjacency, "X", "J", "B", o)) {
      DescendsFromX(adjacency, "A", o);
      DescendsFromX(adjacency, "B", o);
    }
    DescendsFromX(adjacency, "A", "then");
    DescendsFromX(adjacency, "B", "else");
    assert Joins.Descends(adjacency, "X", "J", "A", "then") && Joins.Descends(adjacency, "X", "J", "B", "else");
    assert Joins.Splits(adjacency, "X", "J", "A", "B");
  }

  /** Through W, the leg from X descends only from "a" and W's own leg only from "b". */
  lemma DescendsFromW(adjacency: Adjacency, leg: NodeId, o: string)
    requires Wires(adjacency) && leg in {"A", "B"}
    ensures Joins.Descends(adjacency, "W", leg, "X", o) <==> o == "a"
    ensures Joins.Descends(adjacency, "W", leg, "W", o) <==> o == "b"
  {
    assert IsEdge("W", "a", "X") && IsEdge("W", "b", leg);
    ReachesSelf(ArrowsOf(adjacency), "X");
    if Joins.Descends(adjacency, "W", leg, "X", o) {
      var s :| s in adjacency["W"][o] && Reaches(ArrowsOf(adjacency), s, "X");
      assert IsEdge("W", o, s);
      if s != "X" { CannotReach(adjacency, s, "X"); }
    }
    if Joins.Descends(adjacency, "W", leg, "W", o) { assert IsEdge("W", o, leg); }
  }

  /** W separates the legs X and W of `leg`, so either of them alone lets `leg` run. */
  lemma BypassIsExclusive(adjacency: Adjacency, leg: NodeId)
    requires Wires(adjacency) && leg in {"A", "B"}
    ensures Joins.Exclusive(adjacency, leg, "X", "W")
  {
    assert IsEdge("W", "a", "X") && IsEdge("W", "b", leg);
    TwoOutputs(adjacency["W"], "a", "b");
    forall o ensures !(Joins.Descends(adjacency, "W", leg, "X", o) && Joins.Descends(adjacency, "W", leg, "W", o)) {
      DescendsFromW(adjacency, leg, o);
    }
    DescendsFromW(adjacency, leg, "a");
    DescendsFromW(adjacency, leg, "b");
    assert Joins.Descends(adjacency, "W", leg, "X", "a") && Joins.Descends(adjacency, "W", leg, "W", "b");
    assert Joins.Splits(adjacency, "W", leg, "X", "W");
  }

  lemma SourcesMeanEdges(g: CompiledGraph, v: NodeId, u: NodeId)
    requires Wired(g) && Wires(g.adjacency)
    ensures u in Inbound(g, v) <==> exists o :: IsEdge(u, o, v)
  {
    ArrowIsEdge(g, u, v);
    Successors(g.adjacency, u, v);
  }

  /** All sources of A and B are in one group. */
  lemma LegsShareGroup(adjacency: Adjacency, leg: NodeId, sources: set<NodeId>, groups: map<NodeId, nat>, count: nat)
    requires Wires(adjacency) && leg in {"A", "B"} && sources == {"X", "W"}
    requires Joins.Partitions(adjacency, leg, sources, groups, count)
    ensures groups["X"] == groups["W"]
  {
    BypassIsExclusive(adjacency, leg);
    var x := Joins.ExclusionGraph(adjacency, leg, sources);
    assert "W" in Succ(x, "X");
    ReachesSelf(x, "W");
    ReachesEdgeThen(x, "X", "W", "W");
  }

  lemma LegSources(g: CompiledGraph, leg: NodeId)
    requires Wired(g) && Wires(g.adjacency) && leg in {"A", "B"}
    ensures Elements(Inbound(g, leg)) == {"X", "W"}
  {
    forall u ensures u in Inbound(g, leg) <==> u in {"X", "W"} {
      SourcesMeanEdges(g, leg, u);
      if u == "X" { assert IsEdge(u, if leg == "A" then "then" else "else", leg); }
      if u == "W" { assert IsEdge(u, "b", leg); }
    }
  }

  /** W is in every group of A and of B: there is only one. */
  lemma WInEveryGroup(g: CompiledGraph, leg: NodeId, i: nat)
    requires Wired(g) && Wires(g.adjacency) && leg in {"A", "B"} && i < GroupCount(g, leg)
    requires Compile.JoinGrouped(g, leg) && HasSource(g, leg, i)
    ensures Group(g, leg, "W") == i
  {
    LegSources(g, leg);
    var u :| u in g.joinGroups[leg] && g.joinGroups[leg][u] == i;
    assert "X" in Inbound(g, leg) by { assert "X" in Elements(Inbound(g, leg)); }
    LegsShareGroup(g.adjacency, leg, {"X", "W"}, g.joinGroups[leg], g.joinGroupCount[leg]);
  }

  /** W follows "b"; every other node follows "success". */
  ghost function TakeB(): Choice {
    (u: NodeId) => if u == "W" then "b" else "success"
  }

  lemma WIsDue(g: CompiledGraph, nodes: set<NodeId>)
    requires Wired(g) && Wires(g.adjacency)
    ensures Due(g, TakeB(), nodes, "W")
  {
    if Inbound(g, "W") != [] { SourcesMeanEdges(g, "W", Inbound(g, "W")[0]); }
  }

  lemma LegIsDue(g: CompiledGraph, nodes: set<NodeId>, leg: NodeId)
    requires Wired(g) && Wires(g.adjacency) && leg in {"A", "B"} && Grouped(g, leg) && Compile.JoinGrouped(g, leg)
    requires "W" in nodes
    ensures Due(g, TakeB(), nodes, leg)
  {
    assert IsEdge("W", "b", leg);
    SourcesMeanEdges(g, leg, "W");
    forall i: nat | i < GroupCount(g, leg) ensures Feeds(g, TakeB(), nodes, leg, i) {
      assert HasSource(g, leg, i);
      WInEveryGroup(g, leg, i);
      assert leg in Targets(g, "W", TakeB()("W"));
    }
  }

  lemma TakeBRunsBoth(g: CompiledGraph, nodes: set<NodeId>)
    requires Compile.Implements(g, BYPASS, Outputs) && Wires(g.adjacency) && Closed(g, TakeB(), nodes)
    ensures BothFeed(g, TakeB(), nodes, "J", "A", "B")
  {
    WIsDue(g, nodes);
    assert Grouped(g, "A") && Grouped(g, "B") && Compile.JoinClassified(g, "A") && Compile.JoinClassified(g, "B");
    LegIsDue(g, nodes, "A");
    LegIsDue(g, nodes, "B");
    assert IsEdge("A", "success", "J") && IsEdge("B", "success", "J");
  }

  function Height(u: NodeId): nat {
    if u == "W" then 3 else if u == "X" then 2 else if u == "J" then 0 else 1
  }

  lemma EdgeFalls(e: EdgeConfig)
    requires e in EDGES
    ensures Height(e.to) < Height(e.from) && e.to in {"W", "X", "A", "B", "J"}
  {
  }

  lemma BypassIsAcyclic(nodes: set<NodeId>)
    requires nodes == {"W", "X", "A", "B", "J"}
    ensures Acyclic(Compile.EdgeGraph(nodes, EDGES))
  {
    forall e | e in EDGES ensures e.to in nodes && Height(e.to) < Height(e.from) { EdgeFalls(e); }
    Compile.FallingEdgesAcyclic(nodes, EDGES, Height);
  }

  /** The compiler accepts the definition. */
  lemma BypassCompiles()
    ensures Compile.Compilable(BYPASS, Outputs)
  {
    var nodes := map id | id in BYPASS.nodes :: Compile.Node(BYPASS.nodes[id], Outputs);
    forall e | e in EDGES ensures Compile.EdgeOk(nodes, e) {}
    BypassIsAcyclic(nodes.Keys);
  }

  /** "Can never both deliver" fails: in every compiled form of the definition the legs A and B of J
      are exclusive to the compiler, and both deliver in some run. */
  lemma ExclusiveLegsCanBothDeliver(w: Setup)
    requires Compile.Implements(w.g, BYPASS, Outputs)
    ensures Joins.Exclusive(w.g.adjacency, "J", "A", "B")
    ensures CanBothDeliver(w, "J", "A", "B")
  {
    TakeBAlwaysRunsBoth(w.g);
    LegsAreExclusive(w.g.adjacency);
    SomeRunFeedsBoth(w);
  }

  lemma BypassWires(g: CompiledGraph)
    requires Compile.Implements(g, BYPASS, Outputs)
    ensures Wires(g.adjacency)
  {
    BypassNodes();
    CompiledWires(g, BYPASS);
  }

  lemma BypassNodes()
    ensures BYPASS.nodes.Keys == {"W", "X", "A", "B", "J"} && BYPASS.edges == EDGES
  {
  }

  lemma TakeBAlwaysRunsBoth(g: CompiledGraph)
    requires Compile.Implements(g, BYPASS, Outputs)
    ensures Wires(g.adjacency)
    ensures forall nodes :: Closed(g, TakeB(), nodes) ==> BothFeed(g, TakeB(), nodes, "J", "A", "B")
  {
    BypassWires(g);
    forall nodes | Closed(g, TakeB(), nodes) ensures BothFeed(g, TakeB(), nodes, "J", "A", "B") {
      TakeBRunsBoth(g, nodes);
    }
  }

  lemma SomeRunFeedsBoth(w: Setup)
    requires Runnable(w.g) && forall nodes :: Closed(w.g, TakeB(), nodes) ==> BothFeed(w.g, TakeB(), nodes, "J", "A", "B")
    ensures CanBothDeliver(w, "J", "A", "B")
  {
    assert Followable(w.g, TakeB());
    var es := EveryChoiceHasARun(w, TakeB());
    BothDeliverExactlyWhenConcurrent(w, "J", "A", "B");
  }
}
