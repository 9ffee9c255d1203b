/** `Compile` of internal/engine/compiler.go: from a workflow definition to an executable graph. */
module Compile {
  import opened Common
  import opened Digraphs
  import opened WorkflowGraph
  import CycleSearch
  import Joins
  import WorkflowOutputs

  datatype CompileError =
    | InvalidTimeout(text: string)
    | EmptyType(node: NodeId)
    | UnknownSource(node: NodeId)
    | UnknownTarget(node: NodeId)
    | UnknownOutput(node: NodeId, output: string)
    | RetryOutsideError(node: NodeId, output: string)
    | CycleDetected(cycle: seq<NodeId>)
    | AliasIsNodeId(node: NodeId, alias: string)
    | DuplicateAlias(alias: string, first: NodeId, second: NodeId)
    | OutputConflict(conflict: WorkflowOutputs.Conflict)

  /** The outputs a node of this configuration declares. */
  type Resolver = NodeConfig -> seq<string>

  function Node(c: NodeConfig, outputsOf: Resolver): CompiledNode {
    CompiledNode(c.kind, c.name, c.alias, outputsOf(c), c.refs)
  }

  // ---------------------------------------------------------------------------
  // Specification

  /** What is wrong with an edge, in the order the checks are made. */
  function EdgeError(nodes: map<NodeId, CompiledNode>, e: EdgeConfig): Option<CompileError> {
    if e.from !in nodes then Some(UnknownSource(e.from))
    else if e.to !in nodes then Some(UnknownTarget(e.to))
    else if e.Port() !in nodes[e.from].outputs then Some(UnknownOutput(e.from, e.Port()))
    else if e.retry.Some? && e.Port() != "error" then Some(RetryOutsideError(e.from, e.Port()))
    else None
  }

  /** An edge joins known nodes, leaves by a declared output, and has a retry policy only if that
      output is "error"; an edge that names no output leaves by "success". */
  ghost predicate EdgeOk(nodes: map<NodeId, CompiledNode>, e: EdgeConfig) {
    && e.from in nodes && e.to in nodes
    && if e.output == "" then "success" in nodes[e.from].outputs && e.retry == None
       else e.output in nodes[e.from].outputs && (e.retry != None ==> e.output == "error")
  }

  ghost predicate EdgesValid(nodes: map<NodeId, CompiledNode>, edges: seq<EdgeConfig>) {
    forall e :: e in edges ==> EdgeOk(nodes, e)
  }

  ghost predicate LeavesBy(e: EdgeConfig, o: string) {
    if e.output == "" then o == "success" else o == e.output
  }

  /** What each edge error says about the edge. */
  ghost predicate IsEdgeError(nodes: map<NodeId, CompiledNode>, e: EdgeConfig, error: CompileError) {
    match error
    case UnknownSource(id) => id == e.from && id !in nodes
    case UnknownTarget(id) => id == e.to && id !in nodes && e.from in nodes
    case UnknownOutput(id, o) =>
      id == e.from && id in nodes && e.to in nodes && LeavesBy(e, o) && o !in nodes[id].outputs
    case RetryOutsideError(id, o) =>
      && id == e.from && id in nodes && e.to in nodes && LeavesBy(e, o) && o in nodes[id].outputs
      && e.retry != None && o != "error"
    case _ => false
  }

  /** The error is about the first edge that is not valid. */
  ghost predicate FirstEdgeError(nodes: map<NodeId, CompiledNode>, edges: seq<EdgeConfig>, error: CompileError) {
    exists i :: 0 <= i < |edges| && IsEdgeError(nodes, edges[i], error) && EdgesValid(nodes, edges[..i])
  }

  lemma EdgeErrorMeans(nodes: map<NodeId, CompiledNode>, e: EdgeConfig)
    ensures EdgeError(nodes, e).None? <==> EdgeOk(nodes, e)
    ensures forall error :: EdgeError(nodes, e) == Some(error) <==> IsEdgeError(nodes, e, error)
  {
  }

  /** No alias is a node id, and no two nodes share an alias. */
  ghost predicate AliasesValid(nodes: map<NodeId, CompiledNode>) {
    && (forall a :: a in nodes && nodes[a].alias != "" ==> nodes[a].alias !in nodes)
    && (forall a, b :: a in nodes && b in nodes && nodes[a].alias != "" && nodes[a].alias == nodes[b].alias ==> a == b)
  }

  /** The arrows of a definition, read off its edge list. */
  ghost function EdgeGraph(nodes: set<NodeId>, edges: seq<EdgeConfig>): Digraph {
    map u | u in nodes :: set e | e in edges && e.from == u :: e.to
  }

  /** The adjacency of a definition, read off its edge list. */
  ghost function AdjacencyOf(nodes: set<NodeId>, edges: seq<EdgeConfig>): Adjacency {
    map u | u in nodes :: map o | o in PortsOf(edges, u) :: TargetsOf(edges, u, o)
  }

  ghost function PortsOf(edges: seq<EdgeConfig>, u: NodeId): set<string> {
    set e | e in edges && e.from == u :: e.Port()
  }

  ghost predicate Compilable(wf: WorkflowConfig, outputsOf: Resolver) {
    var nodes := map id | id in wf.nodes :: Node(wf.nodes[id], outputsOf);
    && !wf.timeout.MalformedTimeout?
    && (forall id :: id in wf.nodes ==> wf.nodes[id].kind != "")
    && EdgesValid(nodes, wf.edges)
    && Acyclic(EdgeGraph(nodes.Keys, wf.edges))
    && AliasesValid(nodes)
    && WorkflowOutputs.Allowed(nodes, AdjacencyOf(nodes.Keys, wf.edges))
  }

  /** The maps hold exactly the listed edges. */
  ghost predicate HoldsEdges(nodes: set<NodeId>, edges: seq<EdgeConfig>, adjacency: Adjacency,
                             reverse: map<NodeId, seq<NodeId>>, depCount: map<NodeId, nat>,
                             retries: map<(NodeId, string, NodeId), Option<RetryConfig>>)
  {
    && adjacency.Keys == nodes
    && (forall u, o :: u in nodes ==> HoldsTargets(edges, adjacency, u, o))
    && (forall v :: HoldsSources(edges, reverse, depCount, v))
    && (forall u, o, v :: HoldsRetry(edges, retries, u, o, v))
  }

  ghost predicate HoldsTargets(edges: seq<EdgeConfig>, adjacency: Adjacency, u: NodeId, o: string) {
    && u in adjacency
    && (o in adjacency[u] <==> TargetsOf(edges, u, o) != [])
    && (o in adjacency[u] ==> adjacency[u][o] == TargetsOf(edges, u, o))
  }

  ghost predicate HoldsSources(edges: seq<EdgeConfig>, reverse: map<NodeId, seq<NodeId>>,
                               depCount: map<NodeId, nat>, v: NodeId)
  {
    && (if v in reverse then reverse[v] else []) == SourcesOf(edges, v)
    && (if v in depCount then depCount[v] else 0) == |SourcesOf(edges, v)|
  }

  ghost predicate HoldsRetry(edges: seq<EdgeConfig>, retries: map<(NodeId, string, NodeId), Option<RetryConfig>>,
                             u: NodeId, o: string, v: NodeId)
  {
    (if (u, o, v) in retries then Some(retries[(u, o, v)]) else None) == RetryOf(edges, u, o, v)
  }

  /** Every node keeps its settings and has the outputs its configuration declares. */
  ghost predicate Declares(nodes: map<NodeId, CompiledNode>, configs: map<NodeId, NodeConfig>, outputsOf: Resolver) {
    && nodes.Keys == configs.Keys
    && forall id :: id in nodes ==>
         && nodes[id].kind == configs[id].kind && nodes[id].name == configs[id].name
         && nodes[id].alias == configs[id].alias && nodes[id].configRefs == configs[id].refs
         && nodes[id].outputs == outputsOf(configs[id])
  }

  /** Everything a compiled graph promises about its definition. */
  ghost predicate Implements(g: CompiledGraph, wf: WorkflowConfig, outputsOf: Resolver) {
    && g.timeout == (if wf.timeout.ParsedTimeout? then wf.timeout.duration else 0)
    && Declares(g.nodes, wf.nodes, outputsOf)
    && HoldsEdges(g.nodes.Keys, wf.edges, g.adjacency, g.reverse, g.depCount, g.retries)
    && Runnable(g) && TerminalsListed(g)
    && Acyclic(Arrows(g))
    && AliasesValid(g.nodes)
    && WorkflowOutputs.Allowed(g.nodes, g.adjacency)
    && forall v :: v in g.nodes ==> JoinClassified(g, v)
  }

  ghost predicate JoinClassified(g: CompiledGraph, v: NodeId) {
    JoinGrouped(g, v) && JoinTyped(g, v)
  }

  /** The legs of `v` are partitioned by exclusion, and its group count is the number of classes. */
  ghost predicate JoinGrouped(g: CompiledGraph, v: NodeId) {
    && v in g.joinGroupCount
    && if Inbound(g, v) == [] then v !in g.joinGroups && g.joinGroupCount[v] == 0
       else
         && v in g.joinGroups
         && Joins.Partitions(g.adjacency, v, Elements(Inbound(g, v)), g.joinGroups[v], g.joinGroupCount[v])
  }

  ghost predicate JoinTyped(g: CompiledGraph, v: NodeId) {
    && v in g.joinTypes
    && if v in g.joinGroups then Joins.KindFits(g.joinTypes[v], g.joinGroups[v]) else g.joinTypes[v] == JoinNone
  }

  // ---------------------------------------------------------------------------
  // Edge lists

  lemma {:induction false} TargetListed(edges: seq<EdgeConfig>, u: NodeId, o: string, t: NodeId)
    ensures t in TargetsOf(edges, u, o) <==> exists e :: e in edges && e.from == u && e.Port() == o && e.to == t
  {
    if edges != [] {
      var n := |edges| - 1;
      TargetListed(edges[..n], u, o, t);
      assert edges == edges[..n] + [edges[n]];
      if e :| e in edges && e.from == u && e.Port() == o && e.to == t {
        assert e == edges[n] || e in edges[..n];
      }
    }
  }

  lemma {:induction false} SourceListed(edges: seq<EdgeConfig>, v: NodeId, u: NodeId)
    ensures u in SourcesOf(edges, v) <==> exists e :: e in edges && e.to == v && e.from == u
  {
    if edges != [] {
      var n := |edges| - 1;
      SourceListed(edges[..n], v, u);
      assert edges == edges[..n] + [edges[n]];
      if e :| e in edges && e.to == v && e.from == u {
        assert e == edges[n] || e in edges[..n];
      }
    }
  }

  lemma SnocTargets(edges: seq<EdgeConfig>, e: EdgeConfig, u: NodeId, o: string)
    ensures TargetsOf(edges + [e], u, o) == TargetsOf(edges, u, o) + if e.from == u && e.Port() == o then [e.to] else []
  {
    assert (edges + [e])[..|edges|] == edges;
  }

  lemma SnocSources(edges: seq<EdgeConfig>, e: EdgeConfig, v: NodeId)
    ensures SourcesOf(edges + [e], v) == SourcesOf(edges, v) + if e.to == v then [e.from] else []
  {
    assert (edges + [e])[..|edges|] == edges;
  }

  lemma SnocRetry(edges: seq<EdgeConfig>, e: EdgeConfig, u: NodeId, o: string, v: NodeId)
    ensures RetryOf(edges + [e], u, o, v) ==
      if e.from == u && e.Port() == o && e.to == v then Some(e.retry) else RetryOf(edges, u, o, v)
  {
    assert (edges + [e])[..|edges|] == edges;
  }

  // ---------------------------------------------------------------------------
  // Nodes and edges

  /** Every node must have a type. */
  method CompileNodes(wf: WorkflowConfig, outputsOf: Resolver) returns (r: Result<map<NodeId, CompiledNode>, CompileError>)
    ensures r.Ok? <==> forall id :: id in wf.nodes ==> wf.nodes[id].kind != ""
    ensures r.Ok? ==> r.value == map id | id in wf.nodes :: Node(wf.nodes[id], outputsOf)
    ensures r.Err? ==> r.error.EmptyType? && r.error.node in wf.nodes && wf.nodes[r.error.node].kind == ""
  {
    var todo := wf.nodes.Keys;
    var nodes: map<NodeId, CompiledNode> := map[];
    while todo != {}
      invariant todo <= wf.nodes.Keys
      invariant nodes == map id | id in wf.nodes.Keys - todo :: Node(wf.nodes[id], outputsOf)
      invariant forall id :: id in wf.nodes.Keys - todo ==> wf.nodes[id].kind != ""
      decreases todo
    {
      var id :| id in todo;
      if wf.nodes[id].kind == "" { return Err(EmptyType(id)); }
      nodes := nodes[id := Node(wf.nodes[id], outputsOf)];
      todo := todo - {id};
    }
    r := Ok(nodes);
  }

  lemma AddTargets(nodes: set<NodeId>, edges: seq<EdgeConfig>, adjacency: Adjacency, e: EdgeConfig, adjacency': Adjacency)
    requires e.from in nodes && adjacency.Keys == nodes && forall u, o :: u in nodes ==> HoldsTargets(edges, adjacency, u, o)
    requires var outs, o := adjacency[e.from], e.Port();
      adjacency' == adjacency[e.from := outs[o := (if o in outs then outs[o] else []) + [e.to]]]
    ensures forall u, o :: u in nodes ==> HoldsTargets(edges + [e], adjacency', u, o)
  {
    forall u, o | u in nodes ensures HoldsTargets(edges + [e], adjacency', u, o) {
      SnocTargets(edges, e, u, o);
      assert HoldsTargets(edges, adjacency, u, o);
    }
  }

  lemma AddSources(edges: seq<EdgeConfig>, reverse: map<NodeId, seq<NodeId>>, depCount: map<NodeId, nat>, e: EdgeConfig,
                   reverse': map<NodeId, seq<NodeId>>, depCount': map<NodeId, nat>)
    requires forall v :: HoldsSources(edges, reverse, depCount, v)
    requires reverse' == reverse[e.to := (if e.to in reverse then reverse[e.to] else []) + [e.from]]
    requires depCount' == depCount[e.to := (if e.to in depCount then depCount[e.to] else 0) + 1]
    ensures forall v :: HoldsSources(edges + [e], reverse', depCount', v)
  {
    forall v ensures HoldsSources(edges + [e], reverse', depCount', v) {
      SnocSources(edges, e, v);
      assert HoldsSources(edges, reverse, depCount, v);
    }
  }

  lemma AddRetries(edges: seq<EdgeConfig>, retries: map<(NodeId, string, NodeId), Option<RetryConfig>>, e: EdgeConfig,
                   retries': map<(NodeId, string, NodeId), Option<RetryConfig>>)
    requires forall u, o, v :: HoldsRetry(edges, retries, u, o, v)
    requires retries' == retries[(e.from, e.Port(), e.to) := e.retry]
    ensures forall u, o, v :: HoldsRetry(edges + [e], retries', u, o, v)
  {
    forall u, o, v ensures HoldsRetry(edges + [e], retries', u, o, v) {
      SnocRetry(edges, e, u, o, v);
      assert HoldsRetry(edges, retries, u, o, v);
    }
  }

  class EdgeMaps {
    var adjacency: Adjacency
    var reverse: map<NodeId, seq<NodeId>>
    var depCount: map<NodeId, nat>
    var retries: map<(NodeId, string, NodeId), Option<RetryConfig>>

    ghost predicate Holds(nodes: set<NodeId>, edges: seq<EdgeConfig>)
      reads this
    {
      HoldsEdges(nodes, edges, adjacency, reverse, depCount, retries)
    }

    constructor (nodes: set<NodeId>)
      ensures Holds(nodes, [])
    {
      adjacency := map id | id in nodes :: map[];
      reverse, depCount, retries := map[], map[], map[];
    }

    /** Append one edge to every map. */
    method Add(e: EdgeConfig, ghost nodes: set<NodeId>, ghost edges: seq<EdgeConfig>)
      requires Holds(nodes, edges) && e.from in nodes
      modifies this
      ensures Holds(nodes, edges + [e])
    {
      var o := e.Port();
      var outs := adjacency[e.from];
      var adjacency' := adjacency[e.from := outs[o := (if o in outs then outs[o] else []) + [e.to]]];
      var reverse' := reverse[e.to := (if e.to in reverse then reverse[e.to] else []) + [e.from]];
      var depCount' := depCount[e.to := (if e.to in depCount then depCount[e.to] else 0) + 1];
      var retries' := retries[(e.from, o, e.to) := e.retry];
      AddTargets(nodes, edges, adjacency, e, adjacency');
      AddSources(edges, reverse, depCount, e, reverse', depCount');
      AddRetries(edges, retries, e, retries');
      adjacency, reverse, depCount, retries := adjacency', reverse', depCount', retries';
    }
  }

  /** Compile the edges in order, stopping at the first invalid one. */
  method CompileEdges(nodes: map<NodeId, CompiledNode>, edges: seq<EdgeConfig>)
    returns (maps: EdgeMaps, error: Option<CompileError>)
    ensures error.None? <==> EdgesValid(nodes, edges)
    ensures error.None? ==> maps.Holds(nodes.Keys, edges)
    ensures error.Some? ==> FirstEdgeError(nodes, edges, error.value)
  {
    maps := new EdgeMaps(nodes.Keys);
    for i := 0 to |edges|
      invariant fresh(maps) && maps.Holds(nodes.Keys, edges[..i])
      invariant EdgesValid(nodes, edges[..i])
    {
      error := EdgeError(nodes, edges[i]);
      EdgeErrorMeans(nodes, edges[i]);
      if error.Some? { return; }
      maps.Add(edges[i], nodes.Keys, edges[..i]);
      assert edges[..i+1] == edges[..i] + [edges[i]];
    }
    assert edges[..|edges|] == edges;
    error := None;
  }

  lemma EdgesAreWired(g: CompiledGraph, edges: seq<EdgeConfig>)
    requires HoldsEdges(g.nodes.Keys, edges, g.adjacency, g.reverse, g.depCount, g.retries)
    requires EdgesValid(g.nodes, edges)
    ensures Wired(g)
    ensures Arrows(g) == EdgeGraph(g.nodes.Keys, edges)
  {
    forall u, o | u in g.adjacency && o in g.adjacency[u] ensures g.adjacency[u][o] != [] {
      assert HoldsTargets(edges, g.adjacency, u, o);
    }
    forall u, o, t | t in Targets(g, u, o) ensures t in g.nodes && u in Inbound(g, t) {
      assert HoldsTargets(edges, g.adjacency, u, o) && HoldsSources(edges, g.reverse, g.depCount, t);
      TargetListed(edges, u, o, t);
      SourceListed(edges, t, u);
    }
    forall u, t | u in Inbound(g, t) ensures t in g.nodes && HasArrow(g.adjacency, u, t) {
      assert HoldsSources(edges, g.reverse, g.depCount, t);
      SourceListed(edges, t, u);
      var e :| e in edges && e.to == t && e.from == u;
      TargetListed(edges, u, e.Port(), t);
      assert HoldsTargets(edges, g.adjacency, u, e.Port());
    }
    ArrowsAreEdges(g, edges);
  }

  lemma ArrowsAreEdges(g: CompiledGraph, edges: seq<EdgeConfig>)
    requires HoldsEdges(g.nodes.Keys, edges, g.adjacency, g.reverse, g.depCount, g.retries)
    ensures Arrows(g) == EdgeGraph(g.nodes.Keys, edges)
  {
    var arrows, listed := Arrows(g), EdgeGraph(g.nodes.Keys, edges);
    forall u | u in g.nodes ensures arrows[u] == listed[u] {
      forall t | t in arrows[u] ensures t in listed[u] {
        var o :| o in g.adjacency[u] && t in g.adjacency[u][o];
        assert HoldsTargets(edges, g.adjacency, u, o);
        TargetListed(edges, u, o, t);
      }
      forall t | t in listed[u] ensures t in arrows[u] {
        var e :| e in edges && e.from == u && e.to == t;
        TargetListed(edges, u, e.Port(), t);
        assert HoldsTargets(edges, g.adjacency, u, e.Port());
      }
    }
  }

  // ---------------------------------------------------------------------------
  // Entry and terminal nodes

  /** A subsequence of a strictly sorted sequence is strictly sorted. */
  ghost predicate SortedUpTo(r: seq<NodeId>, ids: seq<NodeId>, n: nat) {
    n <= |ids| && StrictlySorted(r) && forall x :: x in r ==> x in ids[..n]
  }

  lemma KeepNext(r: seq<NodeId>, ids: seq<NodeId>, n: nat)
    requires StrictlySorted(ids) && n < |ids| && SortedUpTo(r, ids, n)
    ensures SortedUpTo(r, ids, n + 1) && SortedUpTo(r + [ids[n]], ids, n + 1)
  {
    assert ids[..n+1] == ids[..n] + [ids[n]];
    var r' := r + [ids[n]];
    forall i, j | 0 <= i < j < |r'| ensures Leq(r'[i], r'[j]) && r'[i] != r'[j] {
      if j == |r| {
        assert r[i] in r;
        var k :| 0 <= k < n && ids[k] == r[i];
      }
    }
  }

  ghost predicate KeptExactly(r: seq<NodeId>, ids: seq<NodeId>, n: nat, keep: NodeId -> bool) {
    SortedUpTo(r, ids, n) && forall x :: x in r <==> x in ids[..n] && keep(x)
  }

  lemma KeepStep(r: seq<NodeId>, ids: seq<NodeId>, n: nat, keep: NodeId -> bool)
    requires StrictlySorted(ids) && n < |ids| && KeptExactly(r, ids, n, keep)
    ensures KeptExactly(if keep(ids[n]) then r + [ids[n]] else r, ids, n + 1, keep)
  {
    KeepNext(r, ids, n);
    assert ids[..n+1] == ids[..n] + [ids[n]];
  }

  /** Nodes without inbound edges, in sorted order. */
  method ListEntries(g: CompiledGraph) returns (entries: seq<NodeId>)
    ensures StrictlySorted(entries)
    ensures forall x :: x in entries <==> x in g.nodes && Inbound(g, x) == []
  {
    var ids := SortedStrings(g.nodes.Keys);
    entries := [];
    ghost var keep := x => Inbound(g, x) == [];
    for i := 0 to |ids|
      invariant KeptExactly(entries, ids, i, keep)
    {
      KeepStep(entries, ids, i, keep);
      if Inbound(g, ids[i]) == [] { entries := entries + [ids[i]]; }
    }
    assert ids[..|ids|] == ids;
  }

  /** Whether some output other than "error" has an edge. */
  method HasNonErrorEdge(outputs: map<string, seq<NodeId>>) returns (has: bool)
    ensures has <==> exists o :: o in outputs && o != "error" && outputs[o] != []
  {
    var todo := outputs.Keys;
    while todo != {}
      invariant todo <= outputs.Keys
      invariant forall o :: o in outputs.Keys - todo ==> o == "error" || outputs[o] == []
      decreases todo
    {
      var o :| o in todo;
      if o != "error" && |outputs[o]| > 0 { return true; }
      todo := todo - {o};
    }
    has := false;
  }

  /** Nodes with no outbound edges except "error" edges, in sorted order. */
  method ListTerminals(g: CompiledGraph) returns (terminals: seq<NodeId>)
    requires g.adjacency.Keys == g.nodes.Keys
    ensures StrictlySorted(terminals)
    ensures forall x :: x in terminals <==> x in g.nodes && IsTerminal(g, x)
  {
    var ids := SortedStrings(g.nodes.Keys);
    terminals := [];
    ghost var keep := x => IsTerminal(g, x);
    for i := 0 to |ids|
      invariant KeptExactly(terminals, ids, i, keep)
    {
      KeepStep(terminals, ids, i, keep);
      assert ids[i] in ids;
      var has := HasNonErrorEdge(g.adjacency[ids[i]]);
      TerminalTest(g, ids[i], has);
      if !has { terminals := terminals + [ids[i]]; }
    }
    assert ids[..|ids|] == ids;
  }

  lemma TerminalTest(g: CompiledGraph, x: NodeId, has: bool)
    requires x in g.adjacency
    requires has <==> exists o :: o in g.adjacency[x] && o != "error" && g.adjacency[x][o] != []
    ensures IsTerminal(g, x) <==> !has
  {
    if !IsTerminal(g, x) {
      var o :| o != "error" && Targets(g, x, o) != [];
      assert o in g.adjacency[x] && g.adjacency[x][o] != [];
    }
    if has {
      var o :| o in g.adjacency[x] && o != "error" && g.adjacency[x][o] != [];
      assert Targets(g, x, o) != [];
    }
  }

  // ---------------------------------------------------------------------------
  // Aliases and joins

  /** Rejects an alias that is a node id or that another node declares too. */
  method ValidateAliases(nodes: map<NodeId, CompiledNode>) returns (error: Option<CompileError>)
    ensures error.None? <==> AliasesValid(nodes)
    ensures error.Some? && error.value.AliasIsNodeId? ==>
      && error.value.node in nodes && nodes[error.value.node].alias == error.value.alias && error.value.alias in nodes
    ensures error.Some? && !error.value.AliasIsNodeId? ==>
      && error.value.DuplicateAlias? && error.value.first != error.value.second
      && error.value.first in nodes && error.value.second in nodes
      && nodes[error.value.first].alias == nodes[error.value.second].alias == error.value.alias
  {
    var todo := nodes.Keys;
    var seen: map<string, NodeId> := map[];
    while todo != {}
      invariant todo <= nodes.Keys
      invariant forall a :: a in nodes.Keys - todo && nodes[a].alias != "" ==>
        nodes[a].alias !in nodes && nodes[a].alias in seen && seen[nodes[a].alias] == a
      invariant forall s :: s in seen ==> seen[s] in nodes.Keys - todo && nodes[seen[s]].alias == s
      decreases todo
    {
      var id :| id in todo;
      var alias := nodes[id].alias;
      if alias != "" {
        if alias in nodes { return Some(AliasIsNodeId(id, alias)); }
        if alias in seen { return Some(DuplicateAlias(alias, seen[alias], id)); }
        seen := seen[alias := id];
      }
      todo := todo - {id};
    }
    error := None;
  }

  ghost predicate Classified(g: CompiledGraph, kinds: map<NodeId, JoinType>,
                             groups: map<NodeId, map<NodeId, nat>>, counts: map<NodeId, nat>, v: NodeId)
  {
    && v in kinds && v in counts
    && if Inbound(g, v) == [] then v !in groups && kinds[v] == JoinNone && counts[v] == 0
       else
         && v in groups && counts[v] > 0
         && Joins.Partitions(g.adjacency, v, Elements(Inbound(g, v)), groups[v], counts[v])
         && Joins.KindFits(kinds[v], groups[v])
  }

  ghost predicate ClassifiedIn(g: CompiledGraph, kinds: map<NodeId, JoinType>, groups: map<NodeId, map<NodeId, nat>>,
                               counts: map<NodeId, nat>, done: set<NodeId>)
  {
    counts.Keys == done && groups.Keys <= done && forall v :: v in done ==> Classified(g, kinds, groups, counts, v)
  }

  lemma OneMoreClassified(g: CompiledGraph, kinds: map<NodeId, JoinType>, groups: map<NodeId, map<NodeId, nat>>,
                          counts: map<NodeId, nat>, done: set<NodeId>, id: NodeId, kinds': map<NodeId, JoinType>,
                          groups': map<NodeId, map<NodeId, nat>>, counts': map<NodeId, nat>)
    requires ClassifiedIn(g, kinds, groups, counts, done) && id !in done && Classified(g, kinds', groups', counts', id)
    requires id in kinds' && kinds' == kinds[id := kinds'[id]] && id in counts' && counts' == counts[id := counts'[id]]
    requires groups' == groups || (id in groups' && groups' == groups[id := groups'[id]])
    ensures ClassifiedIn(g, kinds', groups', counts', done + {id})
  {
    forall v | v in done + {id} ensures Classified(g, kinds', groups', counts', v) {
      if v != id { assert Classified(g, kinds, groups, counts, v); }
    }
  }

  /** Classify every node. */
  method ComputeJoinTypes(g: CompiledGraph)
    returns (kinds: map<NodeId, JoinType>, groups: map<NodeId, map<NodeId, nat>>, counts: map<NodeId, nat>)
    requires Wired(g)
    ensures counts.Keys == g.nodes.Keys && groups.Keys <= g.nodes.Keys
    ensures forall v :: v in g.nodes ==> Classified(g, kinds, groups, counts, v)
  {
    var todo := g.nodes.Keys;
    kinds, groups, counts := map[], map[], map[];
    while todo != {}
      invariant todo <= g.nodes.Keys
      invariant ClassifiedIn(g, kinds, groups, counts, g.nodes.Keys - todo)
      decreases todo
    {
      var id :| id in todo;
      var kind, legs, count := Joins.ClassifyJoin(g, id);
      var kinds', counts' := kinds[id := kind], counts[id := count];
      var groups' := if Inbound(g, id) == [] then groups else groups[id := legs];
      assert Classified(g, kinds', groups', counts', id);
      OneMoreClassified(g, kinds, groups, counts, g.nodes.Keys - todo, id, kinds', groups', counts');
      assert g.nodes.Keys - todo + {id} == g.nodes.Keys - (todo - {id});
      kinds, groups, counts := kinds', groups', counts';
      todo := todo - {id};
    }
  }

  // ---------------------------------------------------------------------------
  // Compile

  /** The error names a defect of the definition. */
  ghost predicate Reports(wf: WorkflowConfig, outputsOf: Resolver, error: CompileError) {
    var nodes := map id | id in wf.nodes :: Node(wf.nodes[id], outputsOf);
    match error
    case InvalidTimeout(text) => wf.timeout == MalformedTimeout(text)
    case EmptyType(id) => id in wf.nodes && wf.nodes[id].kind == ""
    case CycleDetected(c) => IsCycle(EdgeGraph(nodes.Keys, wf.edges), c)
    case AliasIsNodeId(id, alias) => id in nodes && nodes[id].alias == alias && alias in nodes
    case DuplicateAlias(alias, a, b) => a != b && a in nodes && b in nodes && nodes[a].alias == nodes[b].alias == alias
    case OutputConflict(c) => WorkflowOutputs.IsConflict(nodes, AdjacencyOf(nodes.Keys, wf.edges), c)
    case _ => FirstEdgeError(nodes, wf.edges, error)
  }

  lemma AssembledRuns(g: CompiledGraph)
    requires Wired(g) && EntriesListed(g)
    requires g.joinGroupCount.Keys == g.nodes.Keys
    requires forall v :: v in g.nodes ==> Classified(g, g.joinTypes, g.joinGroups, g.joinGroupCount, v)
    ensures Runnable(g)
    ensures forall v :: v in g.nodes ==> JoinClassified(g, v)
  {
    forall v | v in g.nodes ensures Grouped(g, v) && JoinClassified(g, v) {
      assert Classified(g, g.joinTypes, g.joinGroups, g.joinGroupCount, v);
      if Inbound(g, v) != [] {
        forall i: nat | i < g.joinGroupCount[v] ensures HasSource(g, v, i) {
          assert Joins.Used(g.joinGroups[v], i);
        }
      }
    }
  }

  lemma ImplementsAdjacency(g: CompiledGraph, wf: WorkflowConfig, outputsOf: Resolver)
    requires Implements(g, wf, outputsOf)
    ensures g.adjacency == AdjacencyOf(wf.nodes.Keys, wf.edges)
  {
    AdjacencyDetermined(g.adjacency, wf.nodes.Keys, wf.edges);
  }

  /** The adjacency of a definition holds exactly its edges. */
  lemma AdjacencyHolds(nodes: set<NodeId>, edges: seq<EdgeConfig>, u: NodeId, o: string, t: NodeId)
    requires u in nodes
    ensures o in AdjacencyOf(nodes, edges)[u] && t in AdjacencyOf(nodes, edges)[u][o] <==>
            exists e :: e in edges && e.from == u && e.Port() == o && e.to == t
  {
    PortHasTarget(edges, u, o);
    TargetListed(edges, u, o, t);
  }

  /** Edges along which some height falls form no cycle. */
  lemma FallingEdgesAcyclic(nodes: set<NodeId>, edges: seq<EdgeConfig>, height: NodeId -> nat)
    requires forall e :: e in edges ==> e.to in nodes && height(e.to) < height(e.from)
    ensures Acyclic(EdgeGraph(nodes, edges))
  {
    var rank := map u | u in nodes :: height(u);
    var arrows := EdgeGraph(nodes, edges);
    forall u, v | u in rank && v in Succ(arrows, u) ensures v in rank && rank[v] < rank[u] {
      var e :| e in edges && e.from == u && e.to == v;
    }
    RankedIsAcyclic(arrows, rank);
  }

  lemma AdjacencyDetermined(adjacency: Adjacency, nodes: set<NodeId>, edges: seq<EdgeConfig>)
    requires adjacency.Keys == nodes && forall u, o :: u in nodes ==> HoldsTargets(edges, adjacency, u, o)
    ensures adjacency == AdjacencyOf(nodes, edges)
  {
    forall u | u in nodes ensures adjacency[u] == AdjacencyOf(nodes, edges)[u] {
      forall o ensures o in adjacency[u] <==> o in PortsOf(edges, u) {
        assert HoldsTargets(edges, adjacency, u, o);
        PortHasTarget(edges, u, o);
      }
      forall o | o in adjacency[u] ensures adjacency[u][o] == TargetsOf(edges, u, o) {
        assert HoldsTargets(edges, adjacency, u, o);
      }
    }
  }

  lemma PortHasTarget(edges: seq<EdgeConfig>, u: NodeId, o: string)
    ensures o in PortsOf(edges, u) <==> TargetsOf(edges, u, o) != []
  {
    if o in PortsOf(edges, u) {
      var e :| e in edges && e.from == u && e.Port() == o;
      TargetListed(edges, u, o, e.to);
    }
    if TargetsOf(edges, u, o) != [] { TargetListed(edges, u, o, TargetsOf(edges, u, o)[0]); }
  }

  /** Succeeds exactly on definitions with a well-formed timeout, typed nodes, valid acyclic edges,
      unambiguous aliases and allowed workflow outputs, and then yields a graph that implements the
      definition; an error names a defect. */
  method Compile(wf: WorkflowConfig, outputsOf: Resolver) returns (r: Result<CompiledGraph, CompileError>)
    ensures r.Ok? <==> Compilable(wf, outputsOf)
    ensures r.Ok? ==> Implements(r.value, wf, outputsOf)
    ensures r.Err? ==> Reports(wf, outputsOf, r.error)
  {
    if wf.timeout.MalformedTimeout? { return Err(InvalidTimeout(wf.timeout.text)); }
    var timeout := if wf.timeout.ParsedTimeout? then wf.timeout.duration else 0;
    var compiled := CompileNodes(wf, outputsOf);
    if compiled.Err? { return Err(compiled.error); }
    var nodes := compiled.value;
    var maps, edgeError := CompileEdges(nodes, wf.edges);
    if edgeError.Some? { return Err(edgeError.value); }
    var g := CompiledGraph(timeout, nodes, maps.adjacency, maps.retries, maps.reverse, [], [], maps.depCount,
                           map[], map[], map[]);
    EdgesAreWired(g, wf.edges);
    AdjacencyDetermined(g.adjacency, nodes.Keys, wf.edges);
    r := Finish(g, wf, outputsOf);
  }

  /** The phases after the edges are in place. */
  method Finish(g0: CompiledGraph, ghost wf: WorkflowConfig, ghost outputsOf: Resolver)
    returns (r: Result<CompiledGraph, CompileError>)
    requires g0.timeout == if wf.timeout.ParsedTimeout? then wf.timeout.duration else 0
    requires g0.nodes == map id | id in wf.nodes :: Node(wf.nodes[id], outputsOf)
    requires Declares(g0.nodes, wf.nodes, outputsOf)
    requires g0.adjacency == AdjacencyOf(g0.nodes.Keys, wf.edges)
    requires HoldsEdges(g0.nodes.Keys, wf.edges, g0.adjacency, g0.reverse, g0.depCount, g0.retries)
    requires Wired(g0) && Arrows(g0) == EdgeGraph(g0.nodes.Keys, wf.edges)
    ensures r.Ok? <==>
      Acyclic(Arrows(g0)) && AliasesValid(g0.nodes) && WorkflowOutputs.Allowed(g0.nodes, g0.adjacency)
    ensures r.Ok? ==> Implements(r.value, wf, outputsOf)
    ensures r.Err? ==> Reports(wf, outputsOf, r.error)
  {
    var entries := ListEntries(g0);
    var terminals := ListTerminals(g0);
    var cycle := CycleSearch.DetectCycle(g0);
    if cycle.Some? { return Err(CycleDetected(cycle.value)); }
    var kinds, groups, counts := ComputeJoinTypes(g0);
    var aliasError := ValidateAliases(g0.nodes);
    if aliasError.Some? { return Err(aliasError.value); }
    var conflict := WorkflowOutputs.Validate(g0);
    if conflict.Some? { return Err(OutputConflict(conflict.value)); }
    var g := g0.(entryNodes := entries, terminalNodes := terminals,
                 joinTypes := kinds, joinGroups := groups, joinGroupCount := counts);
    Assembled(g0, g, wf, outputsOf);
    r := Ok(g);
  }

  /** All the parts in place. */
  lemma Assembled(g0: CompiledGraph, g: CompiledGraph, wf: WorkflowConfig, outputsOf: Resolver)
    requires g0.timeout == if wf.timeout.ParsedTimeout? then wf.timeout.duration else 0
    requires Declares(g0.nodes, wf.nodes, outputsOf)
    requires HoldsEdges(g0.nodes.Keys, wf.edges, g0.adjacency, g0.reverse, g0.depCount, g0.retries)
    requires Wired(g0) && Acyclic(Arrows(g0)) && AliasesValid(g0.nodes) && WorkflowOutputs.Allowed(g0.nodes, g0.adjacency)
    requires g == g0.(entryNodes := g.entryNodes, terminalNodes := g.terminalNodes, joinTypes := g.joinTypes,
                      joinGroups := g.joinGroups, joinGroupCount := g.joinGroupCount)
    requires StrictlySorted(g.entryNodes) && forall x :: x in g.entryNodes <==> x in g0.nodes && Inbound(g0, x) == []
    requires StrictlySorted(g.terminalNodes) && forall x :: x in g.terminalNodes <==> x in g0.nodes && IsTerminal(g0, x)
    requires g.joinGroupCount.Keys == g0.nodes.Keys
    requires forall v :: v in g0.nodes ==> Classified(g0, g.joinTypes, g.joinGroups, g.joinGroupCount, v)
    ensures Implements(g, wf, outputsOf)
  {
    Rewire(g0, g);
    forall x ensures Inbound(g, x) == Inbound(g0, x) {}
    AssembledRuns(g);
  }

  /** The maps filled in by the later phases do not affect the wiring. */
  lemma Rewire(g0: CompiledGraph, g: CompiledGraph)
    requires Wired(g0)
    requires g.nodes == g0.nodes && g.adjacency == g0.adjacency && g.reverse == g0.reverse
    requires forall v :: v in g0.nodes ==> Classified(g0, g.joinTypes, g.joinGroups, g.joinGroupCount, v)
    requires forall x :: x in g.terminalNodes <==> x in g0.nodes && IsTerminal(g0, x)
    ensures Wired(g)
    ensures forall v :: v in g.nodes ==> Classified(g, g.joinTypes, g.joinGroups, g.joinGroupCount, v)
    ensures forall x :: x in g.terminalNodes <==> x in g.nodes && IsTerminal(g, x)
  {
    SameWires(g0, g);
    forall v | v in g.nodes ensures Classified(g, g.joinTypes, g.joinGroups, g.joinGroupCount, v) {
      assert Classified(g0, g.joinTypes, g.joinGroups, g.joinGroupCount, v);
    }
    forall x ensures IsTerminal(g, x) <==> IsTerminal(g0, x) { SameTerminals(g0, g, x); }
  }

  lemma SameTerminals(g0: CompiledGraph, g: CompiledGraph, x: NodeId)
    requires g.adjacency == g0.adjacency
    ensures IsTerminal(g, x) <==> IsTerminal(g0, x)
  {
    assert forall o :: Targets(g, x, o) == Targets(g0, x, o);
  }

  lemma SameWires(g0: CompiledGraph, g: CompiledGraph)
    requires g.nodes == g0.nodes && g.adjacency == g0.adjacency && g.reverse == g0.reverse
    ensures Wired(g0) ==> Wired(g)
  {
    if Wired(g0) {
      forall u, o, t | t in Targets(g, u, o) ensures t in g.nodes && u in Inbound(g, t) {
        assert t in Targets(g0, u, o);
      }
      forall u, t | u in Inbound(g, t) ensures t in g.nodes && HasArrow(g.adjacency, u, t) {
        assert u in Inbound(g0, t);
      }
    }
  }

  /** A compiled graph with nodes always has somewhere to start. */
  lemma CompiledGraphHasEntry(g: CompiledGraph, wf: WorkflowConfig, outputsOf: Resolver)
    requires Implements(g, wf, outputsOf) && wf.nodes != map[]
    ensures g.entryNodes != []
  {
    var v :| v in wf.nodes;
    AcyclicHasEntry(g, v);
  }

  lemma AcyclicHasEntry(g: CompiledGraph, v: NodeId)
    requires Wired(g) && EntriesListed(g) && Acyclic(Arrows(g)) && v in g.nodes
    ensures g.entryNodes != []
  {
    assert v in Arrows(g);
    var s := SourceAbove(Arrows(g), v);
    if Inbound(g, s) != [] {
      var u := Inbound(g, s)[0];
      ArrowIsEdge(g, u, s);
    }
    assert s in g.entryNodes;
  }
}
