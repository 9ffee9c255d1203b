/** The workflow definition and its compiled form (internal/engine/compiler.go), and what
    it means for a compiled graph to be consistent. */
module WorkflowGraph {
  import opened Common
  import opened Digraphs

  type NodeId = string

  datatype RetryConfig = RetryConfig(attempts: int, backoff: string, delay: string)

  datatype EdgeConfig = EdgeConfig(from: NodeId, to: NodeId, output: string, retry: Option<RetryConfig>) {
    /** The output name with its default. */
    function Port(): string {
      if output == "" then "success" else output
    }
  }

  /** `refs` stands for the identifiers found in the node's config expressions, and `name` for the
      string under "name" in its config, if there is one. */
  datatype NodeConfig = NodeConfig(kind: string, name: string, alias: string, refs: set<string>)

  /** The workflow's timeout setting, as far as it can be parsed. */
  datatype TimeoutConfig = NoTimeout | ParsedTimeout(duration: int) | MalformedTimeout(text: string)

  datatype WorkflowConfig = WorkflowConfig(timeout: TimeoutConfig, nodes: map<NodeId, NodeConfig>, edges: seq<EdgeConfig>)

  datatype JoinType = JoinNone | JoinAND | JoinOR | JoinMixed

  datatype CompiledNode = CompiledNode(kind: string, name: string, alias: string, outputs: seq<string>, configRefs: set<string>)

  /** Node, then output, then the targets in edge order. */
  type Adjacency = map<NodeId, map<string, seq<NodeId>>>

  datatype CompiledGraph = CompiledGraph(
    timeout: int,                     // zero when there is none
    nodes: map<NodeId, CompiledNode>,
    adjacency: Adjacency,
    retries: map<(NodeId, string, NodeId), Option<RetryConfig>>,
    reverse: map<NodeId, seq<NodeId>>,
    entryNodes: seq<NodeId>,
    terminalNodes: seq<NodeId>,
    depCount: map<NodeId, nat>,
    joinTypes: map<NodeId, JoinType>,
    joinGroups: map<NodeId, map<NodeId, nat>>,
    joinGroupCount: map<NodeId, nat>)

  /** `graph.Adjacency[u][o]`, where a missing entry reads as the empty slice. */
  function Targets(g: CompiledGraph, u: NodeId, o: string): seq<NodeId> {
    if u in g.adjacency && o in g.adjacency[u] then g.adjacency[u][o] else []
  }

  /** `graph.Reverse[v]`, where a missing entry reads as the empty slice. */
  function Inbound(g: CompiledGraph, v: NodeId): seq<NodeId> {
    if v in g.reverse then g.reverse[v] else []
  }

  function Elements<T>(s: seq<T>): set<T> {
    set x | x in s
  }

  function Children(adjacency: Adjacency, u: NodeId): set<NodeId>
    requires u in adjacency
  {
    set o, t | o in adjacency[u] && t in adjacency[u][o] :: t
  }

  function ArrowsOf(adjacency: Adjacency): Digraph {
    map u | u in adjacency :: Children(adjacency, u)
  }

  /** The graph with outputs forgotten. */
  function Arrows(g: CompiledGraph): Digraph {
    ArrowsOf(g.adjacency)
  }

  ghost predicate HasArrow(adjacency: Adjacency, u: NodeId, t: NodeId) {
    u in adjacency && t in Children(adjacency, u)
  }

  /** Adjacency and reverse adjacency describe the same edges between known nodes. */
  ghost predicate Wired(g: CompiledGraph) {
    && g.adjacency.Keys == g.nodes.Keys
    && (forall u, o :: u in g.adjacency && o in g.adjacency[u] ==> g.adjacency[u][o] != [])
    && (forall u, o, t :: t in Targets(g, u, o) ==> t in g.nodes && u in Inbound(g, t))
    && (forall u, t :: u in Inbound(g, t) ==> t in g.nodes && HasArrow(g.adjacency, u, t))
  }

  ghost predicate EntriesListed(g: CompiledGraph) {
    && StrictlySorted(g.entryNodes)
    && forall x :: x in g.entryNodes <==> x in g.nodes && Inbound(g, x) == []
  }

  ghost predicate IsTerminal(g: CompiledGraph, x: NodeId) {
    forall o :: o != "error" ==> Targets(g, x, o) == []
  }

  ghost predicate TerminalsListed(g: CompiledGraph) {
    && StrictlySorted(g.terminalNodes)
    && forall x :: x in g.terminalNodes <==> x in g.nodes && IsTerminal(g, x)
  }

  ghost predicate HasSource(g: CompiledGraph, v: NodeId, group: nat) {
    v in g.joinGroups && exists u :: u in g.joinGroups[v] && g.joinGroups[v][u] == group
  }

  /** Every inbound source has a group below the group count, and every group has a source. */
  ghost predicate Grouped(g: CompiledGraph, v: NodeId) {
    && v in g.joinGroupCount
    && (Inbound(g, v) == [] <==> g.joinGroupCount[v] == 0)
    && (Inbound(g, v) != [] ==>
          && v in g.joinGroups
          && g.joinGroups[v].Keys == Elements(Inbound(g, v))
          && (forall u :: u in g.joinGroups[v] ==> g.joinGroups[v][u] < g.joinGroupCount[v])
          && (forall i: nat :: i < g.joinGroupCount[v] ==> HasSource(g, v, i)))
  }

  /** What the executor relies on. */
  ghost predicate Runnable(g: CompiledGraph) {
    && Wired(g)
    && EntriesListed(g)
    && g.joinGroupCount.Keys == g.nodes.Keys
    && forall v :: v in g.nodes ==> Grouped(g, v)
  }

  lemma ArrowIsEdge(g: CompiledGraph, u: NodeId, t: NodeId)
    requires Wired(g)
    ensures t in Succ(Arrows(g), u) <==> exists o :: t in Targets(g, u, o)
    ensures t in Succ(Arrows(g), u) <==> u in Inbound(g, t)
  {
    if t in Succ(Arrows(g), u) {
      var o :| o in g.adjacency[u] && t in g.adjacency[u][o];
      assert t in Targets(g, u, o);
    }
    if o :| t in Targets(g, u, o) {
      assert t in Children(g.adjacency, u);
    }
  }

  lemma ArrowsClosed(g: CompiledGraph, u: NodeId)
    requires Wired(g)
    ensures Succ(Arrows(g), u) <= g.nodes.Keys
  {
    forall t | t in Succ(Arrows(g), u) ensures t in g.nodes {
      ArrowIsEdge(g, u, t);
    }
  }

  // ---------------------------------------------------------------------------
  // What a list of edges means, independently of how the maps are filled

  function TargetsOf(edges: seq<EdgeConfig>, u: NodeId, o: string): seq<NodeId> {
    if edges == [] then []
    else
      var e := edges[|edges|-1];
      TargetsOf(edges[..|edges|-1], u, o) + if e.from == u && e.Port() == o then [e.to] else []
  }

  function SourcesOf(edges: seq<EdgeConfig>, v: NodeId): seq<NodeId> {
    if edges == [] then []
    else
      var e := edges[|edges|-1];
      SourcesOf(edges[..|edges|-1], v) + if e.to == v then [e.from] else []
  }

  /** The retry setting of the last edge with these endpoints and output. */
  function RetryOf(edges: seq<EdgeConfig>, u: NodeId, o: string, v: NodeId): Option<Option<RetryConfig>> {
    if edges == [] then None
    else
      var e := edges[|edges|-1];
      if e.from == u && e.Port() == o && e.to == v then Some(e.retry)
      else RetryOf(edges[..|edges|-1], u, o, v)
  }
}
