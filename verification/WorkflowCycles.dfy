/** `detectWorkflowCycles` of internal/config/crossrefs.go: the depth-first search over which
    workflow calls which. Unlike the compiler's search it goes on after a report and leaves the
    reporting workflow grey, so that a later report may start from a workflow that is no longer on
    the search stack. */
module WorkflowCycles {
  import opened Digraphs
  import opened WorkflowGraph
  import opened CycleSearch

  /** The workflows that each workflow calls; callees need not be keys. */
  ghost function Calls(graph: Listing): Digraph {
    map u | u in graph :: Elements(graph[u])
  }

  ghost function Universe(graph: Listing): set<NodeId> {
    graph.Keys + set u, v | u in graph && v in graph[u] :: v
  }

  function Callees(graph: Listing, u: NodeId): seq<NodeId> {
    if u in graph then graph[u] else []
  }

  lemma CalleesKnown(graph: Listing, u: NodeId)
    ensures Elements(Callees(graph, u)) == Succ(Calls(graph), u) <= Universe(graph)
  {
  }

  // ---------------------------------------------------------------------------
  // What the search computes

  /** The reported list of workflows; `caller`, `callee` and `stack` are the call that was followed
      and the search stack at that moment, which the source does not keep. */
  datatype Report = Report(path: seq<NodeId>, caller: NodeId, callee: NodeId, stack: seq<NodeId>)

  datatype Tour = Tour(color: map<NodeId, Color>, parent: map<NodeId, NodeId>, reports: seq<Report>)

  const EMPTY := Tour(map[], map[], [])

  /** A missing parent reads as the empty string. */
  function Up(parent: map<NodeId, NodeId>, u: NodeId): NodeId {
    if u in parent then parent[u] else ""
  }

  /** Parents of `cur` up to the target, giving up after `left` of them. */
  function Climb(parent: map<NodeId, NodeId>, cur: NodeId, target: NodeId, left: nat): seq<NodeId>
    decreases left
  {
    if cur == target || left == 0 then [cur] else [cur] + Climb(parent, Up(parent, cur), target, left - 1)
  }

  function PathOf(graph: Listing, parent: map<NodeId, NodeId>, caller: NodeId, callee: NodeId): seq<NodeId> {
    Reverse([callee] + Climb(parent, caller, callee, |graph| + 1))
  }

  predicate IsGray(t: Tour, x: NodeId) {
    x in t.color && t.color[x] == Gray
  }

  /** The recursive closure `dfs`. */
  function Visit(graph: Listing, node: NodeId, stack: seq<NodeId>, t: Tour): (r: Tour)
    requires node in Universe(graph) && node !in t.color && t.color.Keys <= Universe(graph)
    ensures t.color.Keys + {node} <= r.color.Keys <= Universe(graph)
    decreases Universe(graph) - t.color.Keys, 0
  {
    var t1 := t.(color := t.color[node := Gray]);
    assert node in Universe(graph) - t.color.Keys;
    CalleesKnown(graph, node);
    var (r, reported) := Follow(graph, node, stack + [node], Callees(graph, node), t1);
    if reported then r else r.(color := r.color[node := Black])
  }

  /** The calls still to be followed; the flag says that one of them was reported and ended the loop. */
  function Follow(graph: Listing, node: NodeId, stack: seq<NodeId>, rest: seq<NodeId>, t: Tour): (r: (Tour, bool))
    requires Elements(rest) <= Universe(graph) && t.color.Keys <= Universe(graph)
    ensures t.color.Keys <= r.0.color.Keys <= Universe(graph)
    decreases Universe(graph) - t.color.Keys, 1 + |rest|
  {
    if rest == [] then (t, false)
    else
      var next := rest[0];
      assert next in Elements(rest) && Elements(rest[1..]) <= Elements(rest);
      if IsGray(t, next) then
        (t.(reports := t.reports + [Report(PathOf(graph, t.parent, node, next), node, next, stack)]), true)
      else if next in t.color then Follow(graph, node, stack, rest[1..], t)
      else
        var t1 := Visit(graph, next, stack, t.(parent := t.parent[next := node]));
        assert next in Universe(graph) - t.color.Keys && next !in Universe(graph) - t1.color.Keys;
        Follow(graph, node, stack, rest[1..], t1)
  }

  /** The loop over the workflows, in a given order. */
  function VisitAll(graph: Listing, roots: seq<NodeId>, t: Tour): (r: Tour)
    requires Elements(roots) <= graph.Keys && t.color.Keys <= Universe(graph)
    ensures t.color.Keys + Elements(roots) <= r.color.Keys <= Universe(graph)
  {
    if roots == [] then t
    else
      assert roots[0] in Elements(roots) && Elements(roots[1..]) <= Elements(roots);
      assert Elements(roots) == {roots[0]} + Elements(roots[1..]);
      VisitAll(graph, roots[1..], if roots[0] in t.color then t else Visit(graph, roots[0], [], t))
  }

  /** The order in which the workflows happen to be looked at. */
  ghost predicate IsOrder(graph: Listing, roots: seq<NodeId>) {
    Elements(roots) == graph.Keys && forall i, j :: 0 <= i < j < |roots| ==> roots[i] != roots[j]
  }

  function Reports(graph: Listing, roots: seq<NodeId>): seq<Report>
    requires Elements(roots) <= graph.Keys
  {
    VisitAll(graph, roots, EMPTY).reports
  }

  // ---------------------------------------------------------------------------
  // The code

  class Detector {
    const graph: Listing
    var color: map<NodeId, Color>
    var parent: map<NodeId, NodeId>
    var reports: seq<Report>

    function State(): Tour
      reads this
    {
      Tour(color, parent, reports)
    }

    constructor (graph: Listing)
      ensures this.graph == graph && State() == EMPTY
    {
      this.graph := graph;
      color, parent, reports := map[], map[], [];
    }

    /** Rebuild a list along parent links, giving up after as many steps as there are keys and one. */
    method Walk(node: NodeId, target: NodeId) returns (path: seq<NodeId>)
      ensures path == PathOf(graph, parent, node, target)
    {
      path := [target, node];
      var cur := node;
      var i := 0;
      ghost var done := [target];
      while cur != target && i < |graph| + 1
        invariant 0 <= i <= |graph| + 1 && path == done + [cur]
        invariant done + Climb(parent, cur, target, |graph| + 1 - i) == [target] + Climb(parent, node, target, |graph| + 1)
        decreases |graph| + 1 - i
      {
        done := done + [cur];
        cur := if cur in parent then parent[cur] else "";
        path := path + [cur];
        i := i + 1;
      }
      path := Reverse(path);
    }

    method Search(node: NodeId, stack: seq<NodeId>)
      requires node in Universe(graph) && node !in color && color.Keys <= Universe(graph)
      modifies this`color, this`parent, this`reports
      ensures State() == Visit(graph, node, stack, old(State()))
      decreases Universe(graph) - color.Keys, 0
    {
      ghost var white := Universe(graph) - color.Keys;
      color := color[node := Gray];
      assert node in white && node !in Universe(graph) - color.Keys;
      CalleesKnown(graph, node);
      var reported := FollowAll(node, stack + [node]);
      if !reported { color := color[node := Black]; }
    }

    /** Every call out of the workflow on top of the stack, up to the first that is reported. */
    method FollowAll(node: NodeId, stack: seq<NodeId>) returns (reported: bool)
      requires Elements(Callees(graph, node)) <= Universe(graph) && color.Keys <= Universe(graph)
      modifies this`color, this`parent, this`reports
      ensures (State(), reported) == Follow(graph, node, stack, Callees(graph, node), old(State()))
      decreases Universe(graph) - color.Keys, 1
    {
      var targets := Callees(graph, node);
      var j := 0;
      while j < |targets|
        invariant 0 <= j <= |targets| && old(color).Keys <= color.Keys <= Universe(graph)
        invariant Elements(targets[j..]) <= Universe(graph)
        invariant Follow(graph, node, stack, targets[j..], State()) == Follow(graph, node, stack, targets, old(State()))
        decreases |targets| - j
      {
        var next := targets[j];
        assert targets[j..][0] == next && targets[j..][1..] == targets[j+1..] && next in Elements(targets[j..]);
        assert Elements(targets[j+1..]) <= Elements(targets[j..]);
        if next in color && color[next] == Gray {
          var path := Walk(node, next);
          reports := reports + [Report(path, node, next, stack)];
          return true;
        }
        if next !in color {
          parent := parent[next := node];
          Search(next, stack);
        }
        j := j + 1;
      }
      reported := false;
    }
  }
}
