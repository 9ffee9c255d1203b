/** `detectCycle` of internal/engine/compiler.go: depth-first search with three colours and
    parent links. It finds a cycle exactly when there is one, and the list it reports is one. */
module CycleSearch {
  import opened Common
  import opened Digraphs
  import opened WorkflowGraph

  datatype Color = Gray | Black  // a node without a colour is white

  /** What the search has established: the grey nodes are the stack, which is a path that
      parent links lead down; black nodes have only black successors, finished earlier. */
  ghost predicate Search(arrows: Digraph, color: map<NodeId, Color>, parent: map<NodeId, NodeId>,
                         rank: map<NodeId, nat>, clock: nat, stack: seq<NodeId>)
  {
    && StackIsGray(color, stack)
    && StackLinked(arrows, parent, stack)
    && BlackFinished(arrows, color, rank, clock)
  }

  ghost predicate StackIsGray(color: map<NodeId, Color>, stack: seq<NodeId>) {
    && (forall x :: x in color && color[x] == Gray ==> x in stack)
    && (forall i :: 0 <= i < |stack| ==> stack[i] in color && color[stack[i]] == Gray)
    && (forall i, j :: 0 <= i < j < |stack| ==> stack[i] != stack[j])
  }

  ghost predicate StackLinked(arrows: Digraph, parent: map<NodeId, NodeId>, stack: seq<NodeId>) {
    forall i :: 1 <= i < |stack| ==> LinkedBelow(arrows, parent, stack[i-1], stack[i])
  }

  ghost predicate LinkedBelow(arrows: Digraph, parent: map<NodeId, NodeId>, u: NodeId, v: NodeId) {
    v in Succ(arrows, u) && v in parent && parent[v] == u
  }

  ghost predicate BlackFinished(arrows: Digraph, color: map<NodeId, Color>, rank: map<NodeId, nat>, clock: nat) {
    && (forall x :: x in rank <==> x in color && color[x] == Black)
    && (forall x :: x in rank ==> rank[x] < clock)
    && Ranked(arrows, rank)
  }

  lemma Push(arrows: Digraph, color: map<NodeId, Color>, parent: map<NodeId, NodeId>,
             rank: map<NodeId, nat>, clock: nat, stack: seq<NodeId>, node: NodeId)
    requires Search(arrows, color, parent, rank, clock, stack) && node !in color
    requires stack != [] ==> LinkedBelow(arrows, parent, stack[|stack|-1], node)
    ensures Search(arrows, color[node := Gray], parent, rank, clock, stack + [node])
  {
  }

  lemma Link(arrows: Digraph, color: map<NodeId, Color>, parent: map<NodeId, NodeId>,
             rank: map<NodeId, nat>, clock: nat, stack: seq<NodeId>, v: NodeId, u: NodeId)
    requires Search(arrows, color, parent, rank, clock, stack) && v !in color
    ensures Search(arrows, color, parent[v := u], rank, clock, stack)
  {
    forall i | 1 <= i < |stack| ensures LinkedBelow(arrows, parent[v := u], stack[i-1], stack[i]) {
      assert LinkedBelow(arrows, parent, stack[i-1], stack[i]);
    }
  }

  lemma Finish(arrows: Digraph, color: map<NodeId, Color>, parent: map<NodeId, NodeId>,
               rank: map<NodeId, nat>, clock: nat, stack: seq<NodeId>, node: NodeId)
    requires Search(arrows, color, parent, rank, clock, stack + [node])
    requires Succ(arrows, node) <= rank.Keys
    ensures Search(arrows, color[node := Black], parent, rank[node := clock], clock + 1, stack)
  {
    var path := stack + [node];
    assert path[|stack|] == node && node !in rank;
    forall i | 0 <= i < |stack| ensures stack[i] == path[i] {}
    forall i | 1 <= i < |stack| ensures LinkedBelow(arrows, parent, stack[i-1], stack[i]) {
      assert LinkedBelow(arrows, parent, path[i-1], path[i]);
    }
  }

  function Reverse<T>(s: seq<T>): (r: seq<T>)
    ensures |r| == |s| && forall i :: 0 <= i < |s| ==> r[i] == s[|s|-1-i]
  {
    if s == [] then [] else [s[|s|-1]] + Reverse(s[..|s|-1])
  }

  /** Rebuild the cycle closed by an edge from the top of the stack to a grey `target`,
      by following parent links. */
  method CyclePath(ghost arrows: Digraph, parent: map<NodeId, NodeId>, node: NodeId, target: NodeId,
                   ghost stack: seq<NodeId>)
    returns (cycle: seq<NodeId>)
    requires StackLinked(arrows, parent, stack) && target in stack
    requires stack[|stack|-1] == node && target in Succ(arrows, node)
    ensures IsCycle(arrows, cycle)
    ensures cycle[0] == target && cycle[|cycle|-2] == node
  {
    ghost var at := |stack| - 1;
    ghost var k :| 0 <= k < |stack| && stack[k] == target;
    var path := [target, node];
    var cur := node;
    while cur != target
      invariant k <= at < |stack| && cur == stack[at]
      invariant |path| == |stack| - at + 1 && path[0] == target
      invariant forall i :: 1 <= i < |path| ==> path[i] == stack[|stack| - i]
      decreases at
    {
      assert LinkedBelow(arrows, parent, stack[at-1], stack[at]);
      cur := parent[cur];
      path := path + [cur];
      at := at - 1;
    }
    cycle := Reverse(path);
    ReversedIsCycle(arrows, parent, node, target, stack, path);
  }

  lemma ReversedIsCycle(arrows: Digraph, parent: map<NodeId, NodeId>, node: NodeId, target: NodeId,
                        stack: seq<NodeId>, path: seq<NodeId>)
    requires StackLinked(arrows, parent, stack) && 2 <= |path| <= |stack| + 1
    requires stack[|stack|-1] == node && target in Succ(arrows, node)
    requires path[0] == target && path[|path|-1] == target
    requires forall i :: 1 <= i < |path| ==> path[i] == stack[|stack| - i]
    ensures IsCycle(arrows, Reverse(path))
  {
    var cycle := Reverse(path);
    forall i | 0 <= i < |cycle| - 1 ensures cycle[i+1] in Succ(arrows, cycle[i]) {
      var j := |path| - 1 - i;
      assert cycle[i] == path[j] && cycle[i+1] == path[j-1];
      if j > 1 { assert LinkedBelow(arrows, parent, stack[|stack|-j], stack[|stack|-j+1]); }
    }
  }

  /** Successors in the order in which the search looks at them. */
  type Listing = map<NodeId, seq<NodeId>>

  /** `arrows` is the graph that `next` lists. */
  ghost predicate Lists(next: Listing, arrows: Digraph) {
    && arrows.Keys == next.Keys
    && forall u :: u in next ==> arrows[u] == Elements(next[u]) && arrows[u] <= next.Keys
  }

  class Detector {
    const next: Listing
    var color: map<NodeId, Color>
    var parent: map<NodeId, NodeId>
    ghost var rank: map<NodeId, nat>
    ghost var clock: nat

    constructor (next: Listing)
      ensures this.next == next && color == map[] && parent == map[] && rank == map[]
    {
      this.next := next;
      color, parent, rank, clock := map[], map[], map[], 0;
    }

    /** The recursive closure `dfs`. */
    method Visit(node: NodeId, ghost arrows: Digraph, ghost stack: seq<NodeId>) returns (cycle: Option<seq<NodeId>>)
      requires Lists(next, arrows)
      requires Search(arrows, color, parent, rank, clock, stack)
      requires node in next && node !in color
      requires stack != [] ==> LinkedBelow(arrows, parent, stack[|stack|-1], node)
      modifies this`color, this`parent, this`rank, this`clock
      ensures cycle.None? ==> Search(arrows, color, parent, rank, clock, stack)
      ensures cycle.None? ==> node in rank && old(rank).Keys <= rank.Keys && old(color).Keys <= color.Keys
      ensures cycle.Some? ==> IsCycle(arrows, cycle.value)
      decreases next.Keys - color.Keys, 0
    {
      Push(arrows, color, parent, rank, clock, stack, node);
      color := color[node := Gray];
      cycle := FollowAll(node, arrows, stack + [node]);
      if cycle.None? { Leave(node, arrows, stack); }
    }

    method Leave(node: NodeId, ghost arrows: Digraph, ghost stack: seq<NodeId>)
      requires Search(arrows, color, parent, rank, clock, stack + [node])
      requires Succ(arrows, node) <= rank.Keys
      modifies this`color, this`rank, this`clock
      ensures Search(arrows, color, parent, rank, clock, stack)
      ensures color == old(color)[node := Black] && rank.Keys == old(rank).Keys + {node}
    {
      Finish(arrows, color, parent, rank, clock, stack, node);
      rank := rank[node := clock];
      color := color[node := Black];
      clock := clock + 1;
    }

    /** Every edge out of the node on top of the stack. */
    method FollowAll(node: NodeId, ghost arrows: Digraph, ghost stack: seq<NodeId>)
      returns (cycle: Option<seq<NodeId>>)
      requires Lists(next, arrows)
      requires Search(arrows, color, parent, rank, clock, stack)
      requires stack != [] && stack[|stack|-1] == node && node in next
      modifies this`color, this`parent, this`rank, this`clock
      ensures cycle.None? ==> Search(arrows, color, parent, rank, clock, stack)
      ensures cycle.None? ==> Succ(arrows, node) <= rank.Keys
      ensures cycle.None? ==> old(rank).Keys <= rank.Keys && old(color).Keys <= color.Keys
      ensures cycle.Some? ==> IsCycle(arrows, cycle.value)
      decreases next.Keys - color.Keys, 2
    {
      cycle := None;
      var targets := next[node];
      assert Succ(arrows, node) == Elements(targets);
      for j := 0 to |targets|
        invariant cycle.None? && Search(arrows, color, parent, rank, clock, stack)
        invariant old(rank).Keys <= rank.Keys && old(color).Keys <= color.Keys
        invariant Elements(targets[..j]) <= rank.Keys
      {
        assert targets[j] in Elements(targets) && targets[..j+1] == targets[..j] + [targets[j]];
        cycle := Follow(node, targets[j], arrows, stack);
        if cycle.Some? { return; }
      }
      assert targets[..|targets|] == targets;
    }

    /** One edge out of the node on top of the stack. */
    method Follow(node: NodeId, target: NodeId, ghost arrows: Digraph, ghost stack: seq<NodeId>)
      returns (cycle: Option<seq<NodeId>>)
      requires Lists(next, arrows)
      requires Search(arrows, color, parent, rank, clock, stack)
      requires stack != [] && stack[|stack|-1] == node && target in Succ(arrows, node)
      modifies this`color, this`parent, this`rank, this`clock
      ensures cycle.None? ==> Search(arrows, color, parent, rank, clock, stack)
      ensures cycle.None? ==> target in rank && old(rank).Keys <= rank.Keys && old(color).Keys <= color.Keys
      ensures cycle.Some? ==> IsCycle(arrows, cycle.value)
      decreases next.Keys - color.Keys, 1
    {
      cycle := None;
      if target in color && color[target] == Gray {
        var c := CyclePath(arrows, parent, node, target, stack);
        cycle := Some(c);
      } else if target !in color {
        Link(arrows, color, parent, rank, clock, stack, target, node);
        parent := parent[target := node];
        cycle := Visit(target, arrows, stack);
      }
    }
  }

  lemma AllSettled(arrows: Digraph, color: map<NodeId, Color>, parent: map<NodeId, NodeId>,
                   rank: map<NodeId, nat>, clock: nat)
    requires Search(arrows, color, parent, rank, clock, [])
    ensures color.Keys == rank.Keys
    ensures Ranked(arrows, rank)
  {
    forall x | x in color ensures x in rank {
      assert color[x] == Black;
    }
  }

  /** The search from every node in turn. */
  method SearchAll(next: Listing, ids: seq<NodeId>, ghost arrows: Digraph) returns (cycle: Option<seq<NodeId>>)
    requires Lists(next, arrows)
    requires forall x :: x in ids <==> x in next
    ensures cycle.None? <==> Acyclic(arrows)
    ensures cycle.Some? ==> IsCycle(arrows, cycle.value)
  {
    var d := new Detector(next);
    for i := 0 to |ids|
      invariant d.next == next
      invariant Search(arrows, d.color, d.parent, d.rank, d.clock, [])
      invariant forall k :: 0 <= k < i ==> ids[k] in d.rank
    {
      AllSettled(arrows, d.color, d.parent, d.rank, d.clock);
      if ids[i] !in d.color {
        cycle := d.Visit(ids[i], arrows, []);
        if cycle.Some? {
          CycleIffNotAcyclic(arrows);
          return;
        }
      }
    }
    cycle := None;
    AllSettled(arrows, d.color, d.parent, d.rank, d.clock);
    RankedIsAcyclic(arrows, d.rank);
  }

  // ---------------------------------------------------------------------------
  // The compiled graph as a listing: outputs in sorted order, then edge order

  function Flatten(m: map<string, seq<NodeId>>, outputs: seq<string>): (r: seq<NodeId>)
    requires forall o :: o in outputs ==> o in m
    ensures forall t :: t in r <==> exists o :: o in outputs && t in m[o]
  {
    if outputs == [] then [] else m[outputs[0]] + Flatten(m, outputs[1..])
  }

  function OrderedTargets(g: CompiledGraph): Listing {
    map u | u in g.adjacency :: Flatten(g.adjacency[u], SortedStrings(g.adjacency[u].Keys))
  }

  lemma ListsArrowsAt(g: CompiledGraph, u: NodeId)
    requires Wired(g) && u in g.adjacency
    ensures Arrows(g)[u] == Elements(OrderedTargets(g)[u])
  {
    ArrowsClosed(g, u);
    forall t | t in Children(g.adjacency, u) ensures t in OrderedTargets(g)[u] {
      var o :| o in g.adjacency[u] && t in g.adjacency[u][o];
      assert o in SortedStrings(g.adjacency[u].Keys);
    }
  }

  lemma ListsArrows(g: CompiledGraph)
    requires Wired(g)
    ensures Lists(OrderedTargets(g), Arrows(g))
  {
    forall u | u in g.adjacency
      ensures Arrows(g)[u] == Elements(OrderedTargets(g)[u]) && Arrows(g)[u] <= g.adjacency.Keys
    {
      ArrowsClosed(g, u);
      ListsArrowsAt(g, u);
    }
  }

  /** Reports a cycle exactly when the graph has one; the report is a cycle of the graph. */
  method DetectCycle(g: CompiledGraph) returns (cycle: Option<seq<NodeId>>)
    requires Wired(g)
    ensures cycle.None? <==> Acyclic(Arrows(g))
    ensures cycle.Some? ==> IsCycle(Arrows(g), cycle.value)
  {
    ListsArrows(g);
    cycle := SearchAll(OrderedTargets(g), SortedStrings(g.nodes.Keys), Arrows(g));
  }
}
