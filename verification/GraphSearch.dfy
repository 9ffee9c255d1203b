/** The two breadth-first searches of the compiler (internal/engine/compiler.go), exact with respect
    to paths. */
module GraphSearch {
  import opened Digraphs
  import opened WorkflowGraph

  // ---------------------------------------------------------------------------
  // reachableFrom

  /** Mark and enqueue the successors of `cur` that have not been seen, output by output. */
  method EnqueueChildren(g: CompiledGraph, cur: NodeId, visited0: set<NodeId>, queue0: seq<NodeId>)
    returns (visited: set<NodeId>, queue: seq<NodeId>)
    requires Wired(g)
    ensures visited == visited0 + Succ(Arrows(g), cur)
    ensures queue0 <= queue
    ensures Elements(queue[|queue0|..]) == visited - visited0
  {
    visited, queue := visited0, queue0;
    if cur !in g.adjacency { return; }
    var outputs := g.adjacency[cur].Keys;
    ghost var done: set<NodeId> := {};
    while outputs != {}
      invariant outputs <= g.adjacency[cur].Keys
      invariant done == set o, t | o in g.adjacency[cur].Keys - outputs && t in g.adjacency[cur][o] :: t
      invariant visited == visited0 + done
      invariant queue0 <= queue
      invariant Elements(queue[|queue0|..]) == visited - visited0
      decreases outputs
    {
      var o :| o in outputs;
      var targets := g.adjacency[cur][o];
      for i := 0 to |targets|
        invariant visited == visited0 + done + Elements(targets[..i])
        invariant queue0 <= queue
        invariant Elements(queue[|queue0|..]) == visited - visited0
      {
        var t := targets[i];
        assert targets[..i+1] == targets[..i] + [t];
        if t !in visited {
          EnqueueOne(|queue0|, queue, t);
          visited := visited + {t};
          queue := queue + [t];
        }
      }
      assert targets[..|targets|] == targets;
      outputs := outputs - {o};
      done := done + Elements(targets);
    }
  }

  /** Whether `target` can be reached from one of `starts`, by breadth-first search. */
  method ReachableFrom(g: CompiledGraph, starts: seq<NodeId>, target: NodeId) returns (found: bool)
    requires Wired(g)
    ensures found <==> exists s :: s in starts && Reaches(Arrows(g), s, target)
  {
    ghost var arrows := Arrows(g);
    ghost var all := g.nodes.Keys + Elements(starts);
    var visited := Elements(starts);
    var queue := starts;
    forall s | s in starts ensures Reaches(arrows, s, s) { ReachesSelf(arrows, s); }
    while queue != []
      invariant visited <= all && Elements(starts) <= visited && Elements(queue) <= visited
      invariant forall x :: x in visited ==> exists s :: s in starts && Reaches(arrows, s, x)
      invariant forall x :: x in visited - Elements(queue) ==> x != target && Succ(arrows, x) <= visited
      decreases all - visited, |queue|
    {
      var cur := queue[0];
      assert cur in Elements(queue);
      if cur == target { return true; }
      ArrowsClosed(g, cur);
      var visited', queue' := EnqueueChildren(g, cur, visited, queue[1..]);
      forall x | x in visited' ensures exists s :: s in starts && Reaches(arrows, s, x) {
        if x !in visited {
          var s :| s in starts && Reaches(arrows, s, cur);
          ReachesThenEdge(arrows, s, cur, x);
        }
      }
      QueueAdvance(queue, queue', visited, visited');
      forall x | x in visited' - Elements(queue') ensures x != target && Succ(arrows, x) <= visited' {
        if x != cur { assert x in visited - Elements(queue); }
      }
      visited, queue := visited', queue';
    }
    found := false;
    forall s | s in starts ensures !Reaches(arrows, s, target) {
      if Reaches(arrows, s, target) { ClosedHoldsReachable(arrows, visited, s, target); }
    }
  }

  /** Popping the head and appending the newly visited vertices. */
  lemma QueueAdvance<T>(queue: seq<T>, queue': seq<T>, visited: set<T>, visited': set<T>)
    requires queue != [] && queue[1..] <= queue' && visited <= visited'
    requires Elements(queue'[|queue|-1..]) == visited' - visited
    ensures Elements(queue) - {queue[0]} <= Elements(queue') <= Elements(queue) + (visited' - visited)
    ensures visited' - visited <= Elements(queue')
    ensures visited' == visited ==> |queue'| < |queue|
  {
    var rest, added := queue[1..], queue'[|queue|-1..];
    assert queue' == rest + added && queue == [queue[0]] + rest;
    if added != [] { assert added[0] in Elements(added); }
  }

  lemma EnqueueOne<T>(n: nat, queue: seq<T>, x: T)
    requires n <= |queue|
    ensures Elements((queue + [x])[n..]) == Elements(queue[n..]) + {x}
  {
    assert (queue + [x])[n..] == queue[n..] + [x];
  }

  // ---------------------------------------------------------------------------
  // traceAncestors

  /** Mark and enqueue the sources of `cur`'s inbound edges that have not been seen. */
  method EnqueueParents(g: CompiledGraph, cur: NodeId, visited0: set<NodeId>, queue0: seq<NodeId>)
    returns (visited: set<NodeId>, queue: seq<NodeId>)
    ensures visited == visited0 + Elements(Inbound(g, cur))
    ensures queue0 <= queue
    ensures Elements(queue[|queue0|..]) == visited - visited0
  {
    visited, queue := visited0, queue0;
    var parents := Inbound(g, cur);
    for i := 0 to |parents|
      invariant visited == visited0 + Elements(parents[..i])
      invariant queue0 <= queue
      invariant Elements(queue[|queue0|..]) == visited - visited0
    {
      var parent := parents[i];
      assert parents[..i+1] == parents[..i] + [parent];
      if parent !in visited {
        EnqueueOne(|queue0|, queue, parent);
        visited := visited + {parent};
        queue := queue + [parent];
      }
    }
    assert parents[..|parents|] == parents;
  }

  /** All strict ancestors of a node, by breadth-first search over reverse edges. */
  method TraceAncestors(g: CompiledGraph, node: NodeId) returns (visited: set<NodeId>)
    requires Wired(g)
    ensures forall u :: u in visited <==> StrictlyReaches(Arrows(g), u, node)
  {
    visited := {};
    var queue := [node];
    while queue != []
      invariant SoundAncestors(g, node, visited)
      invariant ExpandedUp(g, node, visited, Elements(queue))
      decreases g.nodes.Keys - visited, |queue|
    {
      var cur := queue[0];
      var visited', queue' := EnqueueParents(g, cur, visited, queue[1..]);
      QueueAdvance(queue, queue', visited, visited');
      AncestorsStaySound(g, node, visited, cur);
      visited, queue := visited', queue';
    }
    AncestorsComplete(g, node, visited);
  }

  ghost predicate SoundAncestors(g: CompiledGraph, node: NodeId, visited: set<NodeId>) {
    forall u :: u in visited ==> u in g.nodes && StrictlyReaches(Arrows(g), u, node)
  }

  /** Everything met so far is still queued or has had its inbound sources marked. */
  ghost predicate ExpandedUp(g: CompiledGraph, node: NodeId, visited: set<NodeId>, queued: set<NodeId>) {
    && queued <= visited + {node}
    && forall x :: x in visited + {node} - queued ==> Elements(Inbound(g, x)) <= visited
  }

  lemma AncestorsStaySound(g: CompiledGraph, node: NodeId, visited: set<NodeId>, cur: NodeId)
    requires Wired(g) && SoundAncestors(g, node, visited) && cur in visited + {node}
    ensures SoundAncestors(g, node, visited + Elements(Inbound(g, cur)))
  {
    forall u | u in Elements(Inbound(g, cur)) ensures u in g.nodes && StrictlyReaches(Arrows(g), u, node) {
      AncestorStep(g, u, cur, node);
    }
  }

  lemma AncestorsComplete(g: CompiledGraph, node: NodeId, visited: set<NodeId>)
    requires Wired(g) && ExpandedUp(g, node, visited, {})
    ensures forall u :: StrictlyReaches(Arrows(g), u, node) ==> u in visited
  {
    var arrows := Arrows(g);
    forall u | StrictlyReaches(arrows, u, node) ensures u in visited {
      var w :| w in Succ(arrows, u) && Reaches(arrows, w, node);
      var p :| PathFromTo(arrows, p, w, node);
      forall x, y | y in visited + {node} && y in Succ(arrows, x) ensures x in visited {
        ArrowIsEdge(g, x, y);
      }
      PreclosedHoldsReaching(arrows, visited + {node}, p);
    }
  }

  lemma AncestorStep(g: CompiledGraph, parent: NodeId, cur: NodeId, node: NodeId)
    requires Wired(g) && parent in Inbound(g, cur)
    requires cur == node || StrictlyReaches(Arrows(g), cur, node)
    ensures StrictlyReaches(Arrows(g), parent, node)
  {
    ArrowIsEdge(g, parent, cur);
    if cur == node {
      ReachesSelf(Arrows(g), node);
    } else {
      var w :| w in Succ(Arrows(g), cur) && Reaches(Arrows(g), w, node);
      ReachesEdgeThen(Arrows(g), cur, w, node);
    }
  }
}
