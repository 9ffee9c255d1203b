/** When two legs that the compiler calls mutually exclusive (internal/engine/compiler.go) can
    really never both deliver. */
module Exclusivity {
  import opened Common
  import opened Digraphs
  import opened WorkflowGraph
  import opened Executor
  import opened ExecutorInvariant
  import opened ExecutorOrder
  import opened ExecutorTheorems
  import opened ScheduleIndependence
  import opened ExecutorProgress
  import opened Joins

  ghost predicate Delivers(g: CompiledGraph, s: State, src: NodeId, join: NodeId) {
    exists k :: 0 <= k < |s.threads| && s.threads[k].node == src && Delivered(g, s.threads[k], join)
  }

  /** Some interleaving has both legs deliver. */
  ghost predicate CanBothDeliver(w: Setup, join: NodeId, a: NodeId, b: NodeId) {
    exists es :: Possible(w, es) && Delivers(w.g, After(w, es), a, join) && Delivers(w.g, After(w, es), b, join)
  }

  // ---------------------------------------------------------------------------
  // Causal chains

  /** A path of nodes from an entry, each of which was launched by a delivery of the one before. */
  ghost predicate Chain(g: CompiledGraph, s: State, p: seq<NodeId>) {
    && |p| > 0 && IsEntry(g, p[0])
    && (forall i :: 0 <= i < |p| ==> p[i] in g.nodes)
    && forall i :: 0 <= i < |p| - 1 ==> Delivers(g, s, p[i], p[i+1])
  }

  /** The goroutine's node is an entry, or a goroutine launched earlier delivered to it. */
  ghost predicate HasLauncher(g: CompiledGraph, s: State, k: nat)
    requires k < |s.threads|
  {
    && s.threads[k].node in g.nodes
    && (IsEntry(g, s.threads[k].node) || exists j :: 0 <= j < k && Delivered(g, s.threads[j], s.threads[k].node))
  }

  lemma LauncherExists(w: Setup, s: State, k: nat)
    requires Runnable(w.g) && Shaped(w, s) && Ordered(w, s) && k < |s.threads|
    ensures HasLauncher(w.g, s, k)
  {
    var v := s.threads[k].node;
    assert InRange(w.g, s.threads[k]) && WellFounded(w.g, s, k);
    if !IsEntry(w.g, v) {
      assert Grouped(w.g, v);
      assert CausedBefore(w.g, s, v, 0, k);
    }
  }

  lemma {:induction false} ChainTo(g: CompiledGraph, s: State, k: nat) returns (p: seq<NodeId>)
    requires forall j :: 0 <= j < |s.threads| ==> HasLauncher(g, s, j)
    requires k < |s.threads|
    ensures Chain(g, s, p) && p[|p|-1] == s.threads[k].node
    decreases k
  {
    var v := s.threads[k].node;
    assert HasLauncher(g, s, k);
    if IsEntry(g, v) {
      p := [v];
    } else {
      var j :| 0 <= j < k && Delivered(g, s.threads[j], v);
      var q := ChainTo(g, s, j);
      assert Delivers(g, s, q[|q|-1], v);
      p := q + [v];
      forall i | 0 <= i < |p| - 1 ensures Delivers(g, s, p[i], p[i+1]) {
        if i < |q| - 1 { assert Delivers(g, s, q[i], q[i+1]); }
      }
    }
  }

  /** Every node on a chain but the last fired an output that leads to the last. */
  lemma ChainThrough(g: CompiledGraph, s: State, p: seq<NodeId>, i: nat) returns (k: nat, o: string)
    requires Wired(g) && Chain(g, s, p) && i < |p| - 1
    ensures k < |s.threads| && s.threads[k].node == p[i] && Fired(s.threads[k].pc) == Some(o)
    ensures p[i+1] in Targets(g, p[i], o) && Reaches(Arrows(g), p[i+1], p[|p|-1])
  {
    assert Delivers(g, s, p[i], p[i+1]);
    k :| 0 <= k < |s.threads| && s.threads[k].node == p[i] && Delivered(g, s.threads[k], p[i+1]);
    o := Fired(s.threads[k].pc).value;
    ChainIsPath(g, s, p);
    assert PathFromTo(Arrows(g), p[i+1..], p[i+1], p[|p|-1]);
  }

  lemma DeliversIsArrow(g: CompiledGraph, s: State, u: NodeId, v: NodeId)
    requires Wired(g) && Delivers(g, s, u, v)
    ensures v in Succ(Arrows(g), u)
  {
    var k :| 0 <= k < |s.threads| && s.threads[k].node == u && Delivered(g, s.threads[k], v);
    var o := Fired(s.threads[k].pc).value;
    assert v in Targets(g, u, o);
    ArrowIsEdge(g, u, v);
  }

  lemma ChainIsPath(g: CompiledGraph, s: State, p: seq<NodeId>)
    requires Wired(g) && Chain(g, s, p)
    ensures IsPath(Arrows(g), p)
  {
    forall i | 0 <= i < |p| - 1 ensures p[i+1] in Succ(Arrows(g), p[i]) { DeliversIsArrow(g, s, p[i], p[i+1]); }
  }

  // ---------------------------------------------------------------------------
  // Dominance is enough

  /** Every path from an entry node to `v` goes through `x`. */
  ghost predicate Dominates(g: CompiledGraph, x: NodeId, v: NodeId) {
    forall p :: IsPath(Arrows(g), p) && IsEntry(g, p[0]) && p[0] in g.nodes && p[|p|-1] == v ==> x in p
  }

  /** If `x` dominates a leg that delivered, then `x` fired an output the leg descends from. */
  lemma DominatorFired(g: CompiledGraph, s: State, x: NodeId, join: NodeId, src: NodeId) returns (k: nat, o: string)
    requires Wired(g) && forall j :: 0 <= j < |s.threads| ==> HasLauncher(g, s, j)
    requires Delivers(g, s, src, join) && Dominates(g, x, src)
    ensures k < |s.threads| && s.threads[k].node == x && Fired(s.threads[k].pc) == Some(o)
    ensures Descends(g.adjacency, x, join, src, o)
  {
    var m :| 0 <= m < |s.threads| && s.threads[m].node == src && Delivered(g, s.threads[m], join);
    if src == x {
      k, o := m, Fired(s.threads[m].pc).value;
      assert join in Targets(g, x, o);
    } else {
      var p := ChainTo(g, s, m);
      ChainIsPath(g, s, p);
      var i :| 0 <= i < |p| && p[i] == x;
      k, o := ChainThrough(g, s, p, i);
    }
  }

  /** A splitting ancestor that lies on every entry path of both legs makes them exclusive in
      every interleaving. */
  lemma DominatingSplitIsExclusive(w: Setup, es: seq<Event>, x: NodeId, join: NodeId, a: NodeId, b: NodeId)
    requires Runnable(w.g) && Possible(w, es)
    requires Splits(w.g.adjacency, x, join, a, b) && Dominates(w.g, x, a) && Dominates(w.g, x, b)
    ensures !(Delivers(w.g, After(w, es), a, join) && Delivers(w.g, After(w, es), b, join))
  {
    var s := After(w, es);
    if Delivers(w.g, s, a, join) && Delivers(w.g, s, b, join) {
      RunInv(w, es);
      RunOrdered(w, es);
      forall j | 0 <= j < |s.threads| ensures HasLauncher(w.g, s, j) { LauncherExists(w, s, j); }
      var k, o := DominatorFired(w.g, s, x, join, a);
      var k', o' := DominatorFired(w.g, s, x, join, b);
      if k < k' { NoTwoGoroutines(w, s, k, k'); }
      if k' < k { NoTwoGoroutines(w, s, k', k); }
    }
  }

  // ---------------------------------------------------------------------------
  // The exact condition

  /** For some choice of outputs the static meaning of the graph contains both legs, and both
      follow an edge to the join. */
  ghost predicate Concurrent(g: CompiledGraph, join: NodeId, a: NodeId, b: NodeId) {
    exists c: Choice, nodes: set<NodeId> ::
      && Followable(g, c) && LeastClosed(g, c, nodes)
      && BothFeed(g, c, nodes, join, a, b)
  }

  ghost predicate BothFeed(g: CompiledGraph, c: Choice, nodes: set<NodeId>, join: NodeId, a: NodeId, b: NodeId) {
    a in nodes && b in nodes && join in Targets(g, a, c(a)) && join in Targets(g, b, c(b))
  }

  /** A followed "error" output has error edges. */
  ghost predicate Routed(g: CompiledGraph, t: Thread) {
    Fired(t.pc) == Some("error") ==> Targets(g, t.node, "error") != []
  }

  ghost predicate ErrorsRouted(g: CompiledGraph, s: State) {
    forall k :: 0 <= k < |s.threads| ==> Routed(g, s.threads[k])
  }

  lemma SettledIsRouted(w: Setup, s: State, e: Event)
    requires e.Settle? && Enabled(w, s, e)
    ensures Routed(w.g, Apply(w, s, e).threads[e.t])
  {
    var u := s.threads[e.t].node;
    match Settled(w.g, u, e.first, e.tries)
    case Fail =>
    case Follow(o) => if o == "error" { assert Targets(w.g, u, "error") != []; }
  }

  lemma MoveRoutes(w: Setup, s: State, s': State, t: nat)
    requires ErrorsRouted(w.g, s) && Moves(s, s', t) && LaunchesOne(s, s') && Routed(w.g, s'.threads[t])
    ensures ErrorsRouted(w.g, s')
  {
    forall k | 0 <= k < |s'.threads| ensures Routed(w.g, s'.threads[k]) {
      if k < |s.threads| && k != t { assert Routed(w.g, s.threads[k]); }
    }
  }

  lemma SharedRoutes(w: Setup, s: State, e: Event)
    requires Enabled(w, s, e) && ErrorsRouted(w.g, s) && (e.Evict? || e.Swap? || e.Arrive?)
    ensures ErrorsRouted(w.g, Apply(w, s, e))
  {
    assert Routed(w.g, s.threads[e.t]);
    if e.Evict? { EvictMoves(w, s, e.t); }
    else if e.Swap? { SwapMoves(w, s, e.t); }
    else { ArriveMoves(w, s, e.t); }
    MoveRoutes(w, s, Apply(w, s, e), e.t);
  }

  lemma StepRoutesErrors(w: Setup, s: State, e: Event)
    requires Enabled(w, s, e) && ErrorsRouted(w.g, s)
    ensures ErrorsRouted(w.g, Apply(w, s, e))
  {
    if e.Evict? || e.Swap? || e.Arrive? {
      SharedRoutes(w, s, e);
    } else if e.Check? || e.Settle? || e.Abort? {
      var pc := LocalStep(w, s, e);
      if e.Settle? { SettledIsRouted(w, s, e); }
      MoveRoutes(w, s, Apply(w, s, e), e.t);
    }
  }

  lemma {:induction false} RunRoutesErrors(w: Setup, es: seq<Event>)
    requires Possible(w, es)
    ensures ErrorsRouted(w.g, After(w, es))
    decreases |es|
  {
    if es != [] {
      RunRoutesErrors(w, es[..|es|-1]);
      StepRoutesErrors(w, After(w, es[..|es|-1]), es[|es|-1]);
    }
  }

  ghost predicate FiredBy(s: State, k: int, u: NodeId) {
    0 <= k < |s.threads| && s.threads[k].node == u && Fired(s.threads[k].pc).Some?
  }

  /** The outputs a run has followed so far, completed arbitrarily. */
  ghost function ChoiceOf(s: State): Choice {
    (u: NodeId) => if exists k :: FiredBy(s, k, u) then (var k :| FiredBy(s, k, u); Fired(s.threads[k].pc).value) else "success"
  }

  lemma ChoiceOfUnique(s: State, k: nat)
    requires OneEach(s)
    requires k < |s.threads| && FiredBy(s, k, s.threads[k].node)
    ensures ChoiceOf(s)(s.threads[k].node) == Fired(s.threads[k].pc).value
  {
  }

  lemma ChoiceOfObeyed(g: CompiledGraph, s: State)
    requires OneEach(s)
    requires ErrorsRouted(g, s)
    ensures Obeys(s, ChoiceOf(s)) && Followable(g, ChoiceOf(s))
  {
    forall k | 0 <= k < |s.threads| && Fired(s.threads[k].pc).Some?
      ensures Fired(s.threads[k].pc).value == ChoiceOf(s)(s.threads[k].node)
    {
      ChoiceOfUnique(s, k);
    }
    forall u | ChoiceOf(s)(u) == "error" ensures Targets(g, u, "error") != [] {
      var k :| FiredBy(s, k, u);
      ChoiceOfUnique(s, k);
      assert Routed(g, s.threads[k]);
    }
  }

  lemma RunHasChoice(w: Setup, es: seq<Event>)
    requires Runnable(w.g) && Possible(w, es)
    ensures Obeys(After(w, es), ChoiceOf(After(w, es))) && Followable(w.g, ChoiceOf(After(w, es)))
  {
    RunInv(w, es);
    OneGoroutineEach(w, After(w, es));
    RunRoutesErrors(w, es);
    ChoiceOfObeyed(w.g, After(w, es));
  }

  lemma DeliveriesAreStatic(w: Setup, es: seq<Event>, join: NodeId, a: NodeId, b: NodeId)
    requires Runnable(w.g) && Possible(w, es)
    requires Delivers(w.g, After(w, es), a, join) && Delivers(w.g, After(w, es), b, join)
    ensures Concurrent(w.g, join, a, b)
  {
    var s := After(w, es);
    RunHasChoice(w, es);
    var c := ChoiceOf(s);
    var full := EveryChoiceHasARun(w, c);
    var nodes := Dispatched(After(w, full));
    DispatchedWithinClosed(w, es, c, nodes);
    DeliversAsChosen(w.g, s, c, a, join);
    DeliversAsChosen(w.g, s, c, b, join);
    assert BothFeed(w.g, c, nodes, join, a, b);
  }

  lemma DeliversAsChosen(g: CompiledGraph, s: State, c: Choice, u: NodeId, v: NodeId)
    requires Obeys(s, c) && Delivers(g, s, u, v)
    ensures u in Dispatched(s) && v in Targets(g, u, c(u))
  {
    var k :| 0 <= k < |s.threads| && s.threads[k].node == u && Delivered(g, s.threads[k], v);
    assert s.threads[k] in s.threads;
    ObeysDelivers(g, s, c, k, v);
  }

  lemma StaticsAreDelivered(w: Setup, c: Choice, nodes: set<NodeId>, join: NodeId, a: NodeId, b: NodeId)
    requires Runnable(w.g) && Followable(w.g, c) && LeastClosed(w.g, c, nodes) && BothFeed(w.g, c, nodes, join, a, b)
    ensures CanBothDeliver(w, join, a, b)
  {
    var es := EveryChoiceHasARun(w, c);
    var s := After(w, es);
    RunInv(w, es);
    RunRecords(w, es);
    CleanCompletes(w, s);
    assert nodes <= Dispatched(s);
    CompletedDelivers(w.g, s, c, a, join);
    CompletedDelivers(w.g, s, c, b, join);
  }

  lemma CompletedDelivers(g: CompiledGraph, s: State, c: Choice, u: NodeId, v: NodeId)
    requires AllCompleted(g, s) && Obeys(s, c) && u in Dispatched(s) && v in Targets(g, u, c(u))
    ensures Delivers(g, s, u, v)
  {
    var k := GoroutineOf(s, u);
    assert Completed(g, s.threads[k]);
    CompletedDelivered(g, s.threads[k], v);
  }

  /** Two legs can both deliver in some interleaving exactly when some choice of outputs makes them
      concurrent; so legs grouped together are safe exactly when no choice does. */
  lemma BothDeliverExactlyWhenConcurrent(w: Setup, join: NodeId, a: NodeId, b: NodeId)
    requires Runnable(w.g)
    ensures CanBothDeliver(w, join, a, b) <==> Concurrent(w.g, join, a, b)
  {
    if CanBothDeliver(w, join, a, b) {
      var es :| Possible(w, es) && Delivers(w.g, After(w, es), a, join) && Delivers(w.g, After(w, es), b, join);
      DeliveriesAreStatic(w, es, join, a, b);
    }
    if Concurrent(w.g, join, a, b) {
      var c: Choice, nodes: set<NodeId> :|
        Followable(w.g, c) && LeastClosed(w.g, c, nodes) && BothFeed(w.g, c, nodes, join, a, b);
      StaticsAreDelivered(w, c, nodes, join, a, b);
    }
  }

  // ---------------------------------------------------------------------------
  // Whole groups

  /** Two different legs of one group of the join. */
  ghost predicate SameGroup(g: CompiledGraph, join: NodeId, i: nat, a: NodeId, b: NodeId) {
    && a != b && a in Inbound(g, join) && b in Inbound(g, join)
    && Group(g, join, a) == i && Group(g, join, b) == i
  }

  /** In every run at most one leg of the group delivers. */
  ghost predicate DeliversAtMostOnce(w: Setup, join: NodeId, i: nat) {
    forall es, a, b :: Possible(w, es) && SameGroup(w.g, join, i, a, b) ==>
      !(Delivers(w.g, After(w, es), a, join) && Delivers(w.g, After(w, es), b, join))
  }

  /** What the executor assumes of a group holds in every run if and only if no two of its legs are
      concurrent, linked by exclusive pairs though they all are. */
  lemma GroupDeliversOnceIff(w: Setup, join: NodeId, i: nat)
    requires Runnable(w.g)
    ensures DeliversAtMostOnce(w, join, i) <==>
      forall a, b :: SameGroup(w.g, join, i, a, b) ==> !Concurrent(w.g, join, a, b)
  {
    forall a, b | SameGroup(w.g, join, i, a, b) ensures CanBothDeliver(w, join, a, b) <==> Concurrent(w.g, join, a, b) {
      BothDeliverExactlyWhenConcurrent(w, join, a, b);
    }
    if DeliversAtMostOnce(w, join, i) {
      forall a, b | SameGroup(w.g, join, i, a, b) ensures !CanBothDeliver(w, join, a, b) {}
    } else {
      var es, a, b :| Possible(w, es) && SameGroup(w.g, join, i, a, b)
                      && Delivers(w.g, After(w, es), a, join) && Delivers(w.g, After(w, es), b, join);
      assert CanBothDeliver(w, join, a, b);
    }
  }
}
