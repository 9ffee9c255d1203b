/** When the workflow.output nodes that the compiler lets through really fire one at a time
    (internal/engine/exclusivity.go). */
module OutputRuns {
  import opened Common
  import opened WorkflowGraph
  import opened Executor
  import opened ExecutorInvariant
  import opened ExecutorOrder
  import opened ExecutorTheorems
  import opened ScheduleIndependence
  import opened ExecutorProgress
  import opened Exclusivity
  import WorkflowOutputs

  /** Some interleaving dispatches both nodes. */
  ghost predicate CanBothRun(w: Setup, a: NodeId, b: NodeId) {
    exists es :: Possible(w, es) && a in Dispatched(After(w, es)) && b in Dispatched(After(w, es))
  }

  /** Some choice of outputs has both nodes in its least closed set. */
  ghost predicate Compatible(g: CompiledGraph, a: NodeId, b: NodeId) {
    exists c: Choice, nodes: set<NodeId> :: Followable(g, c) && LeastClosed(g, c, nodes) && a in nodes && b in nodes
  }

  lemma RunsAreCompatible(w: Setup, es: seq<Event>, a: NodeId, b: NodeId)
    requires Runnable(w.g) && Possible(w, es) && a in Dispatched(After(w, es)) && b in Dispatched(After(w, es))
    ensures Compatible(w.g, a, b)
  {
    RunHasChoice(w, es);
    var c := ChoiceOf(After(w, es));
    var full := EveryChoiceHasARun(w, c);
    DispatchedWithinClosed(w, es, c, Dispatched(After(w, full)));
  }

  lemma CompatibleRuns(w: Setup, c: Choice, nodes: set<NodeId>, a: NodeId, b: NodeId)
    requires Runnable(w.g) && Followable(w.g, c) && LeastClosed(w.g, c, nodes) && a in nodes && b in nodes
    ensures CanBothRun(w, a, b)
  {
    var es := EveryChoiceHasARun(w, c);
    assert nodes <= Dispatched(After(w, es));
  }

  /** Two nodes can both run in some interleaving if and only if they are compatible. */
  lemma BothRunExactlyWhenCompatible(w: Setup, a: NodeId, b: NodeId)
    requires Runnable(w.g)
    ensures CanBothRun(w, a, b) <==> Compatible(w.g, a, b)
  {
    if CanBothRun(w, a, b) {
      var es :| Possible(w, es) && a in Dispatched(After(w, es)) && b in Dispatched(After(w, es));
      RunsAreCompatible(w, es, a, b);
    }
    if Compatible(w.g, a, b) {
      var c: Choice, nodes: set<NodeId> :|
        Followable(w.g, c) && LeastClosed(w.g, c, nodes) && a in nodes && b in nodes;
      CompatibleRuns(w, c, nodes, a, b);
    }
  }

  /** `x` lies on every entry path of both nodes, and none of its outputs leads to both. */
  ghost predicate SplitsForGood(g: CompiledGraph, x: NodeId, a: NodeId, b: NodeId) {
    && x != a && x != b && Dominates(g, x, a) && Dominates(g, x, b)
    && forall o :: !(WorkflowOutputs.Leads(g.adjacency, x, o, a) && WorkflowOutputs.Leads(g.adjacency, x, o, b))
  }

  /** A dominator of a node that runs has fired an output that leads to it. */
  lemma DominatorLeads(g: CompiledGraph, s: State, x: NodeId, t: NodeId) returns (k: nat, o: string)
    requires Wired(g) && forall j :: 0 <= j < |s.threads| ==> HasLauncher(g, s, j)
    requires t in Dispatched(s) && x != t && Dominates(g, x, t)
    ensures k < |s.threads| && s.threads[k].node == x && Fired(s.threads[k].pc) == Some(o)
    ensures WorkflowOutputs.Leads(g.adjacency, x, o, t)
  {
    var m := GoroutineOf(s, t);
    var p := ChainTo(g, s, m);
    ChainIsPath(g, s, p);
    var i :| 0 <= i < |p| && p[i] == x;
    k, o := ChainThrough(g, s, p, i);
  }

  lemma SplitsKeepApart(w: Setup, es: seq<Event>, x: NodeId, a: NodeId, b: NodeId)
    requires Runnable(w.g) && Possible(w, es) && SplitsForGood(w.g, x, a, b)
    ensures !(a in Dispatched(After(w, es)) && b in Dispatched(After(w, es)))
  {
    var s := After(w, es);
    if a in Dispatched(s) && b in Dispatched(s) {
      RunInv(w, es);
      RunOrdered(w, es);
      forall j | 0 <= j < |s.threads| ensures HasLauncher(w.g, s, j) { LauncherExists(w, s, j); }
      var k, o := DominatorLeads(w.g, s, x, a);
      var k', o' := DominatorLeads(w.g, s, x, b);
      if k < k' { NoTwoGoroutines(w, s, k, k'); }
      if k' < k { NoTwoGoroutines(w, s, k', k); }
    }
  }

  /** At most one named output node is ever dispatched. */
  ghost predicate OneOutputFires(w: Setup) {
    forall es, a, b :: Possible(w, es) && BothFired(w, After(w, es), a, b) ==> a == b
  }

  ghost predicate BothFired(w: Setup, s: State, a: NodeId, b: NodeId) {
    && WorkflowOutputs.IsOutput(w.g.nodes, a) && a in Dispatched(s)
    && WorkflowOutputs.IsOutput(w.g.nodes, b) && b in Dispatched(s)
  }

  /** "Only one can fire per execution" holds if and only if no two outputs are compatible. */
  lemma OneOutputFiresIff(w: Setup)
    requires Runnable(w.g)
    ensures OneOutputFires(w) <==>
      forall a, b :: WorkflowOutputs.IsOutput(w.g.nodes, a) && WorkflowOutputs.IsOutput(w.g.nodes, b) && a != b ==>
        !Compatible(w.g, a, b)
  {
    forall a, b ensures CanBothRun(w, a, b) <==> Compatible(w.g, a, b) { BothRunExactlyWhenCompatible(w, a, b); }
    if OneOutputFires(w) {
      forall a, b | WorkflowOutputs.IsOutput(w.g.nodes, a) && WorkflowOutputs.IsOutput(w.g.nodes, b) && a != b
        ensures !CanBothRun(w, a, b)
      {
        if es :| Possible(w, es) && a in Dispatched(After(w, es)) && b in Dispatched(After(w, es)) {
          assert BothFired(w, After(w, es), a, b);
        }
      }
    } else {
      var es, a, b :| Possible(w, es) && BothFired(w, After(w, es), a, b) && a != b;
      assert CanBothRun(w, a, b);
    }
  }

  /** It holds when every pair of outputs has an ancestor that splits it for good. */
  lemma DominatingSplitsFireOne(w: Setup)
    requires Runnable(w.g)
    requires forall a, b :: WorkflowOutputs.IsOutput(w.g.nodes, a) && WorkflowOutputs.IsOutput(w.g.nodes, b) && a != b ==>
      exists x :: SplitsForGood(w.g, x, a, b)
    ensures OneOutputFires(w)
  {
    forall es, a, b | Possible(w, es) && BothFired(w, After(w, es), a, b) ensures a == b {
      if a != b {
        var x :| SplitsForGood(w.g, x, a, b);
        SplitsKeepApart(w, es, x, a, b);
      }
    }
  }
}
