/** In the bypass definition, the output of A can outlive its only reader: when W follows "b", A and B
    run side by side, and B alone lets J run and complete before A has answered. */
module LateOutputCounterexample {
  import opened Digraphs
  import opened WorkflowGraph
  import opened Executor
  import opened ScheduleIndependence
  import opened ExecutorProgress
  import opened ExclusivityCounterexample
  import opened Eviction
  import opened LateOutputs
  import Compile
  import Joins

  lemma JSources(g: CompiledGraph)
    requires Wired(g) && Wires(g.adjacency)
    ensures Elements(Inbound(g, "J")) == {"A", "B"}
  {
    forall u ensures u in Inbound(g, "J") <==> u in {"A", "B"} {
      SourcesMeanEdges(g, "J", u);
      if u in {"A", "B"} { assert IsEdge(u, "success", "J"); }
    }
  }

  /** A and B are the legs of J, and share its only group. */
  lemma BInEveryGroup(g: CompiledGraph, i: nat)
    requires Wired(g) && Wires(g.adjacency) && i < GroupCount(g, "J") && Compile.JoinGrouped(g, "J") && HasSource(g, "J", i)
    ensures Group(g, "J", "B") == i
  {
    JSources(g);
    LegsAreExclusive(g.adjacency);
    assert "A" in Inbound(g, "J") by { assert "A" in Elements(Inbound(g, "J")); }
    var x := Joins.ExclusionGraph(g.adjacency, "J", {"A", "B"});
    assert "B" in Succ(x, "A");
    ReachesSelf(x, "B");
    ReachesEdgeThen(x, "A", "B", "B");
    var u :| u in g.joinGroups["J"] && g.joinGroups["J"][u] == i;
  }

  lemma JIsDue(g: CompiledGraph, nodes: set<NodeId>)
    requires Wired(g) && Wires(g.adjacency) && Grouped(g, "J") && Compile.JoinGrouped(g, "J") && "B" in nodes
    ensures Due(g, TakeB(), nodes, "J")
  {
    assert IsEdge("B", "success", "J");
    SourcesMeanEdges(g, "J", "B");
    forall i: nat | i < GroupCount(g, "J") ensures Feeds(g, TakeB(), nodes, "J", i) {
      assert HasSource(g, "J", i);
      BInEveryGroup(g, i);
      assert "J" in Targets(g, "B", TakeB()("B"));
    }
  }

  lemma ReadersOfA(g: CompiledGraph)
    requires Wires(g.adjacency) && forall c :: c in g.nodes ==> g.nodes[c].configRefs == {}
    ensures Readers(g, "A") == {"J"}
  {
    assert IsEdge("A", "success", "J");
    forall t ensures t in Children(g.adjacency, "A") <==> t == "J" {
      if t in Children(g.adjacency, "A") {
        var o :| o in g.adjacency["A"] && t in g.adjacency["A"][o];
        assert IsEdge("A", o, t);
      }
    }
  }

  /** What the compiled form of the definition says about its nodes. */
  ghost predicate Plain(g: CompiledGraph) {
    && Runnable(g) && Wires(g.adjacency) && TerminalsListed(g)
    && (forall c :: c in g.nodes ==> g.nodes[c].configRefs == {})
    && (forall v :: v in {"A", "B", "J"} ==> v in g.nodes && Grouped(g, v) && Compile.JoinGrouped(g, v))
  }

  lemma CompiledIsPlain(g: CompiledGraph)
    requires Compile.Implements(g, BYPASS, Outputs)
    ensures Plain(g)
  {
    BypassNodes();
    BypassWires(g);
    forall v | v in {"A", "B", "J"} ensures v in g.nodes && Grouped(g, v) && Compile.JoinGrouped(g, v) {
      assert Compile.JoinClassified(g, v);
    }
  }

  lemma RunWithoutA(g: CompiledGraph, nodes: set<NodeId>)
    requires Plain(g) && ClosedWithout(g, TakeB(), "A", nodes)
    ensures "A" in nodes && "J" in nodes
  {
    var others := nodes - {"A"};
    WIsDue(g, others);
    assert "W" in others;
    LegIsDue(g, others, "A");
    LegIsDue(g, others, "B");
    assert "B" in others;
    JIsDue(g, others);
  }

  lemma AIsTracked(g: CompiledGraph)
    requires Plain(g)
    ensures Readers(g, "A") == {"J"} && Tracked(g, "A")
  {
    ReadersOfA(g);
    assert IsEdge("A", "success", "J");
    assert Targets(g, "A", "success") != [];
  }

  lemma AIsOvertaken(g: CompiledGraph)
    requires Readers(g, "A") == {"J"}
    requires forall nodes :: ClosedWithout(g, TakeB(), "A", nodes) ==> "A" in nodes && "J" in nodes
    ensures CanBeOvertaken(g, "A")
  {
    TakeBIsFollowable(g);
    OvertakenUnder(g, TakeB(), "A", "J");
  }

  lemma TakeBIsFollowable(g: CompiledGraph)
    ensures Followable(g, TakeB())
  {
  }

  /** "Evicted when no downstream node needs it" fails: in every compiled form of the definition A's
      output can stay although its only reader has completed. */
  lemma OutputCanLinger(w: Setup)
    requires Compile.Implements(w.g, BYPASS, Outputs) && Tracks(w) && !w.retain
    ensures CanLinger(w, "A")
  {
    CompiledIsPlain(w.g);
    AIsTracked(w.g);
    forall nodes | ClosedWithout(w.g, TakeB(), "A", nodes) ensures "A" in nodes && "J" in nodes { RunWithoutA(w.g, nodes); }
    AIsOvertaken(w.g);
    ValidAliasesDistinctKeys(w.g);
    LingersIff(w, "A");
  }
}
