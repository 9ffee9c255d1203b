/** Which workflows the search for circular calls (internal/config/crossrefs.go) reports about: each at most
    once, and those that it reported about are the ones it never finishes. */
module WorkflowReporters {
  import opened WorkflowGraph
  import opened CycleSearch
  import opened WorkflowCycles

  function Callers(reports: seq<Report>): set<NodeId> {
    set r | r in reports :: r.caller
  }

  ghost predicate OneEach(reports: seq<Report>) {
    forall i, j :: 0 <= i < j < |reports| ==> reports[i].caller != reports[j].caller
  }

  /** The grey workflows are those being searched and those already reported about, and nobody is both. */
  ghost predicate GrayExact(t: Tour, open: set<NodeId>) {
    && OneEach(t.reports) && open !! Callers(t.reports)
    && forall x :: IsGray(t, x) <==> x in open || x in Callers(t.reports)
  }

  lemma ReportCounted(t: Tour, r: Report, open: set<NodeId>, node: NodeId)
    requires GrayExact(t, open + {node}) && node !in open && r.caller == node
    ensures GrayExact(t.(reports := t.reports + [r]), open)
  {
    var t' := t.(reports := t.reports + [r]);
    assert Callers(t'.reports) == Callers(t.reports) + {node};
    forall i, j | 0 <= i < j < |t'.reports| ensures t'.reports[i].caller != t'.reports[j].caller {
      if j == |t.reports| { assert t.reports[i] in t.reports && t.reports[i].caller in Callers(t.reports); }
    }
  }

  lemma {:induction false} VisitExact(graph: Listing, node: NodeId, stack: seq<NodeId>, t: Tour, open: set<NodeId>)
    requires node in Universe(graph) && node !in t.color && t.color.Keys <= Universe(graph) && GrayExact(t, open)
    ensures GrayExact(Visit(graph, node, stack, t), open)
    decreases Universe(graph) - t.color.Keys, 0
  {
    var t1 := t.(color := t.color[node := Gray]);
    assert node in Universe(graph) - t.color.Keys;
    CalleesKnown(graph, node);
    assert !IsGray(t, node);
    forall x ensures IsGray(t1, x) <==> x in open + {node} || x in Callers(t1.reports) {
      assert IsGray(t, x) <==> x in open || x in Callers(t.reports);
    }
    FollowExact(graph, node, stack + [node], Callees(graph, node), t1, open);
    var (r, reported) := Follow(graph, node, stack + [node], Callees(graph, node), t1);
    if !reported { BlackExact(r, open, node); }
  }

  lemma BlackExact(r: Tour, open: set<NodeId>, node: NodeId)
    requires GrayExact(r, open + {node}) && node !in open
    ensures GrayExact(r.(color := r.color[node := Black]), open)
  {
    var r' := r.(color := r.color[node := Black]);
    forall x ensures IsGray(r', x) <==> x in open || x in Callers(r'.reports) {
      assert IsGray(r, x) <==> x in open + {node} || x in Callers(r.reports);
    }
  }

  lemma {:induction false} FollowExact(graph: Listing, node: NodeId, stack: seq<NodeId>, rest: seq<NodeId>, t: Tour, open: set<NodeId>)
    requires Elements(rest) <= Universe(graph) && t.color.Keys <= Universe(graph)
    requires GrayExact(t, open + {node}) && node !in open
    ensures var r := Follow(graph, node, stack, rest, t); GrayExact(r.0, if r.1 then open else open + {node})
    decreases Universe(graph) - t.color.Keys, 1 + |rest|
  {
    if rest != [] {
      var next := rest[0];
      assert next in Elements(rest) && Elements(rest[1..]) <= Elements(rest);
      if IsGray(t, next) {
        ReportCounted(t, Report(PathOf(graph, t.parent, node, next), node, next, stack), open, node);
      } else if next in t.color {
        FollowExact(graph, node, stack, rest[1..], t, open);
      } else {
        var t0 := t.(parent := t.parent[next := node]);
        forall x ensures IsGray(t0, x) <==> IsGray(t, x) {}
        VisitExact(graph, next, stack, t0, open + {node});
        var t1 := Visit(graph, next, stack, t0);
        assert next in Universe(graph) - t.color.Keys && next !in Universe(graph) - t1.color.Keys;
        FollowExact(graph, node, stack, rest[1..], t1, open);
      }
    }
  }

  lemma {:induction false} VisitAllExact(graph: Listing, roots: seq<NodeId>, t: Tour)
    requires Elements(roots) <= graph.Keys && t.color.Keys <= Universe(graph) && GrayExact(t, {})
    ensures GrayExact(VisitAll(graph, roots, t), {})
    decreases |roots|
  {
    if roots != [] {
      assert roots[0] in Elements(roots) && Elements(roots[1..]) <= Elements(roots);
      if roots[0] in t.color {
        VisitAllExact(graph, roots[1..], t);
      } else {
        VisitExact(graph, roots[0], [], t, {});
        VisitAllExact(graph, roots[1..], Visit(graph, roots[0], [], t));
      }
    }
  }

  /** Under every order of the workflows: each is the caller of at most one report, and the search finishes
      exactly those that are the caller of none. */
  lemma OneReportPerCaller(graph: Listing, roots: seq<NodeId>)
    requires IsOrder(graph, roots)
    ensures OneEach(Reports(graph, roots))
    ensures forall x :: x in graph ==>
      var t := VisitAll(graph, roots, EMPTY);
      x in t.color && (t.color[x] == Black <==> x !in Callers(Reports(graph, roots)))
  {
    VisitAllExact(graph, roots, EMPTY);
    var t := VisitAll(graph, roots, EMPTY);
    forall x | x in graph ensures x in t.color && (t.color[x] == Black <==> x !in Callers(Reports(graph, roots))) {
      assert x in Elements(roots);
      assert IsGray(t, x) <==> x in Callers(t.reports);
    }
  }
}
