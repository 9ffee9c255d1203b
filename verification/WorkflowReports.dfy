/** What the reports of `detectWorkflowCycles` (internal/config/crossrefs.go) are worth: when there
    are none, and which of them are cycles. */
module WorkflowReports {
  import opened Digraphs
  import opened WorkflowGraph
  import opened CycleSearch
  import opened WorkflowCycles

  // ---------------------------------------------------------------------------
  // Leading to a cycle

  ghost predicate OnCycle(graph: Listing, x: NodeId) {
    StrictlyReaches(Calls(graph), x, x)
  }

  /** Some chain of calls from `x` leads to a cycle. */
  ghost predicate Doomed(graph: Listing, x: NodeId) {
    exists y :: Reaches(Calls(graph), x, y) && OnCycle(graph, y)
  }

  lemma DoomedBack(graph: Listing, x: NodeId, s: NodeId)
    requires s in Succ(Calls(graph), x) && Doomed(graph, s)
    ensures Doomed(graph, x)
  {
    var y :| Reaches(Calls(graph), s, y) && OnCycle(graph, y);
    ReachesEdgeThen(Calls(graph), x, s, y);
  }

  lemma DoomedFrom(graph: Listing, x: NodeId, z: NodeId)
    requires Reaches(Calls(graph), x, z) && Doomed(graph, z)
    ensures Doomed(graph, x)
  {
    var y :| Reaches(Calls(graph), z, y) && OnCycle(graph, y);
    ReachesTransitive(Calls(graph), x, z, y);
  }

  /** A doomed workflow calls a doomed one. */
  lemma DoomedAhead(graph: Listing, x: NodeId) returns (s: NodeId)
    requires Doomed(graph, x)
    ensures s in Succ(Calls(graph), x) && Doomed(graph, s)
  {
    var g := Calls(graph);
    var y :| Reaches(g, x, y) && OnCycle(graph, y);
    var p :| PathFromTo(g, p, x, y);
    if |p| == 1 {
      s :| s in Succ(g, y) && Reaches(g, s, y);
    } else {
      s := p[1];
      assert PathFromTo(g, p[1..], s, y);
    }
  }

  lemma SafeCallees(graph: Listing, x: NodeId)
    requires forall s :: s in Callees(graph, x) ==> !Doomed(graph, s)
    ensures !Doomed(graph, x)
  {
    if Doomed(graph, x) {
      var s := DoomedAhead(graph, x);
      CalleesKnown(graph, x);
      assert false;
    }
  }

  /** A call back to a workflow that leads to the caller closes a cycle. */
  lemma ClosingCallDooms(graph: Listing, caller: NodeId, callee: NodeId)
    requires Reaches(Calls(graph), callee, caller) && callee in Succ(Calls(graph), caller)
    ensures OnCycle(graph, callee) && Doomed(graph, callee)
  {
    var g := Calls(graph);
    ReachesThenEdge(g, callee, caller, callee);
    ReachesSelf(g, callee);
    var p :| PathFromTo(g, p, callee, caller);
    if |p| == 1 {
      assert StrictlyReaches(g, callee, callee);
    } else {
      assert PathFromTo(g, p[1..], p[1], caller);
      ReachesThenEdge(g, p[1], caller, callee);
    }
  }

  // ---------------------------------------------------------------------------
  // The search stack

  ghost predicate OnStack(graph: Listing, t: Tour, stack: seq<NodeId>) {
    && (forall i :: 0 <= i < |stack| ==> IsGray(t, stack[i]))
    && (forall i, j :: 0 <= i < j < |stack| ==> stack[i] != stack[j])
    && StackLinked(Calls(graph), t.parent, stack)
    && (stack != [] ==> stack[0] !in t.parent)
  }

  /** Colours, parents and reports that were there stay. */
  ghost predicate Keeps(t: Tour, r: Tour) {
    && (forall x :: x in t.color ==> x in r.color && r.color[x] == t.color[x])
    && (forall x :: x in t.color ==> (x in r.parent <==> x in t.parent) && Up(r.parent, x) == Up(t.parent, x))
    && t.reports <= r.reports
  }

  lemma StackKept(graph: Listing, t: Tour, r: Tour, stack: seq<NodeId>)
    requires OnStack(graph, t, stack) && Keeps(t, r)
    ensures OnStack(graph, r, stack)
  {
    forall i | 0 <= i < |stack| ensures IsGray(r, stack[i]) { assert IsGray(t, stack[i]); }
    forall i | 1 <= i < |stack| ensures LinkedBelow(Calls(graph), r.parent, stack[i-1], stack[i]) {
      assert LinkedBelow(Calls(graph), t.parent, stack[i-1], stack[i]) && IsGray(t, stack[i]);
    }
    if stack != [] { assert IsGray(t, stack[0]); }
  }

  lemma StackReaches(graph: Listing, t: Tour, stack: seq<NodeId>, i: nat)
    requires OnStack(graph, t, stack) && i < |stack|
    ensures Reaches(Calls(graph), stack[i], stack[|stack|-1])
  {
    var p := stack[i..];
    forall k | 0 <= k < |p| - 1 ensures p[k+1] in Succ(Calls(graph), p[k]) {
      assert LinkedBelow(Calls(graph), t.parent, stack[i+k], stack[i+k+1]);
    }
    assert PathFromTo(Calls(graph), p, stack[i], stack[|stack|-1]);
  }

  lemma {:induction false} DistinctFit(stack: seq<NodeId>, keys: set<NodeId>)
    requires forall i :: 0 <= i < |stack| ==> stack[i] in keys
    requires forall i, j :: 0 <= i < j < |stack| ==> stack[i] != stack[j]
    ensures |stack| <= |keys|
    decreases |stack|
  {
    if stack != [] { DistinctFit(stack[1..], keys - {stack[0]}); }
  }

  /** Everything on the stack calls something, so it is a key of the graph. */
  lemma StackFits(graph: Listing, t: Tour, stack: seq<NodeId>, callee: NodeId)
    requires OnStack(graph, t, stack) && stack != [] && callee in Succ(Calls(graph), stack[|stack|-1])
    ensures |stack| <= |graph|
  {
    forall i | 0 <= i < |stack| ensures stack[i] in graph.Keys {
      if i + 1 < |stack| { assert LinkedBelow(Calls(graph), t.parent, stack[i], stack[i+1]); }
    }
    DistinctFit(stack, graph.Keys);
  }

  // ---------------------------------------------------------------------------
  // One report

  lemma ClimbUp(graph: Listing, t: Tour, stack: seq<NodeId>, a: nat)
    requires OnStack(graph, t, stack) && 0 < a < |stack|
    ensures Up(t.parent, stack[a]) == stack[a-1]
  {
    assert LinkedBelow(Calls(graph), t.parent, stack[a-1], stack[a]);
  }

  lemma {:induction false} ClimbFinds(graph: Listing, t: Tour, stack: seq<NodeId>, a: nat, k: nat, left: nat)
    requires OnStack(graph, t, stack) && k <= a < |stack| && a - k <= left
    ensures var c := Climb(t.parent, stack[a], stack[k], left);
      |c| == a - k + 1 && forall m :: 0 <= m < |c| ==> c[m] == stack[a-m]
    decreases a
  {
    if k < a {
      ClimbUp(graph, t, stack, a);
      ClimbFinds(graph, t, stack, a - 1, k, left - 1);
    }
  }

  /** A target that is not on the stack is missed, and the climb goes on past the root. */
  lemma {:induction false} ClimbMisses(graph: Listing, t: Tour, stack: seq<NodeId>, a: nat, target: NodeId, left: nat)
    requires OnStack(graph, t, stack) && a < |stack| && a < left && target !in stack
    ensures var c := Climb(t.parent, stack[a], target, left);
      |c| >= a + 2 && c[a] == stack[0] && c[a+1] == ""
    decreases a
  {
    assert stack[a] != target;
    if a > 0 {
      ClimbUp(graph, t, stack, a);
      ClimbMisses(graph, t, stack, a - 1, target, left - 1);
    } else {
      assert Climb(t.parent, Up(t.parent, stack[0]), target, left - 1)[0] == "";
    }
  }

  lemma PathOnStack(graph: Listing, t: Tour, stack: seq<NodeId>, callee: NodeId)
    requires OnStack(graph, t, stack) && callee in stack && callee in Succ(Calls(graph), stack[|stack|-1])
    ensures IsCycle(Calls(graph), PathOf(graph, t.parent, stack[|stack|-1], callee))
  {
    var a := |stack| - 1;
    var k :| 0 <= k < |stack| && stack[k] == callee;
    StackFits(graph, t, stack, callee);
    ClimbFinds(graph, t, stack, a, k, |graph| + 1);
    var path := [callee] + Climb(t.parent, stack[a], callee, |graph| + 1);
    ReversedIsCycle(Calls(graph), t.parent, stack[a], callee, stack, path);
  }

  /** Off the stack the list contains "" just before the root, and the empty string calls nothing. */
  lemma PathOffStack(graph: Listing, t: Tour, stack: seq<NodeId>, callee: NodeId)
    requires "" !in graph && stack != []
    requires OnStack(graph, t, stack) && callee !in stack && callee in Succ(Calls(graph), stack[|stack|-1])
    ensures !IsCycle(Calls(graph), PathOf(graph, t.parent, stack[|stack|-1], callee))
  {
    var a := |stack| - 1;
    StackFits(graph, t, stack, callee);
    ClimbMisses(graph, t, stack, a, callee, |graph| + 1);
    var path := [callee] + Climb(t.parent, stack[a], callee, |graph| + 1);
    var cycle := Reverse(path);
    var i := |path| - 1 - (a + 2);
    assert cycle[i] == path[a+2] == "" && cycle[i+1] == path[a+1] == stack[0];
    assert Succ(Calls(graph), "") == {};
  }

  /** What is true of every report: its callee leads to a cycle, and its list is a cycle if and only
      if the callee was on the search stack. That the empty string is no key is what the caller
      makes sure of (internal/config/crossrefs.go:201). */
  ghost predicate Judged(graph: Listing, r: Report) {
    && r.stack != [] && r.stack[|r.stack|-1] == r.caller && r.callee in Succ(Calls(graph), r.caller)
    && Doomed(graph, r.callee)
    && (r.callee in r.stack ==> IsCycle(Calls(graph), r.path))
    && ("" !in graph && r.callee !in r.stack ==> !IsCycle(Calls(graph), r.path))
  }

  lemma ReportJudged(graph: Listing, t: Tour, stack: seq<NodeId>, callee: NodeId)
    requires OnStack(graph, t, stack) && stack != [] && callee in Succ(Calls(graph), stack[|stack|-1])
    requires callee in stack || Doomed(graph, callee)
    ensures var caller := stack[|stack|-1];
      Judged(graph, Report(PathOf(graph, t.parent, caller, callee), caller, callee, stack))
  {
    if callee in stack {
      var k :| 0 <= k < |stack| && stack[k] == callee;
      StackReaches(graph, t, stack, k);
      ClosingCallDooms(graph, stack[|stack|-1], callee);
      PathOnStack(graph, t, stack, callee);
    } else if "" !in graph {
      PathOffStack(graph, t, stack, callee);
    }
  }

  // ---------------------------------------------------------------------------
  // What the search keeps

  /** A grey workflow that is not on the stack was left behind by a report and leads to a cycle. */
  ghost predicate StaleDoomed(graph: Listing, t: Tour, stack: seq<NodeId>) {
    forall x :: IsGray(t, x) && x !in stack ==> Doomed(graph, x)
  }

  /** Before the first report everything grey is on the stack and nothing black leads to a cycle. */
  ghost predicate FreshSearch(graph: Listing, t: Tour, stack: seq<NodeId>) {
    && (t.reports == [] ==> forall x :: IsGray(t, x) ==> x in stack)
    && (t.reports == [] ==> forall x :: x in t.color && !IsGray(t, x) ==> !Doomed(graph, x))
    && (t.reports != [] ==> t.reports[0].callee in t.reports[0].stack)
  }

  ghost predicate AllJudged(graph: Listing, t: Tour) {
    forall r :: r in t.reports ==> Judged(graph, r)
  }

  ghost predicate Inv(graph: Listing, t: Tour, stack: seq<NodeId>) {
    && t.color.Keys <= Universe(graph)
    && OnStack(graph, t, stack) && StaleDoomed(graph, t, stack)
    && FreshSearch(graph, t, stack) && AllJudged(graph, t)
  }

  /** Only coloured workflows, and perhaps the one about to be visited, have a parent. */
  ghost predicate Parented(t: Tour, about: set<NodeId>) {
    t.parent.Keys <= t.color.Keys + about
  }

  /** `node` may be pushed: it is called by the top of the stack, or the stack is empty. */
  ghost predicate Pushable(graph: Listing, t: Tour, stack: seq<NodeId>, node: NodeId) {
    && node in Universe(graph) && node !in t.color
    && (if stack == [] then node !in t.parent else LinkedBelow(Calls(graph), t.parent, stack[|stack|-1], node))
  }

  ghost function Pushed(t: Tour, node: NodeId): Tour {
    t.(color := t.color[node := Gray])
  }

  ghost function Linked(t: Tour, node: NodeId, next: NodeId): Tour {
    t.(parent := t.parent[next := node])
  }

  lemma PushInv(graph: Listing, t: Tour, stack: seq<NodeId>, node: NodeId)
    requires Inv(graph, t, stack) && Pushable(graph, t, stack, node)
    ensures Inv(graph, Pushed(t, node), stack + [node])
  {
    var t', stack' := Pushed(t, node), stack + [node];
    forall i | 0 <= i < |stack'| ensures IsGray(t', stack'[i]) {
      if i < |stack| { assert IsGray(t, stack[i]); }
    }
    forall i, j | 0 <= i < j < |stack'| ensures stack'[i] != stack'[j] {
      assert IsGray(t, stack[i]);
    }
    forall i | 1 <= i < |stack'| ensures LinkedBelow(Calls(graph), t'.parent, stack'[i-1], stack'[i]) {
      if i < |stack| { assert LinkedBelow(Calls(graph), t.parent, stack[i-1], stack[i]); }
    }
    forall x | IsGray(t', x) && x !in stack' ensures Doomed(graph, x) {
      assert node in stack';
      assert IsGray(t, x) && x !in stack;
    }
    assert t'.reports == [] ==> forall x :: IsGray(t', x) ==> x == node || IsGray(t, x);
  }

  lemma LinkInv(graph: Listing, t: Tour, stack: seq<NodeId>, node: NodeId, next: NodeId)
    requires Inv(graph, t, stack) && stack != [] && stack[|stack|-1] == node && Parented(t, {})
    requires next in Succ(Calls(graph), node) && next !in t.color && next in Universe(graph)
    ensures Inv(graph, Linked(t, node, next), stack) && Pushable(graph, Linked(t, node, next), stack, next)
    ensures Keeps(t, Linked(t, node, next)) && Parented(Linked(t, node, next), {next})
  {
    var t' := Linked(t, node, next);
    StackKept(graph, t, t', stack);
    assert forall x :: IsGray(t', x) <==> IsGray(t, x);
  }

  /** The step that reports. */
  lemma ReportInv(graph: Listing, t: Tour, stack: seq<NodeId>, callee: NodeId, t': Tour)
    requires Inv(graph, t, stack) && stack != [] && IsGray(t, callee)
    requires callee in Succ(Calls(graph), stack[|stack|-1])
    requires var caller := stack[|stack|-1];
      t' == t.(reports := t.reports + [Report(PathOf(graph, t.parent, caller, callee), caller, callee, stack)])
    ensures Inv(graph, t', stack) && Keeps(t, t')
    ensures Doomed(graph, stack[|stack|-1])
  {
    ReportJudged(graph, t, stack, callee);
    DoomedBack(graph, stack[|stack|-1], callee);
    StackKept(graph, t, t', stack);
    assert forall x :: IsGray(t', x) <==> IsGray(t, x);
  }

  lemma PoppedStack(graph: Listing, t: Tour, stack: seq<NodeId>, node: NodeId)
    requires OnStack(graph, t, stack + [node])
    ensures OnStack(graph, t, stack) && node !in stack
  {
    var full := stack + [node];
    assert full[|stack|] == node;
    forall i | 0 <= i < |stack| ensures IsGray(t, stack[i]) && stack[i] != node { assert full[i] == stack[i]; }
    forall i, j | 0 <= i < j < |stack| ensures stack[i] != stack[j] { assert full[i] == stack[i] && full[j] == stack[j]; }
    forall i | 1 <= i < |stack| ensures LinkedBelow(Calls(graph), t.parent, stack[i-1], stack[i]) {
      assert LinkedBelow(Calls(graph), t.parent, full[i-1], full[i]);
    }
  }

  /** A workflow that reported leaves the stack grey. */
  lemma StaleInv(graph: Listing, t: Tour, stack: seq<NodeId>, node: NodeId)
    requires Inv(graph, t, stack + [node]) && t.reports != [] && Doomed(graph, node)
    ensures Inv(graph, t, stack)
  {
    PoppedStack(graph, t, stack, node);
    forall x | IsGray(t, x) && x !in stack ensures Doomed(graph, x) {
      if x != node { assert x !in stack + [node]; }
    }
  }

  /** One that did not leaves it black. */
  lemma BlackInv(graph: Listing, t: Tour, stack: seq<NodeId>, node: NodeId)
    requires Inv(graph, t, stack + [node]) && (t.reports == [] ==> !Doomed(graph, node))
    ensures Inv(graph, t.(color := t.color[node := Black]), stack)
  {
    var t' := t.(color := t.color[node := Black]);
    PoppedStack(graph, t, stack, node);
    assert (stack + [node])[|stack|] == node && IsGray(t, node);
    forall i | 0 <= i < |stack| ensures IsGray(t', stack[i]) { assert IsGray(t, stack[i]); }
    forall x | IsGray(t', x) ensures IsGray(t, x) && x != node {}
    forall x | IsGray(t', x) && x !in stack ensures Doomed(graph, x) { assert x !in stack + [node]; }
    if t.reports == [] {
      forall x | IsGray(t', x) ensures x in stack { assert x in stack + [node]; }
    }
  }

  lemma KeepsTransitive(t: Tour, m: Tour, r: Tour)
    requires Keeps(t, m) && Keeps(m, r)
    ensures Keeps(t, r)
  {
  }

  lemma {:induction false} VisitInv(graph: Listing, node: NodeId, stack: seq<NodeId>, t: Tour)
    requires Inv(graph, t, stack) && Pushable(graph, t, stack, node) && Parented(t, {node})
    ensures var r := Visit(graph, node, stack, t);
      Inv(graph, r, stack) && Keeps(t, r) && Parented(r, {}) && (r.reports == [] ==> !Doomed(graph, node))
    decreases Universe(graph) - t.color.Keys, 0
  {
    var t1 := Pushed(t, node);
    CalleesKnown(graph, node);
    PushInv(graph, t, stack, node);
    assert node in Universe(graph) - t.color.Keys && node !in Universe(graph) - t1.color.Keys;
    FollowInv(graph, node, stack + [node], Callees(graph, node), t1);
    var (r, reported) := Follow(graph, node, stack + [node], Callees(graph, node), t1);
    if reported {
      StaleInv(graph, r, stack, node);
    } else {
      if r.reports == [] { SafeCallees(graph, node); }
      BlackInv(graph, r, stack, node);
    }
  }

  lemma {:induction false} FollowInv(graph: Listing, node: NodeId, stack: seq<NodeId>, rest: seq<NodeId>, t: Tour)
    requires Inv(graph, t, stack) && stack != [] && stack[|stack|-1] == node && Parented(t, {})
    requires Elements(rest) <= Succ(Calls(graph), node) && Elements(rest) <= Universe(graph)
    ensures var (r, reported) := Follow(graph, node, stack, rest, t);
      && Inv(graph, r, stack) && Keeps(t, r) && Parented(r, {})
      && (reported ==> r.reports != [] && Doomed(graph, node))
      && (!reported && r.reports == [] ==> forall x :: x in rest ==> !Doomed(graph, x))
    decreases Universe(graph) - t.color.Keys, 1 + |rest|
  {
    if rest != [] {
      var next := rest[0];
      assert next in Elements(rest) && Elements(rest[1..]) <= Elements(rest);
      if IsGray(t, next) {
        ReportInv(graph, t, stack, next, Follow(graph, node, stack, rest, t).0);
      } else if next in t.color {
        FollowInv(graph, node, stack, rest[1..], t);
      } else {
        var t1 := Linked(t, node, next);
        LinkInv(graph, t, stack, node, next);
        VisitInv(graph, next, stack, t1);
        var t2 := Visit(graph, next, stack, t1);
        KeepsTransitive(t, t1, t2);
        assert next in Universe(graph) - t.color.Keys && next !in Universe(graph) - t2.color.Keys;
        FollowInv(graph, node, stack, rest[1..], t2);
        KeepsTransitive(t, t2, Follow(graph, node, stack, rest[1..], t2).0);
      }
    }
  }

  /** Between two workflows of the outer loop the stack is empty. */
  lemma {:induction false} VisitAllInv(graph: Listing, roots: seq<NodeId>, t: Tour)
    requires Elements(roots) <= graph.Keys && Inv(graph, t, []) && Parented(t, {})
    ensures var r := VisitAll(graph, roots, t); Inv(graph, r, []) && Parented(r, {})
  {
    if roots != [] {
      assert roots[0] in Elements(roots) && Elements(roots[1..]) <= Elements(roots);
      if roots[0] in t.color {
        VisitAllInv(graph, roots[1..], t);
      } else {
        VisitInv(graph, roots[0], [], t);
        VisitAllInv(graph, roots[1..], Visit(graph, roots[0], [], t));
      }
    }
  }

  // ---------------------------------------------------------------------------
  // All reports

  lemma ReportsInv(graph: Listing, roots: seq<NodeId>)
    requires Elements(roots) <= graph.Keys
    ensures Inv(graph, VisitAll(graph, roots, EMPTY), [])
  {
    VisitAllInv(graph, roots, EMPTY);
  }

  /** Whatever the order, nothing is reported if and only if no workflow calls itself through any
      chain of calls; and the first report is a cycle. */
  lemma ReportsExactly(graph: Listing, roots: seq<NodeId>)
    requires IsOrder(graph, roots)
    ensures Reports(graph, roots) == [] <==> Acyclic(Calls(graph))
    ensures Reports(graph, roots) != [] ==> IsCycle(Calls(graph), Reports(graph, roots)[0].path)
  {
    ReportsInv(graph, roots);
    var r := VisitAll(graph, roots, EMPTY);
    if r.reports == [] {
      forall u ensures !StrictlyReaches(Calls(graph), u, u) {
        if OnCycle(graph, u) {
          ReachesSelf(Calls(graph), u);
          assert u in r.color && !IsGray(r, u) && Doomed(graph, u);
        }
      }
    } else {
      assert Judged(graph, r.reports[0]);
      var y :| Reaches(Calls(graph), r.reports[0].callee, y) && OnCycle(graph, y);
    }
  }

  /** Every report, under every order: its callee leads to a cycle, and its list is a cycle if and
      only if the callee was on the search stack. */
  lemma CycleIffOnStack(graph: Listing, roots: seq<NodeId>, r: Report)
    requires "" !in graph && Elements(roots) <= graph.Keys && r in Reports(graph, roots)
    ensures Doomed(graph, r.callee) && r.callee in Succ(Calls(graph), r.caller)
    ensures IsCycle(Calls(graph), r.path) <==> r.callee in r.stack
  {
    ReportsInv(graph, roots);
    assert Judged(graph, r);
  }

  /** The reports for the given order of workflows: none if and only if no workflow calls itself
      through any chain; the callee of each leads to a cycle; and each is a cycle if and only if its
      callee was on the search stack, as the first one's always is. */
  method DetectWorkflowCycles(graph: Listing, roots: seq<NodeId>) returns (reports: seq<Report>)
    requires IsOrder(graph, roots)
    ensures reports == Reports(graph, roots)
    ensures reports == [] <==> Acyclic(Calls(graph))
    ensures forall r :: r in reports ==> Judged(graph, r)
    ensures reports != [] ==> IsCycle(Calls(graph), reports[0].path)
  {
    var d := new WorkflowCycles.Detector(graph);
    for i := 0 to |roots|
      invariant d.graph == graph && d.color.Keys <= Universe(graph)
      invariant Elements(roots[i..]) <= graph.Keys
      invariant VisitAll(graph, roots[i..], d.State()) == VisitAll(graph, roots, EMPTY)
    {
      assert roots[i..][0] == roots[i] && roots[i..][1..] == roots[i+1..] && roots[i] in Elements(roots[i..]);
      assert Elements(roots[i+1..]) <= Elements(roots[i..]);
      if roots[i] !in d.color { d.Search(roots[i], []); }
    }
    reports := d.reports;
    ReportsExactly(graph, roots);
    ReportsInv(graph, roots);
  }
}
