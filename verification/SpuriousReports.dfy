/** Reports of `detectWorkflowCycles` (internal/config/crossrefs.go) that are no cycles: an example,
    a condition on the calls under which there are none, and one under which there are some. */
module SpuriousReports {
  import opened Common
  import opened Digraphs
  import opened WorkflowGraph
  import opened CycleSearch
  import opened WorkflowCycles
  import opened WorkflowReports

  ghost predicate Spurious(r: Report) {
    r.callee !in r.stack
  }

  ghost predicate HasSpurious(t: Tour) {
    exists r :: r in t.reports && Spurious(r)
  }

  // ---------------------------------------------------------------------------
  // An example

  /** A calls itself, and B calls A. */
  const CALLER_OF_LOOP: Listing := map["A" := ["A"], "B" := ["A"]]

  const AFTER_A := Tour(map["A" := Gray], map[], [Report(["A", "A"], "A", "A", ["A"])])

  lemma VisitA()
    ensures "A" in Universe(CALLER_OF_LOOP)
    ensures Visit(CALLER_OF_LOOP, "A", [], EMPTY) == AFTER_A
  {
    var t1 := Tour(map["A" := Gray], map[], []);
    assert Callees(CALLER_OF_LOOP, "A") == ["A"];
    assert [] + ["A"] == ["A"];
    assert Climb(map[], "A", "A", 3) == ["A"];
    assert PathOf(CALLER_OF_LOOP, map[], "A", "A") == ["A", "A"];
    var r := Report(["A", "A"], "A", "A", ["A"]);
    assert [] + [r] == [r];
    assert Follow(CALLER_OF_LOOP, "A", ["A"], ["A"], t1) == (AFTER_A, true);
  }

  lemma PathFromB()
    ensures PathOf(CALLER_OF_LOOP, map[], "B", "A") == ["", "", "", "B", "A"]
  {
    var none: map<NodeId, NodeId> := map[];
    assert |CALLER_OF_LOOP| == 2;
    assert Climb(none, "", "A", 0) == [""];
    assert Climb(none, "", "A", 1) == ["", ""];
    assert Climb(none, "", "A", 2) == ["", "", ""];
    assert Climb(none, "B", "A", 3) == ["B", "", "", ""];
    assert ["A"] + ["B", "", "", ""] == ["A", "B", "", "", ""];
  }

  lemma VisitB()
    ensures "B" in Universe(CALLER_OF_LOOP) && AFTER_A.color.Keys <= Universe(CALLER_OF_LOOP)
    ensures Visit(CALLER_OF_LOOP, "B", [], AFTER_A).reports
         == [Report(["A", "A"], "A", "A", ["A"]), Report(["", "", "", "B", "A"], "B", "A", ["B"])]
  {
    var t1 := AFTER_A.(color := AFTER_A.color["B" := Gray]);
    assert Callees(CALLER_OF_LOOP, "B") == ["A"] && [] + ["B"] == ["B"];
    PathFromB();
    assert "A" in CALLER_OF_LOOP["B"];
    assert Follow(CALLER_OF_LOOP, "B", ["B"], ["A"], t1).1;
  }

  lemma BIsOnNoCycle()
    ensures !OnCycle(CALLER_OF_LOOP, "B")
  {
    var g := Calls(CALLER_OF_LOOP);
    assert Succ(g, "A") == {"A"} && Succ(g, "B") == {"A"};
    forall w | w in Succ(g, "B") ensures !Reaches(g, w, "B") {
      if Reaches(g, w, "B") { ClosedHoldsReachable(g, {"A"}, w, "B"); }
    }
  }

  lemma EmptyCallsNothing(path: seq<NodeId>)
    requires |path| >= 2 && path[0] == ""
    ensures !IsCycle(Calls(CALLER_OF_LOOP), path)
  {
    assert IsCycle(Calls(CALLER_OF_LOOP), path) ==> path[0+1] in Succ(Calls(CALLER_OF_LOOP), path[0]);
  }

  lemma TwoReports()
    ensures IsOrder(CALLER_OF_LOOP, ["A", "B"])
    ensures Reports(CALLER_OF_LOOP, ["A", "B"])
         == [Report(["A", "A"], "A", "A", ["A"]), Report(["", "", "", "B", "A"], "B", "A", ["B"])]
  {
    VisitA();
    VisitB();
    var last := Visit(CALLER_OF_LOOP, "B", [], AFTER_A);
    assert Elements(["B"]) <= CALLER_OF_LOOP.Keys && ["B"][1..] == [] && ["A", "B"][1..] == ["B"];
    assert VisitAll(CALLER_OF_LOOP, [], last) == last;
    assert VisitAll(CALLER_OF_LOOP, ["B"], AFTER_A) == last;
  }

  /** "Errors for each cycle found" fails: the second report lists no cycle, and its caller is on
      none. */
  lemma ReportCanBeSpurious()
    ensures IsOrder(CALLER_OF_LOOP, ["A", "B"])
    ensures var rs := Reports(CALLER_OF_LOOP, ["A", "B"]);
      |rs| == 2 && rs[1].path == ["", "", "", "B", "A"] && !IsCycle(Calls(CALLER_OF_LOOP), rs[1].path)
    ensures !OnCycle(CALLER_OF_LOOP, "B")
  {
    TwoReports();
    EmptyCallsNothing(["", "", "", "B", "A"]);
    BIsOnNoCycle();
  }

  // ---------------------------------------------------------------------------
  // Who is newly coloured

  /** Coloured by the search between `t` and `r`. */
  ghost predicate New(t: Tour, r: Tour, x: NodeId) {
    x in r.color && x !in t.color
  }

  ghost predicate CalledByNew(graph: Listing, t: Tour, r: Tour, x: NodeId) {
    exists y :: New(t, r, y) && x in Succ(Calls(graph), y)
  }

  /** Whatever a visit colours is called by something it colours, except for its own workflow. */
  lemma {:induction false} VisitNew(graph: Listing, node: NodeId, stack: seq<NodeId>, t: Tour, r: Tour)
    requires node in Universe(graph) && node !in t.color && t.color.Keys <= Universe(graph)
    requires r == Visit(graph, node, stack, t)
    ensures forall x :: New(t, r, x) && x != node ==> CalledByNew(graph, t, r, x)
    decreases Universe(graph) - t.color.Keys, 0
  {
    var t1 := Pushed(t, node);
    CalleesKnown(graph, node);
    assert node in Universe(graph) - t.color.Keys && node !in Universe(graph) - t1.color.Keys;
    var r1 := Follow(graph, node, stack + [node], Callees(graph, node), t1).0;
    FollowNew(graph, node, stack + [node], Callees(graph, node), t1, r1);
    assert r.color.Keys == r1.color.Keys;
    forall x | New(t, r, x) && x != node ensures CalledByNew(graph, t, r, x) {
      assert New(t1, r1, x);
      if CalledByNew(graph, t1, r1, x) {
        var y :| New(t1, r1, y) && x in Succ(Calls(graph), y);
        assert New(t, r, y);
      } else {
        assert x in Elements(Callees(graph, node)) && New(t, r, node);
      }
    }
  }

  lemma {:induction false} FollowNew(graph: Listing, node: NodeId, stack: seq<NodeId>, rest: seq<NodeId>, t: Tour, r: Tour)
    requires Elements(rest) <= Universe(graph) && t.color.Keys <= Universe(graph)
    requires r == Follow(graph, node, stack, rest, t).0
    ensures forall x :: New(t, r, x) ==> x in rest || CalledByNew(graph, t, r, x)
    decreases Universe(graph) - t.color.Keys, 1 + |rest|
  {
    if rest != [] && !IsGray(t, rest[0]) {
      var next := rest[0];
      assert next in Elements(rest) && Elements(rest[1..]) <= Elements(rest);
      if next in t.color {
        FollowNew(graph, node, stack, rest[1..], t, r);
      } else {
        var t1 := Linked(t, node, next);
        var t2 := Visit(graph, next, stack, t1);
        VisitNew(graph, next, stack, t1, t2);
        assert next in Universe(graph) - t.color.Keys && next !in Universe(graph) - t2.color.Keys;
        FollowNew(graph, node, stack, rest[1..], t2, r);
        forall x | New(t, r, x) ensures x in rest || CalledByNew(graph, t, r, x) {
          if x in t2.color && x != next {
            assert New(t1, t2, x) && CalledByNew(graph, t1, t2, x);
            var y :| New(t1, t2, y) && x in Succ(Calls(graph), y);
            assert New(t, r, y);
          } else if x !in t2.color && x !in rest[1..] {
            var y :| New(t2, r, y) && x in Succ(Calls(graph), y);
            assert New(t, r, y);
          }
        }
      }
    }
  }

  // ---------------------------------------------------------------------------
  // No spurious reports

  ghost predicate Slot(graph: Listing, u: NodeId, i: nat, v: NodeId) {
    u in graph && i < |graph[u]| && graph[u][i] == v
  }

  /** Every workflow on a cycle is called once, in all lists together. */
  ghost predicate CyclesCalledOnce(graph: Listing) {
    forall v, u, i, u', i' :: OnCycle(graph, v) && Slot(graph, u, i, v) && Slot(graph, u', i', v) ==> u == u' && i == i'
  }

  lemma OneCaller(graph: Listing, v: NodeId, u: NodeId, u': NodeId)
    requires CyclesCalledOnce(graph) && OnCycle(graph, v)
    requires v in Succ(Calls(graph), u) && v in Succ(Calls(graph), u')
    ensures u == u'
  {
    var i :| 0 <= i < |graph[u]| && graph[u][i] == v;
    var i' :| 0 <= i' < |graph[u']| && graph[u'][i'] == v;
    assert Slot(graph, u, i, v) && Slot(graph, u', i', v);
  }

  /** The caller of a workflow on a cycle is on a cycle. */
  lemma CallerOnCycle(graph: Listing, u: NodeId, v: NodeId)
    requires CyclesCalledOnce(graph) && OnCycle(graph, v) && v in Succ(Calls(graph), u)
    ensures OnCycle(graph, u)
  {
    var g := Calls(graph);
    var w :| w in Succ(g, v) && Reaches(g, w, v);
    var p :| PathFromTo(g, p, w, v);
    var q := [v] + p;
    var last := q[|q|-2];
    assert v in Succ(g, last);
    OneCaller(graph, v, u, last);
    assert PathFromTo(g, q[..|q|-1], v, u);
    assert StrictlyReaches(g, u, u);
  }

  lemma {:induction false} DoomedOnCycle(graph: Listing, p: seq<NodeId>)
    requires CyclesCalledOnce(graph) && IsPath(Calls(graph), p) && OnCycle(graph, p[|p|-1])
    ensures OnCycle(graph, p[0])
    decreases |p|
  {
    if |p| > 1 {
      CallerOnCycle(graph, p[|p|-2], p[|p|-1]);
      DoomedOnCycle(graph, p[..|p|-1]);
    }
  }

  lemma StaleOnCycle(graph: Listing, x: NodeId)
    requires CyclesCalledOnce(graph) && Doomed(graph, x)
    ensures OnCycle(graph, x)
  {
    var y :| Reaches(Calls(graph), x, y) && OnCycle(graph, y);
    var p :| PathFromTo(Calls(graph), p, x, y);
    DoomedOnCycle(graph, p);
  }

  ghost predicate Stale(t: Tour, stack: seq<NodeId>, x: NodeId) {
    IsGray(t, x) && x !in stack
  }

  /** The only call to a workflow left behind grey has been made. */
  ghost predicate Spent(graph: Listing, t: Tour, stack: seq<NodeId>) {
    forall x :: Stale(t, stack, x) ==> CalledByColored(graph, t, x)
  }

  ghost predicate CalledByColored(graph: Listing, t: Tour, x: NodeId) {
    exists u :: u in t.color && x in Succ(Calls(graph), u)
  }

  ghost predicate NoneSpurious(t: Tour) {
    forall r :: r in t.reports ==> !Spurious(r)
  }

  ghost predicate Sound(graph: Listing, t: Tour, stack: seq<NodeId>) {
    Inv(graph, t, stack) && Spent(graph, t, stack) && NoneSpurious(t)
  }

  /** A white workflow calls nothing that was left behind. */
  lemma WhiteCallsNoStale(graph: Listing, t: Tour, stack: seq<NodeId>, node: NodeId, x: NodeId)
    requires CyclesCalledOnce(graph) && Inv(graph, t, stack) && Spent(graph, t, stack)
    requires node !in t.color && Stale(t, stack, x)
    ensures x !in Callees(graph, node)
  {
    StaleOnCycle(graph, x);
    var u :| u in t.color && x in Succ(Calls(graph), u);
    CalleesKnown(graph, node);
    if x in Callees(graph, node) { OneCaller(graph, x, u, node); }
  }

  /** After a visit from slot `n` of `node`, nothing left behind is called by a later slot. */
  lemma NoStaleLater(graph: Listing, node: NodeId, n: nat, stack: seq<NodeId>, t: Tour, r: Tour, x: NodeId)
    requires CyclesCalledOnce(graph) && node in t.color && n < |Callees(graph, node)|
    requires Doomed(graph, x) && Stale(r, stack, x) && Keeps(t, r)
    requires forall y :: Stale(t, stack, y) ==> y !in Callees(graph, node)[n..]
    requires forall y :: New(t, r, y) && y != Callees(graph, node)[n] ==> CalledByNew(graph, t, r, y)
    ensures x !in Callees(graph, node)[n+1..]
  {
    var calls := Callees(graph, node);
    StaleOnCycle(graph, x);
    if x in t.color {
      assert Stale(t, stack, x);
      LaterSlots(calls, n, x);
    } else if x == calls[n] {
      SlotUsed(graph, node, n, x);
    } else {
      assert New(t, r, x);
      var y :| New(t, r, y) && x in Succ(Calls(graph), y);
      NotCalledBy(graph, node, y, x);
      LaterSlots(calls, n, x);
      LaterSlots(calls, 0, x);
    }
  }

  lemma LaterSlots(calls: seq<NodeId>, n: nat, x: NodeId)
    requires n < |calls|
    ensures x in calls[n+1..] ==> x in calls[n..]
    ensures x in calls[n..] ==> x in calls
  {
    if x in calls[n+1..] {
      var k :| 0 <= k < |calls[n+1..]| && calls[n+1..][k] == x;
      assert calls[n..][k+1] == x;
    }
  }

  lemma SlotUsed(graph: Listing, node: NodeId, n: nat, x: NodeId)
    requires CyclesCalledOnce(graph) && OnCycle(graph, x) && Slot(graph, node, n, x)
    ensures x !in Callees(graph, node)[n+1..]
  {
    var later := Callees(graph, node)[n+1..];
    forall k | 0 <= k < |later| ensures later[k] != x {
      assert Slot(graph, node, n + 1 + k, later[k]);
    }
  }

  lemma NotCalledBy(graph: Listing, node: NodeId, y: NodeId, x: NodeId)
    requires CyclesCalledOnce(graph) && OnCycle(graph, x) && x in Succ(Calls(graph), y) && y != node
    ensures x !in Callees(graph, node)
  {
    CalleesKnown(graph, node);
    if x in Elements(Callees(graph, node)) { OneCaller(graph, x, node, y); }
  }

  /** A workflow that is pushed calls nothing that was left behind. */
  lemma EnterSound(graph: Listing, node: NodeId, stack: seq<NodeId>, t: Tour)
    requires CyclesCalledOnce(graph) && Sound(graph, t, stack) && Pushable(graph, t, stack, node)
    ensures Sound(graph, Pushed(t, node), stack + [node])
    ensures forall x :: Stale(Pushed(t, node), stack + [node], x) ==> x !in Callees(graph, node)
  {
    var t1, stack1 := Pushed(t, node), stack + [node];
    PushInv(graph, t, stack, node);
    forall x | Stale(t1, stack1, x) ensures CalledByColored(graph, t1, x) && x !in Callees(graph, node) {
      assert node in stack1;
      assert Stale(t, stack, x);
      var u :| u in t.color && x in Succ(Calls(graph), u);
      assert u in t1.color;
      WhiteCallsNoStale(graph, t, stack, node, x);
    }
  }

  lemma {:induction false} VisitSound(graph: Listing, node: NodeId, stack: seq<NodeId>, t: Tour)
    requires CyclesCalledOnce(graph) && Sound(graph, t, stack) && Pushable(graph, t, stack, node) && Parented(t, {node})
    ensures Sound(graph, Visit(graph, node, stack, t), stack)
    decreases Universe(graph) - t.color.Keys, 0
  {
    var t1 := Pushed(t, node);
    CalleesKnown(graph, node);
    EnterSound(graph, node, stack, t);
    assert node in Universe(graph) - t.color.Keys && node !in Universe(graph) - t1.color.Keys;
    assert Callees(graph, node)[0..] == Callees(graph, node);
    FollowSound(graph, node, 0, stack + [node], t1);
    FollowInv(graph, node, stack + [node], Callees(graph, node), t1);
    SettleSpent(graph, node, stack, t, t1);
    VisitInv(graph, node, stack, t);
  }

  /** When a visit is over, its own workflow may have been left behind; its call has been made. */
  lemma SettleSpent(graph: Listing, node: NodeId, stack: seq<NodeId>, t: Tour, t1: Tour)
    requires Inv(graph, t, stack) && Pushable(graph, t, stack, node) && t1 == Pushed(t, node)
    requires Elements(Callees(graph, node)) <= Universe(graph) && Keeps(t1, Follow(graph, node, stack + [node], Callees(graph, node), t1).0)
    requires var (r, reported) := Follow(graph, node, stack + [node], Callees(graph, node), t1);
      Spent(graph, r, stack + [node]) && (reported ==> LastIsReal(graph, r, node, stack + [node]))
    ensures Spent(graph, Visit(graph, node, stack, t), stack)
  {
    var (r1, reported) := Follow(graph, node, stack + [node], Callees(graph, node), t1);
    var r := Visit(graph, node, stack, t);
    assert r.color.Keys == r1.color.Keys;
    forall x | Stale(r, stack, x) ensures CalledByColored(graph, r, x) {
      if x != node {
        assert Stale(r1, stack + [node], x);
        var u :| u in r1.color && x in Succ(Calls(graph), u);
        assert u in r.color;
      } else if stack == [] {
        assert reported && [] + [node] == [node];
        assert node in r.color && node in Succ(Calls(graph), node);
      } else {
        var top := stack[|stack|-1];
        assert LinkedBelow(Calls(graph), t.parent, top, node) && IsGray(t, top);
        assert top in t1.color && top in r.color;
      }
    }
  }

  /** The last report was made by `node` and closes a cycle on the stack. */
  ghost predicate LastIsReal(graph: Listing, t: Tour, node: NodeId, stack: seq<NodeId>) {
    t.reports != [] && var r := t.reports[|t.reports|-1];
      r.callee in stack && r.callee in Succ(Calls(graph), node)
  }

  lemma {:induction false} FollowSound(graph: Listing, node: NodeId, n: nat, stack: seq<NodeId>, t: Tour)
    requires CyclesCalledOnce(graph) && Sound(graph, t, stack) && Parented(t, {})
    requires stack != [] && stack[|stack|-1] == node && n <= |Callees(graph, node)|
    requires Elements(Callees(graph, node)[n..]) <= Universe(graph)
    requires forall x :: Stale(t, stack, x) ==> x !in Callees(graph, node)[n..]
    ensures var (r, reported) := Follow(graph, node, stack, Callees(graph, node)[n..], t);
      Sound(graph, r, stack) && (reported ==> LastIsReal(graph, r, node, stack))
    decreases Universe(graph) - t.color.Keys, 1 + |Callees(graph, node)| - n
  {
    var rest := Callees(graph, node)[n..];
    CalleesKnown(graph, node);
    assert Elements(rest) <= Succ(Calls(graph), node);
    FollowInv(graph, node, stack, rest, t);
    if rest != [] {
      var next := rest[0];
      assert next in Elements(rest) && rest[1..] == Callees(graph, node)[n+1..] && Elements(rest[1..]) <= Elements(rest);
      if IsGray(t, next) {
        assert !Stale(t, stack, next);
        assert Follow(graph, node, stack, rest, t).0.color == t.color;
        SameColors(graph, t, Follow(graph, node, stack, rest, t).0, stack);
      } else if next in t.color {
        FollowSound(graph, node, n + 1, stack, t);
      } else {
        FollowOneSound(graph, node, n, stack, t);
      }
    }
  }

  lemma SameColors(graph: Listing, t: Tour, r: Tour, stack: seq<NodeId>)
    requires Spent(graph, t, stack) && r.color == t.color
    ensures Spent(graph, r, stack)
  {
    forall x | Stale(r, stack, x) ensures CalledByColored(graph, r, x) {
      assert Stale(t, stack, x);
      var u :| u in t.color && x in Succ(Calls(graph), u);
      assert u in r.color;
    }
  }

  lemma {:induction false} FollowOneSound(graph: Listing, node: NodeId, n: nat, stack: seq<NodeId>, t: Tour)
    requires CyclesCalledOnce(graph) && Sound(graph, t, stack) && Parented(t, {})
    requires stack != [] && stack[|stack|-1] == node && n < |Callees(graph, node)|
    requires Elements(Callees(graph, node)[n..]) <= Universe(graph) && Callees(graph, node)[n] !in t.color
    requires forall x :: Stale(t, stack, x) ==> x !in Callees(graph, node)[n..]
    ensures var (r, reported) := Follow(graph, node, stack, Callees(graph, node)[n..], t);
      Sound(graph, r, stack) && (reported ==> LastIsReal(graph, r, node, stack))
    decreases Universe(graph) - t.color.Keys, |Callees(graph, node)| - n
  {
    var rest := Callees(graph, node)[n..];
    var next := rest[0];
    CalleesKnown(graph, node);
    assert next in Elements(rest) && next in Elements(Callees(graph, node));
    assert rest[1..] == Callees(graph, node)[n+1..] && Elements(rest[1..]) <= Elements(rest);
    var t1 := Linked(t, node, next);
    LinkInv(graph, t, stack, node, next);
    SameColors(graph, t, t1, stack);
    VisitInv(graph, next, stack, t1);
    VisitSound(graph, next, stack, t1);
    var t2 := Visit(graph, next, stack, t1);
    VisitNew(graph, next, stack, t1, t2);
    forall x | Stale(t2, stack, x) ensures x !in Callees(graph, node)[n+1..] {
      assert IsGray(t1, stack[|stack|-1]);
      forall y | Stale(t1, stack, y) ensures y !in Callees(graph, node)[n..] { assert Stale(t, stack, y); }
      NoStaleLater(graph, node, n, stack, t1, t2, x);
    }
    assert next in Universe(graph) - t.color.Keys && next !in Universe(graph) - t2.color.Keys;
    FollowSound(graph, node, n + 1, stack, t2);
  }

  lemma {:induction false} VisitAllSound(graph: Listing, roots: seq<NodeId>, t: Tour)
    requires CyclesCalledOnce(graph) && Elements(roots) <= graph.Keys && Sound(graph, t, []) && Parented(t, {})
    ensures Sound(graph, VisitAll(graph, roots, t), [])
  {
    if roots != [] {
      assert roots[0] in Elements(roots) && Elements(roots[1..]) <= Elements(roots);
      if roots[0] in t.color {
        VisitAllSound(graph, roots[1..], t);
      } else {
        VisitInv(graph, roots[0], [], t);
        VisitSound(graph, roots[0], [], t);
        VisitAllSound(graph, roots[1..], Visit(graph, roots[0], [], t));
      }
    }
  }

  /** If every workflow on a cycle is called only once, every report is a cycle, whatever the order. */
  lemma CalledOnceNoneSpurious(graph: Listing, roots: seq<NodeId>, r: Report)
    requires CyclesCalledOnce(graph) && Elements(roots) <= graph.Keys && r in Reports(graph, roots)
    ensures IsCycle(Calls(graph), r.path)
  {
    VisitAllSound(graph, roots, EMPTY);
    ReportsInv(graph, roots);
    assert Judged(graph, r);
  }

  // ---------------------------------------------------------------------------
  // What a visit reaches

  lemma {:induction false} VisitReaches(graph: Listing, node: NodeId, stack: seq<NodeId>, t: Tour)
    requires node in Universe(graph) && node !in t.color && t.color.Keys <= Universe(graph)
    ensures var r := Visit(graph, node, stack, t);
      && (forall x :: New(t, r, x) ==> Reaches(Calls(graph), node, x))
      && t.reports <= r.reports
      && (forall i :: |t.reports| <= i < |r.reports| ==> Reaches(Calls(graph), node, r.reports[i].caller))
    decreases Universe(graph) - t.color.Keys, 0
  {
    var t1 := Pushed(t, node);
    CalleesKnown(graph, node);
    ReachesSelf(Calls(graph), node);
    assert node in Universe(graph) - t.color.Keys && node !in Universe(graph) - t1.color.Keys;
    FollowReaches(graph, node, stack + [node], Callees(graph, node), t1);
    var r, r1 := Visit(graph, node, stack, t), Follow(graph, node, stack + [node], Callees(graph, node), t1).0;
    assert r.color.Keys == r1.color.Keys && r.reports == r1.reports;
    forall x | New(t, r, x) ensures Reaches(Calls(graph), node, x) {
      if x != node { assert New(t1, r1, x); }
    }
  }

  lemma {:induction false} FollowReaches(graph: Listing, node: NodeId, stack: seq<NodeId>, rest: seq<NodeId>, t: Tour)
    requires Elements(rest) <= Universe(graph) && t.color.Keys <= Universe(graph)
    requires Elements(rest) <= Succ(Calls(graph), node)
    ensures var r := Follow(graph, node, stack, rest, t).0;
      && (forall x :: New(t, r, x) ==> Reaches(Calls(graph), node, x))
      && t.reports <= r.reports
      && (forall i :: |t.reports| <= i < |r.reports| ==> Reaches(Calls(graph), node, r.reports[i].caller))
    decreases Universe(graph) - t.color.Keys, 1 + |rest|
  {
    ReachesSelf(Calls(graph), node);
    if rest != [] && !IsGray(t, rest[0]) {
      var next := rest[0];
      assert next in Elements(rest) && Elements(rest[1..]) <= Elements(rest);
      if next in t.color {
        FollowReaches(graph, node, stack, rest[1..], t);
      } else {
        var t1 := Linked(t, node, next);
        var t2 := Visit(graph, next, stack, t1);
        VisitReaches(graph, next, stack, t1);
        assert next in Universe(graph) - t.color.Keys && next !in Universe(graph) - t2.color.Keys;
        FollowReaches(graph, node, stack, rest[1..], t2);
        var r := Follow(graph, node, stack, rest[1..], t2).0;
        forall x | New(t, r, x) ensures Reaches(Calls(graph), node, x) {
          if x in t2.color {
            assert New(t1, t2, x);
            ReachesEdgeThen(Calls(graph), node, next, x);
          } else {
            assert New(t2, r, x);
          }
        }
        ReportsFrom(graph, node, next, t, t2, r);
      }
    }
  }

  lemma ReportsFrom(graph: Listing, node: NodeId, next: NodeId, t: Tour, t2: Tour, r: Tour)
    requires next in Succ(Calls(graph), node) && t.reports <= t2.reports <= r.reports
    requires forall i :: |t.reports| <= i < |t2.reports| ==> Reaches(Calls(graph), next, t2.reports[i].caller)
    requires forall i :: |t2.reports| <= i < |r.reports| ==> Reaches(Calls(graph), node, r.reports[i].caller)
    ensures forall i :: |t.reports| <= i < |r.reports| ==> Reaches(Calls(graph), node, r.reports[i].caller)
  {
    forall i | |t.reports| <= i < |r.reports| ensures Reaches(Calls(graph), node, r.reports[i].caller) {
      if i < |t2.reports| {
        assert r.reports[i] == t2.reports[i];
        ReachesEdgeThen(Calls(graph), node, next, t2.reports[i].caller);
      }
    }
  }
}
