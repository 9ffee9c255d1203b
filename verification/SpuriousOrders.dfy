/** When some order of the workflows makes `detectWorkflowCycles` (internal/config/crossrefs.go)
    report a list that is no cycle: as soon as some workflow leads to a cycle without being on one. */
module SpuriousOrders {
  import opened Common
  import opened Digraphs
  import opened WorkflowGraph
  import opened CycleSearch
  import opened WorkflowCycles
  import opened WorkflowReports
  import opened SpuriousReports

  // ---------------------------------------------------------------------------
  // The first doomed call

  /** `v` is the first workflow in `x`'s list that leads to a cycle. */
  ghost predicate FirstAt(graph: Listing, x: NodeId, n: nat, v: NodeId) {
    && n < |Callees(graph, x)| && Callees(graph, x)[n] == v && Doomed(graph, v)
    && forall m :: 0 <= m < n ==> !Doomed(graph, Callees(graph, x)[m])
  }

  ghost predicate First(graph: Listing, x: NodeId, v: NodeId) {
    exists n: nat :: FirstAt(graph, x, n, v)
  }

  lemma FirstExists(graph: Listing, x: NodeId) returns (v: NodeId)
    requires Doomed(graph, x)
    ensures First(graph, x, v) && v in Succ(Calls(graph), x) && Doomed(graph, v)
  {
    var s := DoomedAhead(graph, x);
    var calls := Callees(graph, x);
    CalleesKnown(graph, x);
    assert s in Elements(calls);
    var n := 0;
    while !Doomed(graph, calls[n])
      invariant n < |calls| && forall m :: 0 <= m < n ==> !Doomed(graph, calls[m])
      decreases |calls| - n
    {
      if n == |calls| - 1 {
        assert forall m :: 0 <= m < |calls| ==> !Doomed(graph, calls[m]);
        assert false;
      }
      n := n + 1;
    }
    v := calls[n];
    assert FirstAt(graph, x, n, v) && v in Elements(calls);
  }

  // ---------------------------------------------------------------------------
  // Calls that do not lead to a cycle change nothing that matters

  lemma GrayDoomed(graph: Listing, t: Tour, stack: seq<NodeId>, next: NodeId)
    requires Inv(graph, t, stack) && stack != [] && next in Succ(Calls(graph), stack[|stack|-1]) && IsGray(t, next)
    ensures Doomed(graph, next)
  {
    if next in stack {
      var k :| 0 <= k < |stack| && stack[k] == next;
      StackReaches(graph, t, stack, k);
      ClosingCallDooms(graph, stack[|stack|-1], next);
    }
  }

  lemma VisitSafe(graph: Listing, node: NodeId, stack: seq<NodeId>, t: Tour, r: Tour)
    requires Inv(graph, t, stack) && Pushable(graph, t, stack, node) && Parented(t, {node})
    requires r == Visit(graph, node, stack, t) && !Doomed(graph, node)
    ensures r.reports == t.reports && forall x :: New(t, r, x) ==> !Doomed(graph, x)
  {
    VisitReaches(graph, node, stack, t);
    VisitInv(graph, node, stack, t);
    forall x | New(t, r, x) ensures !Doomed(graph, x) {
      if Doomed(graph, x) { DoomedFrom(graph, node, x); }
    }
    if |t.reports| < |r.reports| {
      var last := r.reports[|t.reports|];
      assert last in r.reports && Judged(graph, last);
      DoomedBack(graph, last.caller, last.callee);
      DoomedFrom(graph, node, last.caller);
      assert false;
    }
  }

  /** The search got from `t` to `r` without reporting anything or colouring anything doomed. */
  ghost predicate Harmless(graph: Listing, t: Tour, r: Tour, stack: seq<NodeId>) {
    && Inv(graph, r, stack) && Keeps(t, r) && Parented(r, {}) && r.reports == t.reports
    && forall x :: New(t, r, x) ==> !Doomed(graph, x)
  }

  lemma HarmlessTwice(graph: Listing, t: Tour, t1: Tour, t2: Tour, stack: seq<NodeId>)
    requires Harmless(graph, t, t1, stack) && Harmless(graph, t1, t2, stack)
    ensures Harmless(graph, t, t2, stack)
  {
    KeepsTransitive(t, t1, t2);
    forall x | New(t, t2, x) ensures !Doomed(graph, x) {
      if x in t1.color { assert New(t, t1, x); } else { assert New(t1, t2, x); }
    }
  }

  lemma SafeStep(graph: Listing, node: NodeId, stack: seq<NodeId>, rest: seq<NodeId>, t: Tour) returns (t1: Tour)
    requires Inv(graph, t, stack) && stack != [] && stack[|stack|-1] == node && Parented(t, {})
    requires rest != [] && Elements(rest) <= Succ(Calls(graph), node) && Elements(rest) <= Universe(graph)
    requires !Doomed(graph, rest[0])
    ensures Harmless(graph, t, t1, stack) && Elements(rest[1..]) <= Elements(rest)
    ensures Follow(graph, node, stack, rest, t) == Follow(graph, node, stack, rest[1..], t1)
  {
    var next := rest[0];
    assert next in Elements(rest);
    if next in t.color {
      if IsGray(t, next) { GrayDoomed(graph, t, stack, next); }
      t1 := t;
    } else {
      var t0 := Linked(t, node, next);
      LinkInv(graph, t, stack, node, next);
      t1 := Visit(graph, next, stack, t0);
      VisitInv(graph, next, stack, t0);
      VisitSafe(graph, next, stack, t0, t1);
      KeepsTransitive(t, t0, t1);
      forall x | New(t, t1, x) ensures !Doomed(graph, x) { assert New(t0, t1, x); }
    }
  }

  /** Following calls that do not lead to a cycle is harmless. */
  lemma {:induction false} SafePrefix(graph: Listing, node: NodeId, stack: seq<NodeId>, rest: seq<NodeId>, k: nat, t: Tour)
    returns (t': Tour)
    requires Inv(graph, t, stack) && stack != [] && stack[|stack|-1] == node && Parented(t, {})
    requires Elements(rest) <= Succ(Calls(graph), node) && Elements(rest) <= Universe(graph) && k <= |rest|
    requires forall m :: 0 <= m < k ==> !Doomed(graph, rest[m])
    ensures Harmless(graph, t, t', stack) && Elements(rest[k..]) <= Universe(graph)
    ensures Follow(graph, node, stack, rest, t) == Follow(graph, node, stack, rest[k..], t')
    decreases k
  {
    if k == 0 {
      t' := t;
      assert rest[0..] == rest;
    } else {
      var t1 := SafeStep(graph, node, stack, rest, t);
      assert rest[1..][k-1..] == rest[k..];
      t' := SafePrefix(graph, node, stack, rest[1..], k - 1, t1);
      HarmlessTwice(graph, t, t1, t', stack);
    }
  }

  // ---------------------------------------------------------------------------
  // A caller of something left behind

  lemma SpuriousStays(t: Tour, r: Tour)
    requires HasSpurious(t) && t.reports <= r.reports
    ensures HasSpurious(r)
  {
    var x :| x in t.reports && Spurious(x);
    assert x in r.reports;
  }

  /** `v` has been left behind grey, `u` is still white, and `v` is `u`'s first doomed call. */
  ghost predicate Trap(graph: Listing, t: Tour, stack: seq<NodeId>, u: NodeId, v: NodeId) {
    IsGray(t, v) && v !in stack && u !in t.color && First(graph, u, v)
  }

  ghost predicate Sprung(t: Tour, u: NodeId) {
    u !in t.color || HasSpurious(t)
  }

  /** Visiting `u` itself reports `v`, which is not on the stack. */
  lemma VisitSprings(graph: Listing, u: NodeId, stack: seq<NodeId>, t: Tour, v: NodeId, r: Tour)
    requires Inv(graph, t, stack) && Pushable(graph, t, stack, u) && Parented(t, {u}) && Trap(graph, t, stack, u, v)
    requires r == Visit(graph, u, stack, t)
    ensures HasSpurious(r)
  {
    var t1, stack1 := Pushed(t, u), stack + [u];
    var calls := Callees(graph, u);
    CalleesKnown(graph, u);
    PushInv(graph, t, stack, u);
    var n: nat :| FirstAt(graph, u, n, v);
    var t2 := SafePrefix(graph, u, stack1, calls, n, t1);
    assert IsGray(t1, v) && IsGray(t2, v) && calls[n..][0] == v;
    var r1 := Follow(graph, u, stack1, calls[n..], t2);
    var report := Report(PathOf(graph, t2.parent, u, v), u, v, stack1);
    assert r1 == (t2.(reports := t2.reports + [report]), true);
    assert v !in stack1 && report in r.reports && Spurious(report);
  }

  lemma {:induction false} VisitTrap(graph: Listing, node: NodeId, stack: seq<NodeId>, t: Tour, u: NodeId, v: NodeId, r: Tour)
    requires Inv(graph, t, stack) && Pushable(graph, t, stack, node) && Parented(t, {node}) && Trap(graph, t, stack, u, v)
    requires r == Visit(graph, node, stack, t)
    ensures Sprung(r, u)
    decreases Universe(graph) - t.color.Keys, 0
  {
    if node == u {
      VisitSprings(graph, u, stack, t, v, r);
    } else {
      var t1 := Pushed(t, node);
      CalleesKnown(graph, node);
      PushInv(graph, t, stack, node);
      assert node in Universe(graph) - t.color.Keys && node !in Universe(graph) - t1.color.Keys;
      var r1 := Follow(graph, node, stack + [node], Callees(graph, node), t1).0;
      FollowTrap(graph, node, stack + [node], Callees(graph, node), t1, u, v, r1);
      assert r.color.Keys == r1.color.Keys && r.reports == r1.reports;
    }
  }

  lemma {:induction false} FollowTrap(graph: Listing, node: NodeId, stack: seq<NodeId>, rest: seq<NodeId>, t: Tour,
                                      u: NodeId, v: NodeId, r: Tour)
    requires Inv(graph, t, stack) && stack != [] && stack[|stack|-1] == node && Parented(t, {})
    requires Elements(rest) <= Succ(Calls(graph), node) && Elements(rest) <= Universe(graph)
    requires Trap(graph, t, stack, u, v) && r == Follow(graph, node, stack, rest, t).0
    ensures Sprung(r, u)
    decreases Universe(graph) - t.color.Keys, 1 + |rest|
  {
    if rest != [] && !IsGray(t, rest[0]) {
      var next := rest[0];
      assert next in Elements(rest) && Elements(rest[1..]) <= Elements(rest);
      if next in t.color {
        FollowTrap(graph, node, stack, rest[1..], t, u, v, r);
      } else {
        var t1 := Linked(t, node, next);
        LinkInv(graph, t, stack, node, next);
        var t2 := Visit(graph, next, stack, t1);
        VisitInv(graph, next, stack, t1);
        VisitTrap(graph, next, stack, t1, u, v, t2);
        assert next in Universe(graph) - t.color.Keys && next !in Universe(graph) - t2.color.Keys;
        AfterTrap(graph, node, stack, rest[1..], t2, u, v, r);
      }
    }
  }

  /** The rest of a loop, once the trap is sprung or still set. */
  lemma {:induction false} AfterTrap(graph: Listing, node: NodeId, stack: seq<NodeId>, rest: seq<NodeId>, t: Tour,
                                     u: NodeId, v: NodeId, r: Tour)
    requires Inv(graph, t, stack) && stack != [] && stack[|stack|-1] == node && Parented(t, {})
    requires Elements(rest) <= Succ(Calls(graph), node) && Elements(rest) <= Universe(graph)
    requires IsGray(t, v) && v !in stack && First(graph, u, v) && Sprung(t, u)
    requires r == Follow(graph, node, stack, rest, t).0
    ensures Sprung(r, u)
    decreases Universe(graph) - t.color.Keys, 2 + |rest|
  {
    if u !in t.color {
      FollowTrap(graph, node, stack, rest, t, u, v, r);
    } else {
      FollowInv(graph, node, stack, rest, t);
      SpuriousStays(t, r);
    }
  }

  // ---------------------------------------------------------------------------
  // Leaving a workflow behind

  /** Each workflow's first doomed call is the next one. */
  ghost predicate FirstCalls(graph: Listing, p: seq<NodeId>) {
    forall k :: 0 <= k < |p| - 1 ==> First(graph, p[k], p[k+1])
  }

  ghost predicate Distinct(p: seq<NodeId>) {
    forall i, j :: 0 <= i < j < |p| ==> p[i] != p[j]
  }

  ghost predicate White(t: Tour, p: seq<NodeId>) {
    forall k :: 0 <= k < |p| ==> p[k] !in t.color
  }

  /** The last of the chain calls back into the chain or the stack, and `u` calls it from outside. */
  ghost predicate Snare(graph: Listing, t: Tour, stack: seq<NodeId>, p: seq<NodeId>, back: NodeId, u: NodeId) {
    && p != [] && FirstCalls(graph, p) && Distinct(p) && White(t, p)
    && First(graph, p[|p|-1], back) && (back in stack || back in p)
    && u !in t.color && u !in p && Doomed(graph, u) && First(graph, u, p[|p|-1])
  }

  /** The state in which the first doomed call of `node` is followed. */
  lemma ReachFirst(graph: Listing, node: NodeId, stack: seq<NodeId>, t: Tour, f: NodeId) returns (n: nat, t2: Tour)
    requires Inv(graph, t, stack) && Pushable(graph, t, stack, node) && Parented(t, {node}) && First(graph, node, f)
    ensures FirstAt(graph, node, n, f) && Harmless(graph, Pushed(t, node), t2, stack + [node])
    ensures Elements(Callees(graph, node)) <= Succ(Calls(graph), node) <= Universe(graph)
    ensures Elements(Callees(graph, node)[n..]) <= Elements(Callees(graph, node))
    ensures Follow(graph, node, stack + [node], Callees(graph, node), Pushed(t, node))
         == Follow(graph, node, stack + [node], Callees(graph, node)[n..], t2)
  {
    CalleesKnown(graph, node);
    PushInv(graph, t, stack, node);
    n :| FirstAt(graph, node, n, f);
    t2 := SafePrefix(graph, node, stack + [node], Callees(graph, node), n, Pushed(t, node));
  }

  lemma SnareEnds(graph: Listing, node: NodeId, stack: seq<NodeId>, t: Tour, back: NodeId, u: NodeId, r: Tour)
    requires Inv(graph, t, stack) && Pushable(graph, t, stack, node) && Parented(t, {node})
    requires Snare(graph, t, stack, [node], back, u) && r == Visit(graph, node, stack, t)
    ensures IsGray(r, node) && Sprung(r, u)
  {
    var t1, stack1, calls := Pushed(t, node), stack + [node], Callees(graph, node);
    var n, t2 := ReachFirst(graph, node, stack, t, back);
    assert back in stack1 && stack1[|stack|] == node;
    assert IsGray(t2, back) && IsGray(t2, node) && calls[n..][0] == back;
    assert u !in t1.color && !New(t1, t2, u);
    assert Follow(graph, node, stack1, calls[n..], t2).1;
  }

  /** A visit leaves behind what following its calls leaves behind, its own colour aside. */
  lemma VisitIsFollow(graph: Listing, node: NodeId, stack: seq<NodeId>, t: Tour, r: Tour, r1: Tour)
    requires node in Universe(graph) && node !in t.color && t.color.Keys <= Universe(graph)
    requires Elements(Callees(graph, node)) <= Universe(graph) && r == Visit(graph, node, stack, t)
    requires r1 == Follow(graph, node, stack + [node], Callees(graph, node), Pushed(t, node)).0
    ensures r.reports == r1.reports && r.color.Keys == r1.color.Keys
    ensures forall x :: x != node ==> (IsGray(r, x) <==> IsGray(r1, x))
  {
  }

  lemma {:induction false} SnareVisit(graph: Listing, p: seq<NodeId>, stack: seq<NodeId>, t: Tour, back: NodeId, u: NodeId, r: Tour)
    requires p != [] && Inv(graph, t, stack) && Pushable(graph, t, stack, p[0]) && Parented(t, {p[0]})
    requires Snare(graph, t, stack, p, back, u) && r == Visit(graph, p[0], stack, t)
    ensures IsGray(r, p[|p|-1]) && Sprung(r, u)
    decreases |p|, 1
  {
    if |p| == 1 {
      assert p == [p[0]];
      SnareEnds(graph, p[0], stack, t, back, u, r);
    } else {
      assert First(graph, p[0], p[1]);
      var n, t2 := ReachFirst(graph, p[0], stack, t, p[1]);
      SnareShrinks(graph, p, stack, t, back, u, t2);
      var r1 := SnareBelow(graph, p, stack, t, n, t2, back, u);
      VisitIsFollow(graph, p[0], stack, t, r, r1);
    }
  }

  /** The first doomed call of `p[0]`, and the calls after it. */
  lemma {:induction false} SnareBelow(graph: Listing, p: seq<NodeId>, stack: seq<NodeId>, t: Tour, n: nat, t2: Tour,
                                      back: NodeId, u: NodeId) returns (r1: Tour)
    requires |p| > 1 && Distinct(p) && White(t, p) && OnStack(graph, t, stack)
    requires FirstAt(graph, p[0], n, p[1]) && Inv(graph, t2, stack + [p[0]]) && Parented(t2, {}) && p[1] !in t2.color
    requires Elements(Callees(graph, p[0])) <= Succ(Calls(graph), p[0]) <= Universe(graph)
    requires Elements(Callees(graph, p[0])[n..]) <= Elements(Callees(graph, p[0]))
    requires Snare(graph, Linked(t2, p[0], p[1]), stack + [p[0]], p[1..], back, u)
    ensures r1 == Follow(graph, p[0], stack + [p[0]], Callees(graph, p[0])[n..], t2).0
    ensures IsGray(r1, p[|p|-1]) && Sprung(r1, u) && p[|p|-1] != p[0]
    decreases |p|, 0
  {
    var node, stack1, calls := p[0], stack + [p[0]], Callees(graph, p[0]);
    assert calls[n..][0] == p[1] && p[1] in Elements(calls[n..]) && calls[n..][1..] == calls[n+1..];
    assert Elements(calls[n+1..]) <= Elements(calls[n..]);
    var t3 := Linked(t2, node, p[1]);
    LinkInv(graph, t2, stack1, node, p[1]);
    var t4 := Visit(graph, p[1], stack1, t3);
    VisitInv(graph, p[1], stack1, t3);
    SnareVisit(graph, p[1..], stack1, t3, back, u, t4);
    FinishSnare(graph, p, stack, t, calls[n+1..], t4, u);
    r1 := Follow(graph, node, stack1, calls[n+1..], t4).0;
  }

  /** After the calls before it, the snare is still set one workflow further down. */
  lemma SnareShrinks(graph: Listing, p: seq<NodeId>, stack: seq<NodeId>, t: Tour, back: NodeId, u: NodeId, t2: Tour)
    requires |p| > 1 && Snare(graph, t, stack, p, back, u)
    requires forall x :: New(Pushed(t, p[0]), t2, x) ==> !Doomed(graph, x)
    ensures Snare(graph, Linked(t2, p[0], p[1]), stack + [p[0]], p[1..], back, u) && p[1] !in t2.color
  {
    var t1 := Pushed(t, p[0]);
    forall k | 1 <= k < |p| ensures p[k] !in t2.color {
      assert First(graph, p[k-1], p[k]);
      assert p[k] !in t1.color && !New(t1, t2, p[k]);
    }
    assert u !in t1.color && !New(t1, t2, u);
    forall k | 0 <= k < |p[1..]| - 1 ensures First(graph, p[1..][k], p[1..][k+1]) {
      assert First(graph, p[k+1], p[k+2]);
    }
    if back in p {
      var k :| 0 <= k < |p| && p[k] == back;
      if k > 0 { assert p[1..][k-1] == back; } else { assert (stack + [p[0]])[|stack|] == back; }
    } else {
      assert back in stack + [p[0]];
    }
  }

  lemma FinishSnare(graph: Listing, p: seq<NodeId>, stack: seq<NodeId>, t: Tour, rest: seq<NodeId>, t4: Tour, u: NodeId)
    requires |p| > 1 && Distinct(p) && White(t, p) && First(graph, u, p[|p|-1])
    requires OnStack(graph, t, stack) && Inv(graph, t4, stack + [p[0]]) && Parented(t4, {})
    requires Elements(rest) <= Succ(Calls(graph), p[0]) && Elements(rest) <= Universe(graph)
    requires IsGray(t4, p[|p|-1]) && Sprung(t4, u)
    ensures var r1 := Follow(graph, p[0], stack + [p[0]], rest, t4).0;
      IsGray(r1, p[|p|-1]) && Sprung(r1, u) && p[|p|-1] != p[0]
  {
    var v, stack1 := p[|p|-1], stack + [p[0]];
    forall i | 0 <= i < |stack| ensures stack[i] != v { assert IsGray(t, stack[i]); }
    assert v !in stack1;
    var r1 := Follow(graph, p[0], stack1, rest, t4).0;
    FollowInv(graph, p[0], stack1, rest, t4);
    AfterTrap(graph, p[0], stack1, rest, t4, u, v, r1);
  }

  /** Once something has been left behind, its outside caller is reported in the end. */
  lemma {:induction false} VisitAllTrap(graph: Listing, roots: seq<NodeId>, t: Tour, u: NodeId, v: NodeId)
    requires Elements(roots) <= graph.Keys && Inv(graph, t, []) && Parented(t, {})
    requires IsGray(t, v) && First(graph, u, v) && Sprung(t, u) && (u in roots || u in t.color)
    ensures HasSpurious(VisitAll(graph, roots, t))
  {
    if roots != [] {
      var root := roots[0];
      assert root in Elements(roots) && Elements(roots[1..]) <= Elements(roots);
      assert u in roots ==> u == root || u in roots[1..];
      if root in t.color {
        VisitAllTrap(graph, roots[1..], t, u, v);
      } else {
        var r := Visit(graph, root, [], t);
        VisitInv(graph, root, [], t);
        if u in t.color { SpuriousStays(t, r); } else { VisitTrap(graph, root, [], t, u, v, r); }
        VisitAllTrap(graph, roots[1..], r, u, v);
      }
    }
  }

  // ---------------------------------------------------------------------------
  // Finding the order

  /** First doomed calls, followed far enough, return to a workflow met before. */
  lemma {:induction false} FollowFirsts(graph: Listing, xs: seq<NodeId>) returns (ys: seq<NodeId>, i: nat)
    requires xs != [] && FirstCalls(graph, xs) && Distinct(xs)
    requires forall k :: 0 <= k < |xs| ==> Doomed(graph, xs[k]) && xs[k] in Universe(graph)
    ensures xs <= ys && FirstCalls(graph, ys) && Distinct(ys) && forall k :: 0 <= k < |ys| ==> Doomed(graph, ys[k])
    ensures i < |ys| && First(graph, ys[|ys|-1], ys[i])
    decreases |Universe(graph)| - |xs|
  {
    var last := xs[|xs|-1];
    var f := FirstExists(graph, last);
    DistinctFit(xs, Universe(graph));
    if f in xs {
      ys := xs;
      i :| i < |xs| && xs[i] == f;
    } else {
      CalleesKnown(graph, last);
      var longer := xs + [f];
      DistinctFit(longer, Universe(graph));
      ys, i := FollowFirsts(graph, longer);
    }
  }

  lemma FirstIsCall(graph: Listing, x: NodeId, v: NodeId)
    requires First(graph, x, v)
    ensures v in Succ(Calls(graph), x) && x in graph && Doomed(graph, v)
  {
    var n: nat :| FirstAt(graph, x, n, v);
    CalleesKnown(graph, x);
    assert v in Elements(Callees(graph, x));
  }

  /** A chain of first calls that returns to its start makes the start lie on a cycle. */
  lemma ReturnsToStart(graph: Listing, ys: seq<NodeId>)
    requires ys != [] && FirstCalls(graph, ys) && First(graph, ys[|ys|-1], ys[0])
    ensures OnCycle(graph, ys[0])
  {
    var g := Calls(graph);
    forall k | 0 <= k < |ys| - 1 ensures ys[k+1] in Succ(g, ys[k]) {
      assert First(graph, ys[k], ys[k+1]);
      FirstIsCall(graph, ys[k], ys[k+1]);
    }
    assert PathFromTo(g, ys, ys[0], ys[|ys|-1]);
    FirstIsCall(graph, ys[|ys|-1], ys[0]);
    ClosingCallDooms(graph, ys[|ys|-1], ys[0]);
  }

  /** The chain from the successor of `ys[i]` around to `ys[i]`, called from `ys[i-1]`. */
  lemma SnareOf(graph: Listing, ys: seq<NodeId>, i: nat) returns (p: seq<NodeId>)
    requires 0 < i < |ys| && FirstCalls(graph, ys) && Distinct(ys) && First(graph, ys[|ys|-1], ys[i])
    requires forall k :: 0 <= k < |ys| ==> Doomed(graph, ys[k])
    ensures p != [] && Snare(graph, EMPTY, [], p, p[0], ys[i-1]) && p[|p|-1] == ys[i]
  {
    p := ys[i+1..] + [ys[i]];
    forall k | 0 <= k < |p| - 1 ensures First(graph, p[k], p[k+1]) {
      if k < |p| - 2 { assert First(graph, ys[i+1+k], ys[i+2+k]); } else { assert p[k] == ys[|ys|-1]; }
    }
    forall a, b | 0 <= a < b < |p| ensures p[a] != p[b] {
      assert p[a] == ys[i+1+a];
      assert b < |p| - 1 ==> p[b] == ys[i+1+b];
    }
    forall a | 0 <= a < |p| ensures p[a] != ys[i-1] {
      assert a < |p| - 1 ==> p[a] == ys[i+1+a];
    }
    if i + 1 < |ys| { assert First(graph, ys[i], ys[i+1]); }
    assert First(graph, ys[i-1], ys[i]);
  }

  lemma FindSnare(graph: Listing, x: NodeId) returns (p: seq<NodeId>, u: NodeId)
    requires Doomed(graph, x) && !OnCycle(graph, x)
    ensures p != [] && Snare(graph, EMPTY, [], p, p[0], u)
  {
    var s := DoomedAhead(graph, x);
    var ys, i := FollowFirsts(graph, [x]);
    if i == 0 { ReturnsToStart(graph, ys); }
    p := SnareOf(graph, ys, i);
    u := ys[i-1];
  }

  /** A snare can be laid by the order in which the workflows are looked at. */
  lemma SnareMisleads(graph: Listing, p: seq<NodeId>, u: NodeId) returns (roots: seq<NodeId>, r: Report)
    requires p != [] && Snare(graph, EMPTY, [], p, p[0], u)
    ensures IsOrder(graph, roots) && r in Reports(graph, roots) && Spurious(r)
    ensures "" !in graph ==> !IsCycle(Calls(graph), r.path)
  {
    roots := OrderFrom(graph, p, p[0], u);
    SnareInOrder(graph, p, u, roots);
    r :| r in Reports(graph, roots) && Spurious(r);
    if "" !in graph { CycleIffOnStack(graph, roots, r); }
  }

  /** If some workflow leads to a cycle without being on one, then under some order of the workflows
      some report is no cycle. */
  lemma LeadingToCycleMisleads(graph: Listing, x: NodeId) returns (roots: seq<NodeId>, r: Report)
    requires Doomed(graph, x) && !OnCycle(graph, x)
    ensures IsOrder(graph, roots) && r in Reports(graph, roots) && Spurious(r)
    ensures "" !in graph ==> !IsCycle(Calls(graph), r.path)
  {
    var p, u := FindSnare(graph, x);
    roots, r := SnareMisleads(graph, p, u);
  }

  lemma FirstUnique(graph: Listing, x: NodeId, v: NodeId, v': NodeId)
    requires First(graph, x, v) && First(graph, x, v')
    ensures v == v'
  {
    var n: nat :| FirstAt(graph, x, n, v);
    var n': nat :| FirstAt(graph, x, n', v');
    assert !(n < n') && !(n' < n);
  }

  /** On a closed chain of first calls only the first workflow calls the second. */
  lemma OnlyFirstCalls(graph: Listing, ys: seq<NodeId>, u': NodeId)
    requires |ys| >= 2 && FirstCalls(graph, ys) && Distinct(ys) && First(graph, ys[|ys|-1], ys[0])
    requires First(graph, u', ys[1]) && u' != ys[0]
    ensures u' !in ys
  {
    forall k | 0 <= k < |ys| ensures ys[k] != u' {
      var next := if k < |ys| - 1 then ys[k+1] else ys[0];
      assert First(graph, ys[k], next) && (next == ys[1] ==> k == 0);
      if ys[k] == u' { FirstUnique(graph, u', ys[1], next); }
    }
  }

  /** The closed chain, entered two workflows further on, and the outside caller of its second. */
  lemma RotatedSnare(graph: Listing, ys: seq<NodeId>, u': NodeId) returns (p: seq<NodeId>)
    requires |ys| >= 2 && FirstCalls(graph, ys) && Distinct(ys) && First(graph, ys[|ys|-1], ys[0])
    requires First(graph, u', ys[1]) && u' !in ys && Doomed(graph, u')
    ensures p != [] && Snare(graph, EMPTY, [], p, p[0], u')
  {
    p := ys[2..] + ys[..2];
    forall k | 0 <= k < |p| - 1 ensures First(graph, p[k], p[k+1]) {
      if k < |ys| - 3 { assert First(graph, ys[k+2], ys[k+3]); }
      else if k == |ys| - 2 { assert First(graph, ys[0], ys[1]); }
    }
    forall a, b | 0 <= a < b < |p| ensures p[a] != p[b] {
      assert p[a] == ys[if a < |ys| - 2 then a + 2 else a - |ys| + 2];
      assert p[b] == ys[if b < |ys| - 2 then b + 2 else b - |ys| + 2];
    }
    forall a | 0 <= a < |p| ensures p[a] != u' {
      assert p[a] == ys[if a < |ys| - 2 then a + 2 else a - |ys| + 2];
    }
    if |ys| > 2 { assert First(graph, ys[1], ys[2]); }
  }

  lemma SharedSnare(graph: Listing, u: NodeId, u': NodeId, v: NodeId) returns (p: seq<NodeId>, w: NodeId)
    requires u != u' && u != v && First(graph, u, v) && First(graph, u', v)
    ensures p != [] && Snare(graph, EMPTY, [], p, p[0], w)
  {
    FirstIsCall(graph, u, v);
    FirstIsCall(graph, u', v);
    DoomedBack(graph, u, v);
    DoomedBack(graph, u', v);
    CalleesKnown(graph, u);
    var ys, i := FollowFirsts(graph, [u, v]);
    assert ys[0] == [u, v][0] && ys[1] == [u, v][1];
    if i > 0 {
      p := SnareOf(graph, ys, i);
      w := ys[i-1];
    } else {
      OnlyFirstCalls(graph, ys, u');
      p := RotatedSnare(graph, ys, u');
      w := u';
    }
  }

  /** If two workflows have the same first call that leads to a cycle, then under some order of the
      workflows some report is no cycle. */
  lemma SharedFirstCallMisleads(graph: Listing, u: NodeId, u': NodeId, v: NodeId) returns (roots: seq<NodeId>, r: Report)
    requires u != u' && First(graph, u, v) && First(graph, u', v)
    ensures IsOrder(graph, roots) && r in Reports(graph, roots) && Spurious(r)
    ensures "" !in graph ==> !IsCycle(Calls(graph), r.path)
  {
    var p, w;
    if u != v { p, w := SharedSnare(graph, u, u', v); } else { p, w := SharedSnare(graph, u', u, v); }
    roots, r := SnareMisleads(graph, p, w);
  }

  lemma OrderFrom(graph: Listing, p: seq<NodeId>, back: NodeId, u: NodeId) returns (roots: seq<NodeId>)
    requires Snare(graph, EMPTY, [], p, back, u)
    ensures IsOrder(graph, roots) && roots != [] && roots[0] == p[0] && u in roots && p[0] in graph
  {
    if |p| > 1 {
      assert First(graph, p[0], p[1]);
      FirstIsCall(graph, p[0], p[1]);
    } else {
      FirstIsCall(graph, p[0], back);
    }
    FirstIsCall(graph, u, p[|p|-1]);
    roots := StartingWith(graph, p[0]);
    assert u in Elements(roots);
  }

  lemma StartingWith(graph: Listing, x: NodeId) returns (roots: seq<NodeId>)
    requires x in graph
    ensures IsOrder(graph, roots) && roots != [] && roots[0] == x
  {
    var others := SortedStrings(graph.Keys - {x});
    roots := [x] + others;
    forall y ensures y in roots <==> y in graph.Keys {
      assert y in roots <==> y == x || y in others;
    }
  }

  lemma SnareInOrder(graph: Listing, p: seq<NodeId>, u: NodeId, roots: seq<NodeId>)
    requires p != [] && Snare(graph, EMPTY, [], p, p[0], u)
    requires Elements(roots) <= graph.Keys && roots != [] && roots[0] == p[0] && u in roots && p[0] in graph
    ensures HasSpurious(VisitAll(graph, roots, EMPTY))
  {
    assert roots[0] in Elements(roots) && Elements(roots[1..]) <= Elements(roots);
    var t := Visit(graph, p[0], [], EMPTY);
    VisitInv(graph, p[0], [], EMPTY);
    SnareVisit(graph, p, [], EMPTY, p[0], u, t);
    assert u == roots[0] || u in roots[1..];
    VisitAllTrap(graph, roots[1..], t, u, p[|p|-1]);
  }
}
