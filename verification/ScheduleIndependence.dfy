/** Confluence: for a fixed choice of followed outputs, every interleaving executes the same nodes,
    the least set closed under "all groups fed", and reaches the same verdict. */
module ScheduleIndependence {
  import opened Common
  import opened WorkflowGraph
  import opened Executor
  import opened ExecutorInvariant
  import opened ExecutorOrder
  import opened ExecutorTheorems

  /** The output each node follows if it runs. */
  type Choice = NodeId -> string

  // ---------------------------------------------------------------------------
  // The static meaning of a graph

  /** Some node of `nodes` follows an edge into group `i` of `v`. */
  ghost predicate Feeds(g: CompiledGraph, c: Choice, nodes: set<NodeId>, v: NodeId, i: nat) {
    exists u :: u in nodes && v in Targets(g, u, c(u)) && Group(g, v, u) == i
  }

  /** `v` is an entry node, or every one of its groups is fed. */
  ghost predicate Due(g: CompiledGraph, c: Choice, nodes: set<NodeId>, v: NodeId) {
    IsEntry(g, v) || forall i: nat :: i < GroupCount(g, v) ==> Feeds(g, c, nodes, v, i)
  }

  ghost predicate Closed(g: CompiledGraph, c: Choice, nodes: set<NodeId>) {
    forall v :: v in g.nodes && Due(g, c, nodes, v) ==> v in nodes
  }

  ghost predicate LeastClosed(g: CompiledGraph, c: Choice, nodes: set<NodeId>) {
    Closed(g, c, nodes) && forall other :: Closed(g, c, other) ==> nodes <= other
  }

  // ---------------------------------------------------------------------------
  // Runs that follow a choice

  ghost predicate Obeys(s: State, c: Choice) {
    forall k :: 0 <= k < |s.threads| && Fired(s.threads[k].pc).Some? ==> Fired(s.threads[k].pc).value == c(s.threads[k].node)
  }

  lemma ObeysDelivers(g: CompiledGraph, s: State, c: Choice, k: nat, v: NodeId)
    requires Obeys(s, c) && k < |s.threads| && Delivered(g, s.threads[k], v)
    ensures v in Targets(g, s.threads[k].node, c(s.threads[k].node))
  {
  }

  /** By induction on launch order, whatever runs lies in every closed set. */
  lemma {:induction false} RunsWithin(w: Setup, s: State, c: Choice, nodes: set<NodeId>, k: nat)
    requires Inv(w, s) && Ordered(w, s) && Obeys(s, c) && Closed(w.g, c, nodes) && k < |s.threads|
    ensures s.threads[k].node in nodes
    decreases k
  {
    var v := s.threads[k].node;
    assert InRange(w.g, s.threads[k]) && WellFounded(w.g, s, k);
    if !IsEntry(w.g, v) {
      forall i: nat | i < GroupCount(w.g, v) ensures Feeds(w.g, c, nodes, v, i) {
        assert CausedBefore(w.g, s, v, i, k);
        var j :| 0 <= j < k <= |s.threads| && Delivered(w.g, s.threads[j], v) && Group(w.g, v, s.threads[j].node) == i;
        RunsWithin(w, s, c, nodes, j);
        ObeysDelivers(w.g, s, c, j, v);
      }
    }
    assert Due(w.g, c, nodes, v);
  }

  /** At any point of any run that so far followed the choice, even one that later fails or is
      cancelled, only nodes of the least closed set have been dispatched. */
  lemma DispatchedWithinClosed(w: Setup, es: seq<Event>, c: Choice, nodes: set<NodeId>)
    requires Runnable(w.g) && Possible(w, es) && Obeys(After(w, es), c) && Closed(w.g, c, nodes)
    ensures Dispatched(After(w, es)) <= nodes
  {
    RunInv(w, es);
    RunOrdered(w, es);
    StateWithinClosed(w, After(w, es), c, nodes);
  }

  lemma StateWithinClosed(w: Setup, s: State, c: Choice, nodes: set<NodeId>)
    requires Inv(w, s) && Ordered(w, s) && Obeys(s, c) && Closed(w.g, c, nodes)
    ensures Dispatched(s) <= nodes
  {
    forall v | v in Dispatched(s) ensures v in nodes {
      var k := GoroutineOf(s, v);
      RunsWithin(w, s, c, nodes, k);
    }
  }

  // ---------------------------------------------------------------------------
  // A clean end has run everything that is due

  ghost predicate AllCompleted(g: CompiledGraph, s: State) {
    forall k :: 0 <= k < |s.threads| ==> Completed(g, s.threads[k])
  }

  lemma CleanCompletes(w: Setup, s: State)
    requires Inv(w, s) && FailuresRecorded(s) && Clean(w, s)
    ensures AllCompleted(w.g, s)
  {
    forall k | 0 <= k < |s.threads| ensures Completed(w.g, s.threads[k]) { CleanMeansCompleted(w, s, k); }
  }

  lemma FlagWasFed(w: Setup, s: State, c: Choice, v: NodeId, i: nat)
    requires FlagsExplained(w, s) && Obeys(s, c) && Flag(s, v, i)
    ensures Feeds(w.g, c, Dispatched(s), v, i)
  {
    assert Caused(w.g, s, v, i);
    var k :| 0 <= k < |s.threads| && Delivered(w.g, s.threads[k], v) && Group(w.g, v, s.threads[k].node) == i;
    ObeysDelivers(w.g, s, c, k, v);
    assert s.threads[k] in s.threads;
  }

  lemma FedRaisesFlag(w: Setup, s: State, c: Choice, v: NodeId, i: nat)
    requires FlagsExplained(w, s) && Obeys(s, c) && AllCompleted(w.g, s) && Feeds(w.g, c, Dispatched(s), v, i)
    ensures Flag(s, v, i)
  {
    var u :| u in Dispatched(s) && v in Targets(w.g, u, c(u)) && Group(w.g, v, u) == i;
    var k := GoroutineOf(s, u);
    assert Completed(w.g, s.threads[k]);
    CompletedDelivered(w.g, s.threads[k], v);
    assert FlagsRaised(w.g, s, s.threads[k]);
  }

  lemma GoroutineOf(s: State, u: NodeId) returns (k: nat)
    requires u in Dispatched(s)
    ensures k < |s.threads| && s.threads[k].node == u
  {
    var t :| t in s.threads && t.node == u;
    k :| 0 <= k < |s.threads| && s.threads[k] == t;
  }

  lemma DispatchedHasGoroutine(w: Setup, s: State, v: NodeId)
    requires Tally(OnNode(v), s.threads) > 0
    ensures v in Dispatched(s)
  {
    var k := TallyWitness(OnNode(v), s.threads);
    assert s.threads[k] in s.threads;
  }

  lemma EntryRan(w: Setup, s: State, v: NodeId)
    requires Inv(w, s) && Quiescent(w, s) && v in w.g.nodes && IsEntry(w.g, v) && v in w.g.entryNodes
    ensures v in Dispatched(s)
  {
    assert Balanced(w, s, v);
    assert Launched(w, s) == w.g.entryNodes;
    DispatchedHasGoroutine(w, s, v);
  }

  lemma FedJoinRan(w: Setup, s: State, v: NodeId)
    requires Inv(w, s) && Quiescent(w, s) && v in w.g.nodes && !IsEntry(w.g, v)
    requires forall i: nat :: i < GroupCount(w.g, v) ==> Flag(s, v, i)
    ensures v in Dispatched(s)
  {
    SettledCount(w, s, v);
    forall i: nat | i < |s.seen[v]| ensures s.seen[v][i] { assert Flag(s, v, i); }
    AllSet(s.seen[v]);
    assert Balanced(w, s, v);
    DispatchedHasGoroutine(w, s, v);
  }

  lemma {:induction false} AllSet(flags: seq<bool>)
    requires forall i :: 0 <= i < |flags| ==> flags[i]
    ensures Tally(IsSet(), flags) == |flags|
  {
    if flags != [] { AllSet(flags[..|flags|-1]); }
  }

  lemma CleanRunIsClosed(w: Setup, s: State, c: Choice)
    requires EntriesListed(w.g) && Inv(w, s) && FailuresRecorded(s) && Clean(w, s) && Obeys(s, c)
    ensures Closed(w.g, c, Dispatched(s))
  {
    CleanCompletes(w, s);
    forall v | v in w.g.nodes && Due(w.g, c, Dispatched(s), v) ensures v in Dispatched(s) {
      if IsEntry(w.g, v) {
        EntryRan(w, s, v);
      } else {
        forall i: nat | i < GroupCount(w.g, v) ensures Flag(s, v, i) {
          assert Feeds(w.g, c, Dispatched(s), v, i);
          FedRaisesFlag(w, s, c, v, i);
        }
        FedJoinRan(w, s, v);
      }
    }
  }

  /** A clean run executes exactly the least closed set of its choice. */
  lemma CleanRunIsLeast(w: Setup, es: seq<Event>, c: Choice)
    requires Runnable(w.g) && Possible(w, es)
    requires Clean(w, After(w, es)) && Obeys(After(w, es), c)
    ensures LeastClosed(w.g, c, Dispatched(After(w, es)))
  {
    var s := After(w, es);
    RunInv(w, es);
    RunRecords(w, es);
    CleanRunIsClosed(w, s, c);
    forall other | Closed(w.g, c, other) ensures Dispatched(s) <= other {
      DispatchedWithinClosed(w, es, c, other);
    }
  }

  lemma SameFlag(w: Setup, s: State, s': State, c: Choice, v: NodeId, i: nat)
    requires FlagsExplained(w, s) && Obeys(s, c) && AllCompleted(w.g, s)
    requires FlagsExplained(w, s') && Obeys(s', c) && AllCompleted(w.g, s')
    requires Dispatched(s) == Dispatched(s')
    ensures Flag(s, v, i) == Flag(s', v, i)
  {
    if Flag(s, v, i) {
      FlagWasFed(w, s, c, v, i);
      FedRaisesFlag(w, s', c, v, i);
    }
    if Flag(s', v, i) {
      FlagWasFed(w, s', c, v, i);
      FedRaisesFlag(w, s, c, v, i);
    }
  }

  /** Every counter is the number of raised flags. */
  ghost predicate SettledCounts(w: Setup, s: State) {
    forall v :: v in w.g.nodes ==> CountSettled(w, s, v)
  }

  ghost predicate CountSettled(w: Setup, s: State, v: NodeId) {
    v in s.seen && v in s.arrived && |s.seen[v]| == GroupCount(w.g, v) && s.arrived[v] == Tally(IsSet(), s.seen[v])
  }

  lemma QuiescentSettles(w: Setup, s: State)
    requires Inv(w, s) && Quiescent(w, s)
    ensures SettledCounts(w, s)
  {
    forall v | v in w.g.nodes ensures CountSettled(w, s, v) { SettledCount(w, s, v); }
  }

  lemma SameFlagsSameCount(w: Setup, s: State, s': State, v: NodeId)
    requires CountSettled(w, s, v) && CountSettled(w, s', v)
    requires forall i: nat :: Flag(s, v, i) == Flag(s', v, i)
    ensures s.arrived[v] == s'.arrived[v]
  {
    forall i: nat | i < GroupCount(w.g, v) ensures s.seen[v][i] == s'.seen[v][i] {
      assert Flag(s, v, i) == Flag(s', v, i);
    }
    assert s.seen[v] == s'.seen[v];
  }

  /** What a clean run following `c` ends in. */
  ghost predicate CleanEnd(w: Setup, s: State, c: Choice) {
    && FlagsExplained(w, s) && Obeys(s, c) && AllCompleted(w.g, s)
    && SettledCounts(w, s) && s.arrived.Keys == w.g.nodes.Keys
  }

  lemma EndsClean(w: Setup, s: State, c: Choice)
    requires Inv(w, s) && FailuresRecorded(s) && Clean(w, s) && Obeys(s, c)
    ensures CleanEnd(w, s, c)
  {
    CleanCompletes(w, s);
    QuiescentSettles(w, s);
  }

  lemma SameArrivals(w: Setup, s: State, s': State, c: Choice)
    requires CleanEnd(w, s, c) && CleanEnd(w, s', c) && Dispatched(s) == Dispatched(s')
    ensures s.arrived == s'.arrived
  {
    forall v | v in w.g.nodes ensures s.arrived[v] == s'.arrived[v] {
      assert CountSettled(w, s, v) && CountSettled(w, s', v);
      forall i: nat ensures Flag(s, v, i) == Flag(s', v, i) { SameFlag(w, s, s', c, v, i); }
      SameFlagsSameCount(w, s, s', v);
    }
  }

  lemma RunEndsClean(w: Setup, es: seq<Event>, c: Choice)
    requires Runnable(w.g) && Possible(w, es) && Clean(w, After(w, es)) && Obeys(After(w, es), c)
    ensures CleanEnd(w, After(w, es), c)
  {
    RunInv(w, es);
    RunRecords(w, es);
    EndsClean(w, After(w, es), c);
  }

  /** Two clean runs that follow the same choice dispatch the same nodes, end with the same counters
      and get the same verdict, down to the starved join that is named. */
  lemma Confluence(w: Setup, es: seq<Event>, es': seq<Event>, c: Choice)
    requires Runnable(w.g) && Possible(w, es) && Possible(w, es')
    requires Clean(w, After(w, es)) && Obeys(After(w, es), c)
    requires Clean(w, After(w, es')) && Obeys(After(w, es'), c)
    ensures Dispatched(After(w, es)) == Dispatched(After(w, es'))
    ensures After(w, es).arrived == After(w, es').arrived
    ensures forall r, r' :: IsVerdict(w, After(w, es), r) && IsVerdict(w, After(w, es'), r') ==> r == r'
  {
    CleanRunIsLeast(w, es, c);
    CleanRunIsLeast(w, es', c);
    RunEndsClean(w, es, c);
    RunEndsClean(w, es', c);
    SameArrivals(w, After(w, es), After(w, es'), c);
    SameVerdict(w, After(w, es), After(w, es'));
  }

  lemma SameVerdict(w: Setup, s: State, s': State)
    requires s.firstErr == s'.firstErr && s.cancelled == s'.cancelled && s.arrived == s'.arrived
    ensures forall r, r' :: IsVerdict(w, s, r) && IsVerdict(w, s', r') ==> r == r'
  {
    forall r, r' | IsVerdict(w, s, r) && IsVerdict(w, s', r') ensures r == r' { VerdictUnique(w, s, s', r, r'); }
  }
}
