/** What `ExecuteGraph` guarantees over all interleavings. */
module ExecutorTheorems {
  import opened Common
  import opened WorkflowGraph
  import opened Executor
  import opened ExecutorInvariant
  import opened ExecutorOrder

  // ---------------------------------------------------------------------------
  // Dispatch

  lemma NoTwoGoroutines(w: Setup, s: State, j: nat, k: nat)
    requires Inv(w, s) && j < k < |s.threads|
    ensures s.threads[j].node != s.threads[k].node
  {
    var v := s.threads[k].node;
    assert InRange(w.g, s.threads[k]);
    assert Balanced(w, s, v);
    if s.threads[j].node == v { TallyTwo(OnNode(v), s.threads, j, k); }
  }

  ghost predicate OneEach(s: State) {
    forall j, k :: 0 <= j < k < |s.threads| ==> s.threads[j].node != s.threads[k].node
  }

  lemma OneGoroutineEach(w: Setup, s: State)
    requires Inv(w, s)
    ensures OneEach(s)
  {
    forall j, k | 0 <= j < k < |s.threads| ensures s.threads[j].node != s.threads[k].node {
      NoTwoGoroutines(w, s, j, k);
    }
  }

  /** In every interleaving each node is dispatched at most once, and a join only after every one
      of its groups has delivered, each by a goroutine launched earlier. */
  lemma DispatchedOnceAfterAllGroups(w: Setup, es: seq<Event>)
    requires Runnable(w.g) && Possible(w, es)
    ensures var s := After(w, es);
      && OneEach(s)
      && (forall k, i: nat :: 0 <= k < |s.threads| && !IsEntry(w.g, s.threads[k].node)
                              && i < GroupCount(w.g, s.threads[k].node)
                              ==> CausedBefore(w.g, s, s.threads[k].node, i, k))
  {
    var s := After(w, es);
    RunInv(w, es);
    RunOrdered(w, es);
    OneGoroutineEach(w, s);
    forall k, i: nat | 0 <= k < |s.threads| && !IsEntry(w.g, s.threads[k].node) && i < GroupCount(w.g, s.threads[k].node)
      ensures CausedBefore(w.g, s, s.threads[k].node, i, k)
    {
      assert WellFounded(w.g, s, k);
    }
  }

  /** The executor never indexes a flag slice out of range, and the counter never overshoots. */
  lemma FlagIndexInBounds(w: Setup, es: seq<Event>, t: nat)
    requires Runnable(w.g) && Possible(w, es)
    requires var s := After(w, es); AtSwap(w, s, t) || AtArrival(w, s, t)
    ensures var s := After(w, es);
      var v := NextTarget(w.g, s.threads[t]);
      && v in s.seen && Group(w.g, v, s.threads[t].node) < |s.seen[v]|
      && v in s.arrived && s.arrived[v] <= GroupCount(w.g, v)
      && (AtArrival(w, s, t) ==> s.arrived[v] < GroupCount(w.g, v))
  {
    var s := After(w, es);
    var th := s.threads[t];
    var v := NextTarget(w.g, th);
    RunInv(w, es);
    TargetIsJoin(w.g, th.node, th.pc.output, v);
    assert Balanced(w, s, v);
    TallyBounded(IsSet(), s.seen[v]);
    if AtArrival(w, s, t) { ArrivalIsNeeded(w, s, t, v); }
  }

  // ---------------------------------------------------------------------------
  // The verdict

  datatype Verdict =
    | Success
    | NoEntryNodes
    | NodeError(node: NodeId)
    | Truncated                                       // cancelled or out of time
    | StarvedJoin(id: NodeId, got: nat, total: nat)

  /** Some but not all groups of a join have arrived. */
  ghost predicate Starved(w: Setup, s: State, v: NodeId) {
    && v in w.g.joinGroupCount && v in s.arrived
    && w.g.joinGroupCount[v] > 1 && 0 < s.arrived[v] < w.g.joinGroupCount[v]
  }

  ghost predicate IsVerdict(w: Setup, s: State, r: Verdict) {
    && (r.NoEntryNodes? <==> w.g.entryNodes == [])
    && match r
    case NoEntryNodes => true
    case NodeError(n) => s.firstErr == Some(n)
    case Truncated => s.firstErr.None? && s.cancelled
    case Success => s.firstErr.None? && !s.cancelled && forall v :: !Starved(w, s, v)
    case StarvedJoin(id, got, total) =>
      && s.firstErr.None? && !s.cancelled && Starved(w, s, id)
      && got == s.arrived[id] && total == w.g.joinGroupCount[id]
      && forall v :: Starved(w, s, v) ==> Leq(id, v)
  }

  /** One turn of the scan. */
  method IsStarved(w: Setup, s: State, id: NodeId) returns (yes: bool)
    requires id in w.g.joinGroupCount && id in s.arrived
    ensures yes <==> Starved(w, s, id)
  {
    var total := w.g.joinGroupCount[id];
    if total <= 1 { return false; }
    var got := s.arrived[id];
    yes := 0 < got < total;
  }

  /** The scan for a starved join, in sorted order. */
  method FirstStarved(w: Setup, s: State) returns (id: Option<NodeId>)
    requires w.g.joinGroupCount.Keys <= s.arrived.Keys
    ensures id.None? ==> forall v :: !Starved(w, s, v)
    ensures id.Some? ==> Starved(w, s, id.value) && forall v :: Starved(w, s, v) ==> Leq(id.value, v)
  {
    var ids := SortedStrings(w.g.joinGroupCount.Keys);
    for i := 0 to |ids|
      invariant forall k :: 0 <= k < i ==> !Starved(w, s, ids[k])
    {
      assert ids[i] in ids;
      var starved := IsStarved(w, s, ids[i]);
      if starved {
        FirstFoundIsLeast(w, s, ids, i);
        return Some(ids[i]);
      }
    }
    id := None;
    forall v ensures !Starved(w, s, v) {
      if v in w.g.joinGroupCount { assert v in ids; }
    }
  }

  lemma FirstFoundIsLeast(w: Setup, s: State, ids: seq<NodeId>, i: nat)
    requires StrictlySorted(ids) && i < |ids| && forall v :: v in w.g.joinGroupCount ==> v in ids
    requires forall k :: 0 <= k < i ==> !Starved(w, s, ids[k])
    ensures forall v :: Starved(w, s, v) ==> Leq(ids[i], v)
  {
    FirstIsLeast(ids, i, set v | v in ids && Starved(w, s, v));
  }

  lemma FirstIsLeast(ids: seq<string>, i: nat, among: set<string>)
    requires StrictlySorted(ids) && i < |ids|
    requires among <= Elements(ids) && forall k :: 0 <= k < i ==> ids[k] !in among
    ensures forall v :: v in among ==> Leq(ids[i], v)
  {
    forall v | v in among ensures Leq(ids[i], v) {
      var k :| 0 <= k < |ids| && ids[k] == v;
      LeqTotal(v, v);
    }
  }

  /** The result: a graph without entries is refused; after the wait a recorded error comes first,
      then a truncated run, then the starved join that comes first in sorted order. */
  method Decide(w: Setup, s: State) returns (r: Verdict)
    requires w.g.joinGroupCount.Keys <= s.arrived.Keys
    ensures IsVerdict(w, s, r)
  {
    if |w.g.entryNodes| == 0 { return NoEntryNodes; }
    if s.firstErr.Some? { return NodeError(s.firstErr.value); }
    if s.cancelled { return Truncated; }
    var id := FirstStarved(w, s);
    if id.Some? { return StarvedJoin(id.value, s.arrived[id.value], w.g.joinGroupCount[id.value]); }
    r := Success;
  }

  lemma VerdictUnique(w: Setup, s: State, s': State, r: Verdict, r': Verdict)
    requires IsVerdict(w, s, r) && IsVerdict(w, s', r')
    requires s.firstErr == s'.firstErr && s.cancelled == s'.cancelled && s.arrived == s'.arrived
    ensures r == r'
  {
    forall v ensures Starved(w, s, v) <==> Starved(w, s', v) {}
    if r.StarvedJoin? && r'.StarvedJoin? { LeqAntisymmetric(r.id, r'.id); }
  }

  // ---------------------------------------------------------------------------
  // Failures are recorded

  ghost predicate Accounted(s: State, t: Thread) {
    && (t.pc.Failed? || t.pc.Aborted? ==> s.cancelled)
    && (t.pc.Failing? || t.pc.Failed? ==> s.firstErr.Some?)
  }

  ghost predicate FailuresRecorded(s: State) {
    forall k :: 0 <= k < |s.threads| ==> Accounted(s, s.threads[k])
  }

  lemma MoveRecords(s: State, s': State, t: nat)
    requires FailuresRecorded(s) && Moves(s, s', t) && LaunchesOne(s, s') && Accounted(s', s'.threads[t])
    requires (s.cancelled ==> s'.cancelled) && (s.firstErr.Some? ==> s'.firstErr.Some?)
    ensures FailuresRecorded(s')
  {
    forall k | 0 <= k < |s'.threads| ensures Accounted(s', s'.threads[k]) {
      if k < |s.threads| && k != t { assert Accounted(s, s.threads[k]); }
    }
  }

  lemma EvictRecords(w: Setup, s: State, t: nat)
    requires FailuresRecorded(s) && t < |s.threads| && s.threads[t].pc.Evicting?
    ensures FailuresRecorded(DoEvict(w, s, t))
  {
    EvictMoves(w, s, t);
    MoveRecords(s, DoEvict(w, s, t), t);
  }

  lemma SwapRecords(w: Setup, s: State, t: nat)
    requires FailuresRecorded(s) && AtSwap(w, s, t)
    ensures FailuresRecorded(DoSwap(w, s, t))
  {
    SwapMoves(w, s, t);
    MoveRecords(s, DoSwap(w, s, t), t);
  }

  lemma ArriveRecords(w: Setup, s: State, t: nat)
    requires FailuresRecorded(s) && AtArrival(w, s, t)
    ensures FailuresRecorded(DoArrive(w, s, t))
  {
    ArriveMoves(w, s, t);
    MoveRecords(s, DoArrive(w, s, t), t);
  }

  lemma StepRecords(w: Setup, s: State, e: Event)
    requires Enabled(w, s, e) && FailuresRecorded(s)
    ensures FailuresRecorded(Apply(w, s, e))
  {
    if e.Evict? { EvictRecords(w, s, e.t); }
    else if e.Swap? { SwapRecords(w, s, e.t); }
    else if e.Arrive? { ArriveRecords(w, s, e.t); }
    else if e.Check? || e.Settle? || e.Abort? {
      var pc := LocalStep(w, s, e);
      assert Accounted(s, s.threads[e.t]);
      MoveRecords(s, Apply(w, s, e), e.t);
    } else {
      var s' := Apply(w, s, e);
      forall k | 0 <= k < |s'.threads| ensures Accounted(s', s'.threads[k]) {
        if k < |s.threads| { assert Accounted(s, s.threads[k]); }
      }
    }
  }

  lemma {:induction false} RunRecords(w: Setup, es: seq<Event>)
    requires Possible(w, es)
    ensures FailuresRecorded(After(w, es))
    decreases |es|
  {
    if es != [] {
      RunRecords(w, es[..|es|-1]);
      StepRecords(w, After(w, es[..|es|-1]), es[|es|-1]);
    }
  }

  // ---------------------------------------------------------------------------
  // A clean end

  /** All goroutines have finished and nothing failed or was cut short. */
  ghost predicate Clean(w: Setup, s: State) {
    Quiescent(w, s) && s.firstErr.None? && !s.cancelled
  }

  /** The goroutine followed its output to the last target. */
  ghost predicate Completed(g: CompiledGraph, t: Thread) {
    t.pc.Following? && t.pc.index == |Targets(g, t.node, t.pc.output)|
  }

  lemma CleanMeansCompleted(w: Setup, s: State, k: nat)
    requires Inv(w, s) && FailuresRecorded(s) && Clean(w, s) && k < |s.threads|
    ensures Completed(w.g, s.threads[k])
  {
    assert InRange(w.g, s.threads[k]) && Accounted(s, s.threads[k]);
    assert s.threads[k] in s.threads;
  }

  lemma CompletedDelivered(g: CompiledGraph, t: Thread, v: NodeId)
    requires Completed(g, t)
    ensures Delivered(g, t, v) <==> v in Targets(g, t.node, t.pc.output)
  {
    var targets := Targets(g, t.node, t.pc.output);
    if v in targets {
      var k :| 0 <= k < |targets| && targets[k] == v;
      assert Targets(g, t.node, Fired(t.pc).value)[k] == v;
    }
  }

  /** Once nothing is in flight, the counter is the number of raised flags. */
  lemma SettledCount(w: Setup, s: State, v: NodeId)
    requires Inv(w, s) && Quiescent(w, s) && v in w.g.nodes
    ensures s.arrived[v] == Tally(IsSet(), s.seen[v]) <= |s.seen[v]| == GroupCount(w.g, v)
  {
    assert Balanced(w, s, v);
    forall k | 0 <= k < |s.threads| ensures !ArrivingAt(w.g, v)(s.threads[k]) {
      assert s.threads[k] in s.threads;
    }
    TallyNone(ArrivingAt(w.g, v), s.threads);
    TallyBounded(IsSet(), s.seen[v]);
  }

  lemma ReachedJoinFired(w: Setup, s: State, v: NodeId, i: nat)
    requires Inv(w, s) && Quiescent(w, s) && v in w.g.nodes && !IsEntry(w.g, v)
    requires w.g.joinGroupCount.Keys == w.g.nodes.Keys
    requires Flag(s, v, i) && !Starved(w, s, v)
    ensures Tally(OnNode(v), s.threads) == 1
  {
    SettledCount(w, s, v);
    TallyPositive(IsSet(), s.seen[v], i);
    assert Balanced(w, s, v);
  }

  /** If the run succeeds, every goroutine ran to completion; each target of a followed output ran
      exactly once; and no join was reached without firing. */
  lemma SuccessIsComplete(w: Setup, es: seq<Event>)
    requires Runnable(w.g) && Possible(w, es)
    requires Quiescent(w, After(w, es)) && IsVerdict(w, After(w, es), Success)
    ensures var s := After(w, es);
      && (forall k :: 0 <= k < |s.threads| ==> Completed(w.g, s.threads[k]))
      && (forall k, v :: 0 <= k < |s.threads| && v in Targets(w.g, s.threads[k].node, s.threads[k].pc.output) ==>
            Tally(OnNode(v), s.threads) == 1)
      && (forall v :: v in s.arrived && s.arrived[v] > 0 ==> Tally(OnNode(v), s.threads) == 1)
  {
    var s := After(w, es);
    RunInv(w, es);
    RunRecords(w, es);
    forall k | 0 <= k < |s.threads| ensures Completed(w.g, s.threads[k]) { CleanMeansCompleted(w, s, k); }
    forall k, v | 0 <= k < |s.threads| && v in Targets(w.g, s.threads[k].node, s.threads[k].pc.output)
      ensures Tally(OnNode(v), s.threads) == 1
    {
      TargetFired(w, s, k, v);
    }
    forall v | v in s.arrived && s.arrived[v] > 0 ensures Tally(OnNode(v), s.threads) == 1 {
      ArrivedFired(w, s, v);
    }
  }

  lemma TargetFired(w: Setup, s: State, k: nat, v: NodeId)
    requires Runnable(w.g) && Inv(w, s) && Quiescent(w, s) && !Starved(w, s, v)
    requires k < |s.threads| && Completed(w.g, s.threads[k]) && v in Targets(w.g, s.threads[k].node, s.threads[k].pc.output)
    ensures Tally(OnNode(v), s.threads) == 1
  {
    TargetIsJoin(w.g, s.threads[k].node, s.threads[k].pc.output, v);
    CompletedDelivered(w.g, s.threads[k], v);
    assert FlagsRaised(w.g, s, s.threads[k]);
    ReachedJoinFired(w, s, v, Group(w.g, v, s.threads[k].node));
  }

  /** A counter that moved was moved by a delivery along some edge. */
  lemma ArrivedHasCause(w: Setup, s: State, v: NodeId) returns (i: nat, u: NodeId, o: string)
    requires Inv(w, s) && Quiescent(w, s) && v in s.arrived && s.arrived[v] > 0
    ensures Flag(s, v, i) && v in Targets(w.g, u, o)
  {
    SettledCount(w, s, v);
    i := TallyWitness(IsSet(), s.seen[v]);
    assert Flag(s, v, i) && Caused(w.g, s, v, i);
    var k :| 0 <= k < |s.threads| && Delivered(w.g, s.threads[k], v) && Group(w.g, v, s.threads[k].node) == i;
    u, o := s.threads[k].node, Fired(s.threads[k].pc).value;
  }

  lemma ArrivedFired(w: Setup, s: State, v: NodeId)
    requires Runnable(w.g) && Inv(w, s) && Quiescent(w, s) && !Starved(w, s, v)
    requires v in s.arrived && s.arrived[v] > 0
    ensures Tally(OnNode(v), s.threads) == 1
  {
    var i, u, o := ArrivedHasCause(w, s, v);
    TargetIsJoin(w.g, u, o, v);
    ReachedJoinFired(w, s, v, i);
  }
}
