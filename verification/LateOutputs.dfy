/** Outputs that are never evicted although every reader has completed: for which graphs that can
    happen, decided on the compiled graph. */
module LateOutputs {
  import opened Common
  import opened WorkflowGraph
  import opened Executor
  import opened ExecutorInvariant
  import opened ExecutorOrder
  import opened ExecutorTheorems
  import opened ScheduleIndependence
  import opened ExecutorProgress
  import opened Exclusivity
  import opened ExecutorOutcomes
  import opened Eviction
  import opened EvictionRuns
  import opened EvictionOutcomes

  // ---------------------------------------------------------------------------
  // The static condition

  /** Contains every node that runs under the choice while `p` has not answered. */
  ghost predicate ClosedWithout(g: CompiledGraph, c: Choice, p: NodeId, nodes: set<NodeId>) {
    forall v :: v in g.nodes && Due(g, c, nodes - {p}, v) ==> v in nodes
  }

  /** Under the choice, `p` and all readers of its output run without any help from `p`. */
  ghost predicate Overtaken(g: CompiledGraph, c: Choice, p: NodeId) {
    && p !in Readers(g, p)
    && forall nodes :: ClosedWithout(g, c, p, nodes) ==> p in nodes && Readers(g, p) <= nodes
  }

  // ---------------------------------------------------------------------------
  // A late output was overtaken

  ghost predicate Silent(s: State, p: NodeId) {
    forall k :: 0 <= k < |s.threads| && s.threads[k].node == p ==> Fired(s.threads[k].pc).None?
  }

  lemma HeldFeeds(g: CompiledGraph, s: State, c: Choice, p: NodeId, nodes: set<NodeId>, v: NodeId, i: nat, j: nat)
    requires Obeys(s, c) && Silent(s, p) && j < |s.threads| && s.threads[j].node in nodes
    requires Delivered(g, s.threads[j], v) && Group(g, v, s.threads[j].node) == i
    ensures Feeds(g, c, nodes - {p}, v, i)
  {
    ObeysDelivers(g, s, c, j, v);
    assert Fired(s.threads[j].pc).Some?;
  }

  lemma {:induction false} RunsWithinHeld(w: Setup, s: State, c: Choice, p: NodeId, nodes: set<NodeId>, k: nat)
    requires Shaped(w, s) && Ordered(w, s) && Obeys(s, c) && Silent(s, p) && ClosedWithout(w.g, c, p, nodes) && k < |s.threads|
    ensures s.threads[k].node in nodes
    decreases k
  {
    var v := s.threads[k].node;
    assert InRange(w.g, s.threads[k]) && WellFounded(w.g, s, k);
    if !IsEntry(w.g, v) {
      forall i: nat | i < GroupCount(w.g, v) ensures Feeds(w.g, c, nodes - {p}, v, i) {
        assert CausedBefore(w.g, s, v, i, k);
        var j :| 0 <= j < k <= |s.threads| && Delivered(w.g, s.threads[j], v) && Group(w.g, v, s.threads[j].node) == i;
        RunsWithinHeld(w, s, c, p, nodes, j);
        HeldFeeds(w.g, s, c, p, nodes, v, i, j);
      }
    }
    assert Due(w.g, c, nodes - {p}, v);
  }

  lemma ReadersWithinHeld(w: Setup, s: State, c: Choice, p: NodeId, nodes: set<NodeId>, k: nat)
    requires Shaped(w, s) && Ordered(w, s) && Obeys(s, c) && Silent(s, p) && ClosedWithout(w.g, c, p, nodes)
    requires k < |s.threads| && s.threads[k].node == p && AllReleased(w, s, p)
    ensures p in nodes && Readers(w.g, p) <= nodes
  {
    RunsWithinHeld(w, s, c, p, nodes, k);
    forall r | r in Readers(w.g, p) ensures r in nodes {
      assert HasReleased(w, s, r, OutputKey(w.g, p));
      var j :| 0 <= j < |s.threads| && s.threads[j].node == r && Released(w, OutputKey(w.g, p))(s.threads[j]);
      RunsWithinHeld(w, s, c, p, nodes, j);
    }
  }

  lemma SilentWhileRunning(s: State, k: nat)
    requires OneEach(s) && k < |s.threads| && s.threads[k].pc.Running?
    ensures Silent(s, s.threads[k].node)
  {
    forall j | 0 <= j < |s.threads| && s.threads[j].node == s.threads[k].node ensures Fired(s.threads[j].pc).None? {
      assert !(j < k) && !(k < j);
    }
  }

  /** If all readers have completed while `p` is still running, they were all overtaking it. */
  lemma OvertakenWhenReleased(w: Setup, es: seq<Event>, k: nat, s: State, p: NodeId)
    requires Runnable(w.g) && Possible(w, es) && s == After(w, es)
    requires k < |s.threads| && s.threads[k].node == p && s.threads[k].pc.Running? && AllReleased(w, s, p)
    ensures Followable(w.g, ChoiceOf(s)) && Overtaken(w.g, ChoiceOf(s), p)
  {
    RunInv(w, es);
    RunOrdered(w, es);
    RunHasChoice(w, es);
    OneGoroutineEach(w, s);
    OvertakenInState(w, s, ChoiceOf(s), k, p);
  }

  lemma OvertakenInState(w: Setup, s: State, c: Choice, k: nat, p: NodeId)
    requires Shaped(w, s) && Ordered(w, s) && OneEach(s) && Obeys(s, c)
    requires k < |s.threads| && s.threads[k].node == p && s.threads[k].pc.Running? && AllReleased(w, s, p)
    ensures Overtaken(w.g, c, p)
  {
    NotReleasedYet(w, s, k, OutputKey(w.g, p));
    assert p !in Readers(w.g, p);
    SilentWhileRunning(s, k);
    forall nodes | ClosedWithout(w.g, c, p, nodes) ensures p in nodes && Readers(w.g, p) <= nodes {
      ReadersWithinHeld(w, s, c, p, nodes, k);
    }
  }

  // ---------------------------------------------------------------------------
  // Running everything but one node

  ghost predicate Held(s: State, p: NodeId) {
    forall k :: 0 <= k < |s.threads| && s.threads[k].node == p ==> s.threads[k].pc.Ready? || s.threads[k].pc.Running?
  }

  ghost predicate OthersFinished(w: Setup, s: State, p: NodeId) {
    && s.launched == |w.g.entryNodes|
    && forall k :: 0 <= k < |s.threads| && s.threads[k].node != p ==> Finished(w.g, s.threads[k])
  }

  lemma MoveHeld(s: State, s': State, t: nat, p: NodeId)
    requires Held(s, p) && t < |s.threads| && s.threads[t].node != p && LaunchesOne(s, s')
    requires s'.threads[t].node == s.threads[t].node
    requires forall k :: 0 <= k < |s.threads| && k != t ==> s'.threads[k] == s.threads[k]
    ensures Held(s', p)
  {
  }

  lemma StepHeld(w: Setup, s: State, e: Event, p: NodeId)
    requires Enabled(w, s, e) && Held(s, p) && !e.Launch? && !e.Cancel? && s.threads[e.t].node != p
    ensures Held(Apply(w, s, e), p)
  {
    if e.Evict? { EvictMoves(w, s, e.t); }
    else if e.Swap? { SwapMoves(w, s, e.t); }
    else if e.Arrive? { ArriveMoves(w, s, e.t); }
    else { var pc := LocalStep(w, s, e); }
    MoveHeld(s, Apply(w, s, e), e.t, p);
  }

  lemma CanStepHolding(w: Setup, s: State, c: Choice, p: NodeId) returns (e: Event)
    requires Inv(w, s) && FailuresRecorded(s) && Followable(w.g, c) && OnCourse(s, c) && Held(s, p)
    requires !OthersFinished(w, s, p)
    ensures Enabled(w, s, e) && OnCourse(Apply(w, s, e), c) && Held(Apply(w, s, e), p)
  {
    if s.launched < |w.g.entryNodes| {
      e := Launch;
      LaunchOnCourse(w, s, c);
    } else {
      var k :| 0 <= k < |s.threads| && s.threads[k].node != p && !Finished(w.g, s.threads[k]);
      assert InRange(w.g, s.threads[k]) && Accounted(s, s.threads[k]);
      e := GoroutineCanStep(w, s, c, k);
      StepHeld(w, s, e, p);
    }
  }

  /** One more step, with what the induction needs to know about it. */
  lemma StepHolding(w: Setup, b: nat, es: seq<Event>, c: Choice, p: NodeId) returns (next: seq<Event>)
    requires Runnable(w.g) && Bounded(w, b) && Followable(w.g, c)
    requires Possible(w, es) && OnCourse(After(w, es), c) && Held(After(w, es), p) && !OthersFinished(w, After(w, es), p)
    ensures Possible(w, next) && OnCourse(After(w, next), c) && Held(After(w, next), p)
    ensures |es| < |next| <= Budget(w, b, Init(w))
  {
    RunInv(w, es);
    RunRecords(w, es);
    var e := CanStepHolding(w, After(w, es), c, p);
    next := es + [e];
    assert next[..|next|-1] == es;
    RunsEnd(w, b, next);
  }

  /** A run can be continued until every goroutine but that of `p` has finished. */
  lemma {:induction false} RunsHolding(w: Setup, b: nat, es: seq<Event>, c: Choice, p: NodeId) returns (es': seq<Event>)
    requires Runnable(w.g) && Bounded(w, b) && Followable(w.g, c)
    requires Possible(w, es) && OnCourse(After(w, es), c) && Held(After(w, es), p)
    ensures Possible(w, es') && OnCourse(After(w, es'), c) && Held(After(w, es'), p) && OthersFinished(w, After(w, es'), p)
    decreases Budget(w, b, Init(w)) - |es|
  {
    if OthersFinished(w, After(w, es), p) {
      es' := es;
    } else {
      var next := StepHolding(w, b, es, c, p);
      es' := RunsHolding(w, b, next, c, p);
    }
  }

  ghost predicate OthersCompleted(g: CompiledGraph, s: State, p: NodeId) {
    forall k :: 0 <= k < |s.threads| && s.threads[k].node != p ==> Completed(g, s.threads[k])
  }

  lemma FinishedCompleted(w: Setup, s: State, c: Choice, p: NodeId)
    requires Shaped(w, s) && FailuresRecorded(s) && OnCourse(s, c) && OthersFinished(w, s, p)
    ensures OthersCompleted(w.g, s, p)
  {
    forall k | 0 <= k < |s.threads| && s.threads[k].node != p ensures Completed(w.g, s.threads[k]) {
      assert InRange(w.g, s.threads[k]) && Accounted(s, s.threads[k]);
    }
  }

  lemma NobodyArriving(w: Setup, s: State, p: NodeId, v: NodeId)
    requires Inv(w, s) && Held(s, p) && OthersFinished(w, s, p) && v in w.g.nodes
    ensures v in s.arrived && v in s.seen && s.arrived[v] == Tally(IsSet(), s.seen[v])
  {
    assert Balanced(w, s, v);
    forall k | 0 <= k < |s.threads| ensures !ArrivingAt(w.g, v)(s.threads[k]) {}
    TallyNone(ArrivingAt(w.g, v), s.threads);
  }

  lemma DueRanWithout(w: Setup, s: State, c: Choice, p: NodeId, v: NodeId)
    requires EntriesListed(w.g) && Inv(w, s) && Obeys(s, c) && Held(s, p) && OthersFinished(w, s, p) && OthersCompleted(w.g, s, p)
    requires v in w.g.nodes && Due(w.g, c, Dispatched(s) - {p}, v)
    ensures v in Dispatched(s)
  {
    assert Balanced(w, s, v);
    if IsEntry(w.g, v) {
      assert Launched(w, s) == w.g.entryNodes;
    } else {
      forall i: nat | i < |s.seen[v]| ensures s.seen[v][i] {
        assert Feeds(w.g, c, Dispatched(s) - {p}, v, i);
        FlagRaisedWithout(w, s, c, p, v, i);
      }
      AllSet(s.seen[v]);
      NobodyArriving(w, s, p, v);
    }
    DispatchedHasGoroutine(w, s, v);
  }

  lemma FlagRaisedWithout(w: Setup, s: State, c: Choice, p: NodeId, v: NodeId, i: nat)
    requires FlagsExplained(w, s) && Obeys(s, c) && OthersCompleted(w.g, s, p)
    requires Feeds(w.g, c, Dispatched(s) - {p}, v, i)
    ensures Flag(s, v, i)
  {
    var u :| u in Dispatched(s) - {p} && v in Targets(w.g, u, c(u)) && Group(w.g, v, u) == i;
    var k := GoroutineOf(s, u);
    CompletedRaises(w, s, k, v);
  }

  lemma CompletedRaises(w: Setup, s: State, k: nat, v: NodeId)
    requires FlagsExplained(w, s) && k < |s.threads| && Completed(w.g, s.threads[k])
    requires v in Targets(w.g, s.threads[k].node, s.threads[k].pc.output)
    ensures Flag(s, v, Group(w.g, v, s.threads[k].node))
  {
    CompletedDelivered(w.g, s.threads[k], v);
    assert FlagsRaised(w.g, s, s.threads[k]);
  }

  lemma ReaderListsKey(w: Setup, p: NodeId, r: NodeId)
    requires Tracks(w) && Tracked(w.g, p) && r in Readers(w.g, p)
    ensures OutputKey(w.g, p) in Keys(w, r)
  {
    assert ListsKeys(w.g, w.consumers, w.g.nodes.Keys, r);
    assert ReadsKey(w.g, w.g.nodes.Keys, r, OutputKey(w.g, p));
  }

  /** A completed reader has released the output. */
  lemma CompletedReleases(w: Setup, s: State, key: string, k: nat)
    requires k < |s.threads| && Completed(w.g, s.threads[k]) && key in Keys(w, s.threads[k].node)
    ensures HasReleased(w, s, s.threads[k].node, key)
  {
    var keys := Keys(w, s.threads[k].node);
    assert keys[..Cleared(w, s.threads[k])] == keys;
    assert Released(w, key)(s.threads[k]);
  }

  /** An overtaken node can be held until all its readers have completed. */
  lemma OvertakenCanWait(w: Setup, c: Choice, p: NodeId) returns (es: seq<Event>, k: nat)
    requires Runnable(w.g) && Tracks(w) && Tracked(w.g, p) && Followable(w.g, c) && Overtaken(w.g, c, p)
    ensures Possible(w, es) && OnCourse(After(w, es), c) && AllReleased(w, After(w, es), p)
    ensures k < |After(w, es).threads| && After(w, es).threads[k].node == p
    ensures After(w, es).threads[k].pc.Ready? || After(w, es).threads[k].pc.Running?
  {
    var b := BoundExists(w);
    es := RunsHolding(w, b, [], c, p);
    var s := After(w, es);
    RunInv(w, es);
    RunRecords(w, es);
    FinishedCompleted(w, s, c, p);
    assert ClosedWithout(w.g, c, p, Dispatched(s)) by {
      forall v | v in w.g.nodes && Due(w.g, c, Dispatched(s) - {p}, v) ensures v in Dispatched(s) {
        DueRanWithout(w, s, c, p, v);
      }
    }
    k := GoroutineOf(s, p);
    forall r | r in Readers(w.g, p) ensures HasReleased(w, s, r, OutputKey(w.g, p)) {
      var j := GoroutineOf(s, r);
      ReaderListsKey(w, p, r);
      CompletedReleases(w, s, OutputKey(w.g, p), j);
    }
  }

  // ---------------------------------------------------------------------------
  // The exact condition

  /** After the run `es` the output of goroutine `k`, of node `p`, is still there although all its
      readers have completed. */
  ghost predicate Lingers(w: Setup, es: seq<Event>, k: nat, p: NodeId) {
    && Possible(w, es) && k < |After(w, es).threads| && After(w, es).threads[k].node == p
    && Fired(After(w, es).threads[k].pc).Some? && AllReleased(w, After(w, es), p)
    && OutputKey(w.g, p) in After(w, es).outputs
  }

  ghost predicate CanLinger(w: Setup, p: NodeId) {
    exists es, k: nat :: Lingers(w, es, k, p)
  }

  ghost predicate CanBeOvertaken(g: CompiledGraph, p: NodeId) {
    exists c: Choice :: Followable(g, c) && Overtaken(g, c, p)
  }

  lemma OvertakenUnder(g: CompiledGraph, c: Choice, p: NodeId, r: NodeId)
    requires Followable(g, c) && p != r && Readers(g, p) == {r}
    requires forall nodes :: ClosedWithout(g, c, p, nodes) ==> p in nodes && r in nodes
    ensures CanBeOvertaken(g, p)
  {
    assert Overtaken(g, c, p);
  }

  /** Take the check that a waiting goroutine still has to make. */
  lemma CheckFirst(w: Setup, es: seq<Event>, c: Choice, p: NodeId, k: nat) returns (es': seq<Event>)
    requires Possible(w, es) && OnCourse(After(w, es), c) && AllReleased(w, After(w, es), p)
    requires k < |After(w, es).threads| && After(w, es).threads[k].node == p && After(w, es).threads[k].pc.Ready?
    ensures Possible(w, es') && OnCourse(After(w, es'), c) && AllReleased(w, After(w, es'), p)
    ensures k < |After(w, es').threads| && After(w, es').threads[k].node == p && After(w, es').threads[k].pc.Running?
  {
    var s := After(w, es);
    es' := es + [Check(k)];
    assert es'[..|es'|-1] == es;
    CheckOnCourse(w, s, k, c);
    ReleasesStay(w, s, Apply(w, s, Check(k)), k, p);
  }

  /** Goroutines that have released something keep it released when another one moves. */
  lemma ReleasesStay(w: Setup, s: State, s': State, k: nat, p: NodeId)
    requires AllReleased(w, s, p) && k < |s.threads| == |s'.threads| && Cleared(w, s.threads[k]) == 0
    requires forall j :: 0 <= j < |s.threads| && j != k ==> s'.threads[j] == s.threads[j]
    ensures AllReleased(w, s', p)
  {
    var key := OutputKey(w.g, p);
    forall r | r in Readers(w.g, p) ensures HasReleased(w, s', r, key) {
      assert HasReleased(w, s, r, key);
      var j :| 0 <= j < |s.threads| && s.threads[j].node == r && Released(w, key)(s.threads[j]);
      assert s'.threads[j] == s.threads[j];
    }
  }

  lemma AnswersLate(w: Setup, es: seq<Event>, c: Choice, p: NodeId, k: nat) returns (es': seq<Event>)
    requires Runnable(w.g) && Tracks(w) && DistinctKeys(w.g) && Tracked(w.g, p) && Followable(w.g, c)
    requires Possible(w, es) && OnCourse(After(w, es), c) && AllReleased(w, After(w, es), p)
    requires k < |After(w, es).threads| && After(w, es).threads[k].node == p && After(w, es).threads[k].pc.Running?
    ensures Lingers(w, es', k, p)
  {
    var s := After(w, es);
    var e := SettleOnCourse(w, s, k, c);
    es' := es + [e];
    assert es'[..|es|] == es;
    SettleReleases(w, s, e, k, p);
    StoredLateMeans(w, es', |es|, k);
    assert StoredLate(w, es', k);
    GoneIff(w, es', k);
  }

  lemma SettleReleases(w: Setup, s: State, e: Event, k: nat, p: NodeId)
    requires Enabled(w, s, e) && e.Settle? && e.t == k && AllReleased(w, s, p)
    ensures AllReleased(w, Apply(w, s, e), p)
    ensures k < |Apply(w, s, e).threads| && Apply(w, s, e).threads[k].node == s.threads[k].node
  {
    var pc := LocalStep(w, s, e);
    ReleasesStay(w, s, Apply(w, s, e), k, p);
  }

  /** An output can outlive all its readers if and only if, for some choice of outputs, its node and all
      its readers run without the node's help. */
  lemma LingersIff(w: Setup, p: NodeId)
    requires Runnable(w.g) && Tracks(w) && DistinctKeys(w.g) && Tracked(w.g, p) && !w.retain
    ensures CanLinger(w, p) <==> CanBeOvertaken(w.g, p)
  {
    if CanLinger(w, p) {
      var es, k: nat :| Lingers(w, es, k, p);
      LingeringIsOvertaken(w, es, k, p);
    }
    if CanBeOvertaken(w.g, p) {
      var c: Choice :| Followable(w.g, c) && Overtaken(w.g, c, p);
      var es, k := OvertakenCanWait(w, c, p);
      if After(w, es).threads[k].pc.Ready? { es := CheckFirst(w, es, c, p, k); }
      es := AnswersLate(w, es, c, p, k);
    }
  }

  lemma LingeringIsOvertaken(w: Setup, es: seq<Event>, k: nat, p: NodeId)
    requires Runnable(w.g) && Tracks(w) && DistinctKeys(w.g) && Tracked(w.g, p) && !w.retain && Lingers(w, es, k, p)
    ensures CanBeOvertaken(w.g, p)
  {
    GoneIff(w, es, k);
    var i: nat :| StoredLateAt(w, es, i, k);
    PrefixPossible(w, es, i);
    StoredLateMeans(w, es, i, k);
    var s := After(w, es[..i]);
    RunLasts(w, es, i, |es|, s);
    assert es[..|es|] == es;
    OvertakenWhenReleased(w, es[..i], k, s, p);
  }
}
