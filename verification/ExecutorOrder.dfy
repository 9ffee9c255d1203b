/** Causality: every goroutine of a join was launched after a delivery for each of its groups. */
module ExecutorOrder {
  import opened Common
  import opened WorkflowGraph
  import opened Executor
  import opened ExecutorInvariant

  /** Some goroutine launched before position `k` delivered to `v` for group `i`. */
  ghost predicate CausedBefore(g: CompiledGraph, s: State, v: NodeId, i: nat, k: nat) {
    exists j :: 0 <= j < k <= |s.threads| && Delivered(g, s.threads[j], v) && Group(g, v, s.threads[j].node) == i
  }

  /** All groups of the node of goroutine `k` had delivered before it was launched. */
  ghost predicate WellFounded(g: CompiledGraph, s: State, k: nat)
    requires k < |s.threads|
  {
    var v := s.threads[k].node;
    IsEntry(g, v) || forall i: nat :: i < GroupCount(g, v) ==> CausedBefore(g, s, v, i, k)
  }

  ghost predicate Ordered(w: Setup, s: State) {
    forall k :: 0 <= k < |s.threads| ==> WellFounded(w.g, s, k)
  }

  /** Goroutines keep their node and their deliveries. */
  ghost predicate Continues(g: CompiledGraph, t: Thread, t': Thread) {
    t'.node == t.node && forall v :: Delivered(g, t, v) ==> Delivered(g, t', v)
  }

  ghost predicate Extends(g: CompiledGraph, s: State, s': State) {
    |s.threads| <= |s'.threads| && forall k :: 0 <= k < |s.threads| ==> Continues(g, s.threads[k], s'.threads[k])
  }

  lemma AdvanceContinues(g: CompiledGraph, t: Thread, t': Thread)
    requires t'.node == t.node && Passed(t.pc) <= Passed(t'.pc)
    requires Passed(t.pc) > 0 ==> Fired(t'.pc) == Fired(t.pc)
    ensures Continues(g, t, t')
  {
    forall v | Delivered(g, t, v) ensures Delivered(g, t', v) {
      var k :| 0 <= k < Passed(t.pc) && k < |Targets(g, t.node, Fired(t.pc).value)|
               && Targets(g, t.node, Fired(t.pc).value)[k] == v;
      assert Targets(g, t'.node, Fired(t'.pc).value)[k] == v;
    }
  }

  /** The goroutine that a step moves. */
  ghost predicate Moves(s: State, s': State, t: nat) {
    && t < |s.threads| <= |s'.threads|
    && s'.threads[t].node == s.threads[t].node
    && Passed(s.threads[t].pc) <= Passed(s'.threads[t].pc)
    && (Passed(s.threads[t].pc) > 0 ==> Fired(s'.threads[t].pc) == Fired(s.threads[t].pc))
    && forall k :: 0 <= k < |s.threads| && k != t ==> s'.threads[k] == s.threads[k]
  }

  lemma MovesExtends(g: CompiledGraph, s: State, s': State, t: nat)
    requires Moves(s, s', t)
    ensures Extends(g, s, s')
  {
    AdvanceContinues(g, s.threads[t], s'.threads[t]);
  }

  lemma EvictMoves(w: Setup, s: State, t: nat)
    requires t < |s.threads| && s.threads[t].pc.Evicting?
    ensures Moves(s, DoEvict(w, s, t), t) && |DoEvict(w, s, t).threads| == |s.threads|
  {
  }

  lemma SwapMoves(w: Setup, s: State, t: nat)
    requires AtSwap(w, s, t)
    ensures Moves(s, DoSwap(w, s, t), t) && |DoSwap(w, s, t).threads| == |s.threads|
  {
  }

  lemma ArriveMoves(w: Setup, s: State, t: nat)
    requires AtArrival(w, s, t)
    ensures Moves(s, DoArrive(w, s, t), t) && LaunchesOne(s, DoArrive(w, s, t))
  {
  }

  /** At most one goroutine is launched, and it has not started. */
  ghost predicate LaunchesOne(s: State, s': State) {
    && |s.threads| <= |s'.threads| <= |s.threads| + 1
    && (|s'.threads| == |s.threads| + 1 ==> s'.threads[|s.threads|].pc == Ready)
  }

  lemma StepExtends(w: Setup, s: State, e: Event)
    requires Enabled(w, s, e)
    ensures Extends(w.g, s, Apply(w, s, e)) && LaunchesOne(s, Apply(w, s, e))
  {
    if !e.Launch? && !e.Cancel? {
      if e.Evict? { EvictMoves(w, s, e.t); }
      else if e.Swap? { SwapMoves(w, s, e.t); }
      else if e.Arrive? { ArriveMoves(w, s, e.t); }
      else { var pc := LocalStep(w, s, e); }
      MovesExtends(w.g, s, Apply(w, s, e), e.t);
    }
  }

  lemma CauseContinues(g: CompiledGraph, s: State, s': State, v: NodeId, i: nat, k: nat)
    requires Extends(g, s, s') && CausedBefore(g, s, v, i, k)
    ensures CausedBefore(g, s', v, i, k)
  {
    var j :| 0 <= j < k <= |s.threads| && Delivered(g, s.threads[j], v) && Group(g, v, s.threads[j].node) == i;
    assert Continues(g, s.threads[j], s'.threads[j]);
    assert Delivered(g, s'.threads[j], v);
  }

  lemma OldStayFounded(w: Setup, s: State, s': State, k: nat)
    requires Extends(w.g, s, s') && k < |s.threads| && WellFounded(w.g, s, k)
    ensures WellFounded(w.g, s', k)
  {
    var v := s.threads[k].node;
    assert Continues(w.g, s.threads[k], s'.threads[k]);
    if !IsEntry(w.g, v) {
      forall i: nat | i < GroupCount(w.g, v) ensures CausedBefore(w.g, s', v, i, k) {
        CauseContinues(w.g, s, s', v, i, k);
      }
    }
  }

  /** If a node that is not an entry has a goroutine, every flag it waits for is raised. */
  lemma AllFlagsRaised(w: Setup, s: State, k: nat, i: nat)
    requires Inv(w, s) && k < |s.threads| && !IsEntry(w.g, s.threads[k].node)
    requires i < GroupCount(w.g, s.threads[k].node)
    ensures Flag(s, s.threads[k].node, i)
    ensures s.arrived[s.threads[k].node] == GroupCount(w.g, s.threads[k].node)
  {
    var v := s.threads[k].node;
    assert InRange(w.g, s.threads[k]);
    assert Balanced(w, s, v);
    TallyPositive(OnNode(v), s.threads, k);
    TallyBounded(IsSet(), s.seen[v]);
  }

  lemma NewestIsFounded(w: Setup, s: State, k: nat)
    requires Inv(w, s) && k + 1 == |s.threads| && s.threads[k].pc == Ready
    ensures WellFounded(w.g, s, k)
  {
    var v := s.threads[k].node;
    if !IsEntry(w.g, v) {
      forall i: nat | i < GroupCount(w.g, v) ensures CausedBefore(w.g, s, v, i, k) {
        AllFlagsRaised(w, s, k, i);
        assert Caused(w.g, s, v, i);
        var j :| 0 <= j < |s.threads| && Delivered(w.g, s.threads[j], v) && Group(w.g, v, s.threads[j].node) == i;
        assert j != k;
      }
    }
  }

  lemma StepOrdered(w: Setup, s: State, s': State)
    requires Ordered(w, s) && Extends(w.g, s, s') && LaunchesOne(s, s') && Inv(w, s')
    ensures Ordered(w, s')
  {
    forall k | 0 <= k < |s'.threads| ensures WellFounded(w.g, s', k) {
      if k < |s.threads| {
        assert WellFounded(w.g, s, k);
        OldStayFounded(w, s, s', k);
      } else {
        NewestIsFounded(w, s', k);
      }
    }
  }

  lemma {:induction false} RunOrdered(w: Setup, es: seq<Event>)
    requires Runnable(w.g) && Possible(w, es)
    ensures Ordered(w, After(w, es))
    decreases |es|
  {
    if es != [] {
      RunOrdered(w, es[..|es|-1]);
      RunInv(w, es);
      StepExtends(w, After(w, es[..|es|-1]), es[|es|-1]);
      StepOrdered(w, After(w, es[..|es|-1]), After(w, es));
    }
  }
}
